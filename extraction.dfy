/**
 * What a splitting strategy hands to the extraction tool for one segment:
 * a display-filter query over `frame.time` and an output path.
 */
module Extraction {
  import opened Base
  import opened Text

  /** One `(query, output_filename)` pair yielded by `split_intervals`. */
  datatype Request = Request(query: string, path: string)

  /** The directory both strategies write into. */
  const OutputDir := "data_split"

  const QueryOpen := "frame.time >= \""
  const QueryMiddle := "\" and frame.time <= \""

  /** `'frame.time >= "{0}" and frame.time <= "{1}"'.format(start, end)`. */
  function Query(start: string, end: string): string {
    QueryOpen + (start + (QueryMiddle + (end + "\"")))
  }

  /** Recovers the two quoted bounds of a query; `None` when the text is not one. */
  function ParseQuery(q: string): Option<(string, string)> {
    if !StartsWith(q, QueryOpen) then None
    else
      var rest := q[|QueryOpen|..];
      var a := FirstField(rest, '"');
      FirstFieldPrefix(rest, '"');
      var tail := rest[|a|..];
      if !StartsWith(tail, QueryMiddle) then None
      else
        var closed := tail[|QueryMiddle|..];
        if closed == [] || closed[|closed| - 1] != '"' then None
        else
          var b := closed[..|closed| - 1];
          if '"' in b then None else Some((a, b))
  }

  /** A query brackets exactly the two bounds it was built from, when they hold no quote. */
  lemma QueryRoundTrip(start: string, end: string)
    requires '"' !in start && '"' !in end
    ensures ParseQuery(Query(start, end)) == Some((start, end))
  {
    var q := Query(start, end);
    assert q[..|QueryOpen|] == QueryOpen;
    var rest := q[|QueryOpen|..];
    var more := QueryMiddle[1..] + end + "\"";
    assert rest == start + ['"'] + more;
    FirstFieldBefore(start, more, '"');
    var tail := rest[|start|..];
    assert tail == QueryMiddle + end + "\"";
    assert tail[..|QueryMiddle|] == QueryMiddle;
    var closed := tail[|QueryMiddle|..];
    assert closed == end + "\"";
    assert closed[..|closed| - 1] == end;
  }

  /** Every text the parser accepts is a query built from quote-free bounds. */
  lemma ParseQuerySound(q: string)
    requires ParseQuery(q).Some?
    ensures var (start, end) := ParseQuery(q).value;
      '"' !in start && '"' !in end && q == Query(start, end)
  {
    var rest := q[|QueryOpen|..];
    var a := FirstField(rest, '"');
    FirstFieldPrefix(rest, '"');
    var tail := rest[|a|..];
    var closed := tail[|QueryMiddle|..];
    var b := closed[..|closed| - 1];
    assert closed == b + "\"";
    assert tail == QueryMiddle + closed;
    assert rest == a + tail;
    assert q == QueryOpen + rest;
  }
}
