/**
 * The mark-based strategy (`MarkSplitter.split_intervals`): one segment per
 * mark of the side-car `.marks` file, named after the mark and its end time.
 */
module MarkSplit {
  import opened Base
  import opened Text
  import opened PosixPath
  import opened Clock
  import opened Extraction

  /** One object of the `.marks` file: `{"start": ..., "end": ..., "name": ...}`. */
  datatype Mark = Mark(start: string, end: string, name: string)

  /** The file-name stamp built from a mark's end: dashes and colons dropped, spaces made `_`, cut at the first `.`. */
  function TimeSuffix(end: string): (r: string)
    ensures '-' !in r && ':' !in r && ' ' !in r && '.' !in r
  {
    var noDash := Replace(end, '-', "");
    var noColon := Replace(noDash, ':', "");
    var underscored := Replace(noColon, ' ', "_");
    ReplaceRemoves(end, '-', "", '-');
    ReplaceRemoves(noDash, ':', "", '-');
    ReplaceRemoves(noDash, ':', "", ':');
    ReplaceRemoves(noColon, ' ', "_", '-');
    ReplaceRemoves(noColon, ' ', "_", ':');
    ReplaceRemoves(noColon, ' ', "_", ' ');
    FirstFieldPrefix(underscored, '.');
    var r := FirstField(underscored, '.');
    assert forall d :: d in r ==> d in underscored;
    r
  }

  /** `os.path.join('data_split', name + '_' + suffix + '.pcap')`. */
  function PlannedPath(m: Mark): string {
    JoinPath(OutputDir, m.name + "_" + TimeSuffix(m.end) + ".pcap")
  }

  /** The planned path, or, when that exists already, its text before the first `.` followed by `_1.pcap`. */
  function OutputPath(m: Mark, existing: set<string>): (r: string)
    ensures r == PlannedPath(m) <==> PlannedPath(m) !in existing
  {
    var p := PlannedPath(m);
    if p in existing then
      var stem := FirstField(p, '.');
      FirstFieldPrefix(p, '.');
      assert (stem + "_1.pcap")[|stem|] == '_';
      stem + "_1.pcap"
    else p
  }

  /** The pair the generator yields for mark `m` while `existing` is on disk. */
  function MarkRequest(m: Mark, existing: set<string>): (r: Request)
    ensures r.query == Query(m.start, m.end)
    ensures r.path == OutputPath(m, existing)
  {
    Request(Query(m.start, m.end), OutputPath(m, existing))
  }

  lemma DigitsHaveNoSeparator(s: string)
    requires AllDigits(s)
    ensures '-' !in s && ':' !in s && ' ' !in s && '.' !in s
  {
  }

  /**
   * On an end time written as `%Y-%m-%d %H:%M:%S.%f`, the mark stamp is the
   * `%Y%m%d_%H%M%S` stamp the automatic strategy prints.
   */
  lemma TimeSuffixOfFormatted(t: Timestamp)
    ensures TimeSuffix(FormatFull(t)) == FormatCompact(t)
  {
    var Y, M, D := Pad(t.year, 4), Pad(t.month, 2), Pad(t.day, 2);
    var H, Mi, S, U := Pad(t.hour, 2), Pad(t.minute, 2), Pad(t.second, 2), Pad(t.micro, 6);
    PadShape(t.year, 4); PadShape(t.month, 2); PadShape(t.day, 2); PadShape(t.hour, 2);
    PadShape(t.minute, 2); PadShape(t.second, 2); PadShape(t.micro, 6);
    DigitsHaveNoSeparator(Y); DigitsHaveNoSeparator(M); DigitsHaveNoSeparator(D);
    DigitsHaveNoSeparator(H); DigitsHaveNoSeparator(Mi); DigitsHaveNoSeparator(S);
    DigitsHaveNoSeparator(U);
    var Q := S + ("." + U);
    var R := D + (" " + (H + (":" + (Mi + (":" + Q)))));
    DashFree(D, H, Mi, S, U);
    TwoRemoved(Y, M, R, '-');
    TwoRemovedDeep(Y, M, D, " ", H, Mi, Q, ':');
    OneReplacedDeep(Y, M, D, H + (Mi + Q), ' ', "_");
    FirstFieldDeep(Y, M, D, "_", H, Mi, S, U, '.');
  }

  lemma DashFree(D: string, H: string, Mi: string, S: string, U: string)
    requires '-' !in D && '-' !in H && '-' !in Mi && '-' !in S && '-' !in U
    ensures '-' !in D + (" " + (H + (":" + (Mi + (":" + (S + ("." + U)))))))
  {
  }

  lemma PlannedPathParts(m: Mark)
    requires !StartsWith(m.name, "/")
    ensures PlannedPath(m) == "data_split/" + m.name + "_" + TimeSuffix(m.end) + ".pcap"
  {
    var b := m.name + "_" + TimeSuffix(m.end) + ".pcap";
    assert !StartsWith(b, "/") by {
      if m.name == [] { assert b[0] == '_'; } else { assert b[0] == m.name[0]; }
    }
  }

  /**
   * For a dot-free name the output is `data_split/<name>_<stamp>.pcap`, and
   * when that exists `data_split/<name>_<stamp>_1.pcap`: one disambiguator
   * inserted before the extension, never a second one.
   */
  lemma OutputPathShape(m: Mark, existing: set<string>)
    requires '.' !in m.name && !StartsWith(m.name, "/")
    ensures var stem := "data_split/" + m.name + "_" + TimeSuffix(m.end);
      OutputPath(m, existing) == if stem + ".pcap" in existing then stem + "_1.pcap" else stem + ".pcap"
  {
    var stem := "data_split/" + m.name + "_" + TimeSuffix(m.end);
    PlannedPathParts(m);
    StemHasNoDot(m.name, TimeSuffix(m.end));
    CutAtExtension(stem);
  }

  lemma StemHasNoDot(name: string, suffix: string)
    requires '.' !in name && '.' !in suffix
    ensures '.' !in "data_split/" + name + "_" + suffix
  {
  }

  /** A dot-free stem is what comes before the first `.` of `stem.pcap`. */
  lemma CutAtExtension(stem: string)
    requires '.' !in stem
    ensures FirstField(stem + ".pcap", '.') == stem
  {
    assert stem + ".pcap" == stem + ['.'] + "pcap";
    FirstFieldBefore(stem, "pcap", '.');
  }

  /**
   * For a name holding a `.`, the renamed path keeps only the name's text
   * before its first dot: the rest of the name and the time stamp are lost.
   */
  lemma DottedNameRename(m: Mark, existing: set<string>)
    requires '.' in m.name && !StartsWith(m.name, "/")
    requires PlannedPath(m) in existing
    ensures OutputPath(m, existing) == "data_split/" + FirstField(m.name, '.') + "_1.pcap"
  {
    PlannedPathParts(m);
    var tail := "_" + TimeSuffix(m.end) + ".pcap";
    assert PlannedPath(m) == "data_split/" + (m.name + tail);
    CutInName(m.name, tail);
  }

  /** The first `.` of `data_split/<name><tail>` lies in a dotted name. */
  lemma CutInName(name: string, tail: string)
    requires '.' in name
    ensures FirstField("data_split/" + (name + tail), '.') == "data_split/" + FirstField(name, '.')
  {
    FirstFieldKeep("data_split/", name + tail, '.');
    FirstFieldExtend(name, tail, '.');
  }
}
