/**
 * The automatic strategy (`AutoSplitter.split_intervals`): a capture is cut
 * wherever two consecutive packets are more than two seconds apart, and
 * every piece between consecutive boundaries becomes one segment labelled
 * `random`.
 */
module AutoSplit {
  import opened Base
  import opened Text
  import opened PosixPath
  import opened Clock
  import opened Extraction

  /** `(b - a).total_seconds() > 2` for two sniff times given in microseconds. */
  predicate Gap(a: int, b: int) {
    b - a > 2000000
  }

  /** The sniff times of a capture in microseconds. */
  function Times(p: seq<Timestamp>): (m: seq<int>)
    ensures |m| == |p|
  {
    if p == [] then [] else Times(p[..|p| - 1]) + [Micros(p[|p| - 1])]
  }

  lemma {:induction false} TimesAt(p: seq<Timestamp>, i: nat)
    requires i < |p|
    ensures Times(p)[i] == Micros(p[i])
  {
    if i < |p| - 1 {
      TimesAt(p[..|p| - 1], i);
    }
  }

  lemma {:induction false} TimesPrefix(p: seq<Timestamp>, k: nat)
    requires k <= |p|
    ensures Times(p[..k]) == Times(p)[..k]
  {
    if k < |p| {
      var q := p[..|p| - 1];
      assert q[..k] == p[..k];
      TimesPrefix(q, k);
    } else {
      assert p[..k] == p;
    }
  }

  /** The positions `i` whose packet follows a gap, in increasing order, for sniff times `m`. */
  function GapIndices(m: seq<int>): (g: seq<nat>)
    ensures forall j :: 0 <= j < |g| ==> 0 < g[j] < |m| && Gap(m[g[j] - 1], m[g[j]])
    ensures forall j, k :: 0 <= j < k < |g| ==> g[j] < g[k]
    ensures forall i :: 0 < i < |m| && Gap(m[i - 1], m[i]) ==> i in g
  {
    if |m| < 2 then []
    else
      var g0 := GapIndices(m[..|m| - 1]);
      GapsOfPrefix(m, g0);
      GapsExtend(m, g0);
      g0 + if Gap(m[|m| - 2], m[|m| - 1]) then [|m| - 1] else []
  }

  /** The gap positions of all but the last time, read against all the times. */
  lemma GapsOfPrefix(m: seq<int>, g0: seq<nat>)
    requires |m| >= 2
    requires var q := m[..|m| - 1];
      forall j :: 0 <= j < |g0| ==> 0 < g0[j] < |q| && Gap(q[g0[j] - 1], q[g0[j]])
    requires var q := m[..|m| - 1];
      forall i :: 0 < i < |q| && Gap(q[i - 1], q[i]) ==> i in g0
    ensures forall j :: 0 <= j < |g0| ==> 0 < g0[j] < |m| - 1 && Gap(m[g0[j] - 1], m[g0[j]])
    ensures forall i :: 0 < i < |m| - 1 && Gap(m[i - 1], m[i]) ==> i in g0
  {
    var q := m[..|m| - 1];
    assert forall i :: 0 <= i < |q| ==> q[i] == m[i];
  }

  /** Appending the last position when the last two times are a gap apart. */
  lemma GapsExtend(m: seq<int>, g0: seq<nat>)
    requires |m| >= 2
    requires forall j :: 0 <= j < |g0| ==> 0 < g0[j] < |m| - 1 && Gap(m[g0[j] - 1], m[g0[j]])
    requires forall j, k :: 0 <= j < k < |g0| ==> g0[j] < g0[k]
    requires forall i :: 0 < i < |m| - 1 && Gap(m[i - 1], m[i]) ==> i in g0
    ensures var g := g0 + if Gap(m[|m| - 2], m[|m| - 1]) then [|m| - 1] else [];
      forall j :: 0 <= j < |g| ==> 0 < g[j] < |m| && Gap(m[g[j] - 1], m[g[j]])
    ensures var g := g0 + if Gap(m[|m| - 2], m[|m| - 1]) then [|m| - 1] else [];
      forall j, k :: 0 <= j < k < |g| ==> g[j] < g[k]
    ensures var g := g0 + if Gap(m[|m| - 2], m[|m| - 1]) then [|m| - 1] else [];
      forall i :: 0 < i < |m| && Gap(m[i - 1], m[i]) ==> i in g
  {
  }

  /** The packet just before each of the positions `g`. */
  function Before(p: seq<Timestamp>, g: seq<nat>): (s: seq<Timestamp>)
    requires forall j :: 0 <= j < |g| ==> 0 < g[j] <= |p|
    ensures |s| == |g|
  {
    seq(|g|, j requires 0 <= j < |g| => p[g[j] - 1])
  }

  /** The timestamps the packet loop appends after the first one: the packet before each gap. */
  function SplitPoints(p: seq<Timestamp>): (s: seq<Timestamp>)
    ensures |s| == |GapIndices(Times(p))|
  {
    Before(p, GapIndices(Times(p)))
  }

  /** One more packet adds a gap position exactly when it comes after a silence. */
  lemma GapStep(p: seq<Timestamp>, k: nat)
    requires 1 <= k < |p|
    ensures GapIndices(Times(p[..k + 1])) ==
      GapIndices(Times(p[..k])) + (if Micros(p[k]) - Micros(p[k - 1]) > 2000000 then [k] else [])
  {
    var q := p[..k + 1];
    var m := Times(q);
    assert q[..k] == p[..k];
    TimesPrefix(q, k);
    TimesAt(q, k);
    TimesAt(q, k - 1);
  }

  /** Extending the capture and the positions together extends the picked packets. */
  lemma BeforeStep(p: seq<Timestamp>, k: nat, g: seq<nat>, extra: seq<nat>)
    requires 1 <= k < |p|
    requires forall j :: 0 <= j < |g| ==> 0 < g[j] <= k
    requires extra == [] || extra == [k]
    ensures Before(p[..k + 1], g + extra) == Before(p[..k], g) + (if extra == [] then [] else [p[k - 1]])
  {
  }

  /** One more packet adds a split point exactly when it comes after a silence. */
  lemma SplitPointsStep(p: seq<Timestamp>, k: nat)
    requires 1 <= k < |p|
    ensures SplitPoints(p[..k + 1]) ==
      SplitPoints(p[..k]) + (if Micros(p[k]) - Micros(p[k - 1]) > 2000000 then [p[k - 1]] else [])
  {
    GapStep(p, k);
    var g := GapIndices(Times(p[..k]));
    var extra: seq<nat> := if Micros(p[k]) - Micros(p[k - 1]) > 2000000 then [k] else [];
    BeforeStep(p, k, g, extra);
  }

  /** `interval_splits` once the last packet is appended: first packet, split points, last packet. */
  function Boundaries(p: seq<Timestamp>): (b: seq<Timestamp>)
    requires |p| > 0
    ensures |b| == |GapIndices(Times(p))| + 2
  {
    [p[0]] + SplitPoints(p) + [p[|p| - 1]]
  }

  /** One `(interval_start, interval_end)` pair. */
  datatype Interval = Interval(start: Timestamp, end: Timestamp)

  /** Consecutive boundaries paired up: `(b[i], b[i + 1])` for every `i`. */
  function Pairs(b: seq<Timestamp>): (ivs: seq<Interval>)
    requires |b| > 0
    ensures |ivs| == |b| - 1
  {
    seq(|b| - 1, i requires 0 <= i < |b| - 1 => Interval(b[i], b[i + 1]))
  }

  /** The intervals of a non-empty capture. */
  function Intervals(p: seq<Timestamp>): seq<Interval>
    requires |p| > 0
  {
    Pairs(Boundaries(p))
  }

  /** `get_interval_allegiance`: every interval is attributed to the same label. */
  function Allegiance(start: Timestamp, end: Timestamp, marksFile: string): (r: string)
    ensures r == "random"
  {
    "random"
  }

  /** The query and output path yielded for one interval. */
  function AutoRequest(iv: Interval): (r: Request)
    ensures r.query == Query(FormatFull(iv.start), FormatFull(iv.end))
    ensures EndsWith(r.path, ".pcap")
  {
    var name := Allegiance(iv.start, iv.end, "marksfile");
    Request(Query(FormatFull(iv.start), FormatFull(iv.end)),
            JoinPath(OutputDir, name + "_" + FormatCompact(iv.end) + ".pcap"))
  }

  /** The requests for a list of intervals, in order. */
  function Requests(ivs: seq<Interval>): (rs: seq<Request>)
    ensures |rs| == |ivs|
  {
    seq(|ivs|, i requires 0 <= i < |ivs| => AutoRequest(ivs[i]))
  }

  /** Everything the generator yields for a non-empty capture. */
  function AutoRequests(p: seq<Timestamp>): seq<Request>
    requires |p| > 0
  {
    Requests(Intervals(p))
  }

  /** Why the generator can fail: the last packet's name is read while no packet was ever bound. */
  datatype SplitError = CurrentUnbound

  /**
   * The packet loop: `interval_splits` starts with the first packet, gains the
   * packet before every silence, and `current` is left on the last packet
   * (unbound when there is none).
   */
  method PacketLoop(packets: seq<Timestamp>) returns (splits: seq<Timestamp>, current: Option<Timestamp>)
    ensures packets == [] ==> splits == [] && current == None
    ensures packets != [] ==> current == Some(packets[|packets| - 1]) && splits + [current.value] == Boundaries(packets)
  {
    var previous: Option<Timestamp> := None;
    current := None;
    splits := [];
    var k := 0;
    while k < |packets|
      invariant 0 <= k <= |packets|
      invariant k == 0 ==> splits == [] && previous == None && current == None
      invariant k > 0 ==> splits == [packets[0]] + SplitPoints(packets[..k])
      invariant k > 0 ==> previous == Some(packets[k - 1]) && current == previous
    {
      var cur := packets[k];
      if splits == [] {
        splits := splits + [cur];
      }
      if previous.Some? {
        if Micros(cur) - Micros(previous.value) > 2000000 {
          splits := splits + [previous.value];
        }
      }
      if k > 0 {
        SplitPointsStep(packets, k);
      }
      previous := Some(cur);
      current := Some(cur);
      k := k + 1;
    }
    assert packets[..k] == packets;
  }

  /** A position is a gap position exactly when its packet follows a silence of more than two seconds. */
  lemma GapPositions(p: seq<Timestamp>, i: nat)
    requires 0 < i < |p|
    ensures i in GapIndices(Times(p)) <==> Micros(p[i]) - Micros(p[i - 1]) > 2000000
  {
    TimesAt(p, i);
    TimesAt(p, i - 1);
    var g := GapIndices(Times(p));
    if i in g {
      var j :| 0 <= j < |g| && g[j] == i;
    }
  }

  /**
   * `k` silences give `k + 1` intervals that follow each other without a
   * hole: each ends where the next starts, the first starts at the first
   * packet and the last ends at the last packet.
   */
  lemma IntervalsChain(p: seq<Timestamp>)
    requires |p| > 0
    ensures var ivs := Intervals(p);
      |ivs| == |GapIndices(Times(p))| + 1 &&
      ivs[0].start == p[0] && ivs[|ivs| - 1].end == p[|p| - 1] &&
      forall i :: 0 <= i < |ivs| - 1 ==> ivs[i].end == ivs[i + 1].start
  {
    var b := Boundaries(p);
    assert b[0] == p[0] && b[|b| - 1] == p[|p| - 1];
  }

  /** The `j`-th silence ends interval `j` and starts interval `j + 1` at the packet before it. */
  lemma CutAtSilence(p: seq<Timestamp>, j: nat)
    requires |p| > 0
    requires j < |GapIndices(Times(p))|
    ensures var g := GapIndices(Times(p)); var ivs := Intervals(p);
      ivs[j].end == p[g[j] - 1] && ivs[j + 1].start == p[g[j] - 1] &&
      Micros(p[g[j]]) - Micros(p[g[j] - 1]) > 2000000
  {
    var m := Times(p);
    var g := GapIndices(m);
    var k := g[j];
    assert 0 < k < |m| && Gap(m[k - 1], m[k]);
    TimesAt(p, k);
    TimesAt(p, k - 1);
    CutBoundary(p, j);
  }

  /** The boundary after interval `j` is the packet before the `j`-th silence. */
  lemma CutBoundary(p: seq<Timestamp>, j: nat)
    requires |p| > 0
    requires j < |GapIndices(Times(p))|
    ensures var g := GapIndices(Times(p)); var ivs := Intervals(p);
      ivs[j].end == p[g[j] - 1] && ivs[j + 1].start == p[g[j] - 1]
  {
    var g := GapIndices(Times(p));
    var s := SplitPoints(p);
    assert s[j] == p[g[j] - 1];
    MiddleAt(p[0], s, p[|p| - 1], j);
    PairsAt(Boundaries(p), j);
  }

  /** Position `j + 1` of `[x] + s + [y]` is `s[j]`. */
  lemma MiddleAt<T>(x: T, s: seq<T>, y: T, j: nat)
    requires j < |s|
    ensures ([x] + s + [y])[j + 1] == s[j]
  {
  }

  /** Interval `j` ends, and interval `j + 1` starts, at boundary `j + 1`. */
  lemma PairsAt(b: seq<Timestamp>, j: nat)
    requires j + 2 < |b|
    ensures Pairs(b)[j].end == b[j + 1] && Pairs(b)[j + 1].start == b[j + 1]
  {
  }

  /** A single packet gives one interval of length zero. */
  lemma SinglePacket(t: Timestamp)
    ensures Intervals([t]) == [Interval(t, t)]
  {
    assert GapIndices(Times([t])) == [];
  }

  /** Two packets are cut apart exactly when more than two seconds separate them; exactly two seconds do not cut. */
  lemma TwoPackets(a: Timestamp, b: Timestamp)
    ensures Micros(b) - Micros(a) > 2000000 ==> Intervals([a, b]) == [Interval(a, a), Interval(a, b)]
    ensures Micros(b) - Micros(a) <= 2000000 ==> Intervals([a, b]) == [Interval(a, b)]
  {
    var p := [a, b];
    if Micros(b) - Micros(a) > 2000000 {
      TwoApart(p);
    } else {
      TwoClose(p);
    }
  }

  lemma TwoApart(p: seq<Timestamp>)
    requires |p| == 2 && Gap(Micros(p[0]), Micros(p[1]))
    ensures Intervals(p) == [Interval(p[0], p[0]), Interval(p[0], p[1])]
  {
    assert SplitPoints(p) == [p[0]] by {
      assert GapIndices(Times(p)) == [1] by {
        TimesAt(p, 0); TimesAt(p, 1);
        TwoTimes(Times(p));
      }
    }
    assert Boundaries(p) == [p[0], p[0], p[1]];
    PairsOfThree(p[0], p[0], p[1]);
  }

  lemma TwoClose(p: seq<Timestamp>)
    requires |p| == 2 && !Gap(Micros(p[0]), Micros(p[1]))
    ensures Intervals(p) == [Interval(p[0], p[1])]
  {
    assert GapIndices(Times(p)) == [] by {
      TimesAt(p, 0); TimesAt(p, 1);
      TwoTimes(Times(p));
    }
    assert Boundaries(p) == [p[0], p[1]];
    PairsOfTwo(p[0], p[1]);
  }

  lemma PairsOfTwo(x: Timestamp, y: Timestamp)
    ensures Pairs([x, y]) == [Interval(x, y)]
  {
  }

  lemma PairsOfThree(x: Timestamp, y: Timestamp, z: Timestamp)
    ensures Pairs([x, y, z]) == [Interval(x, y), Interval(y, z)]
  {
  }

  lemma TwoTimes(m: seq<int>)
    requires |m| == 2
    ensures GapIndices(m) == if Gap(m[0], m[1]) then [1] else []
  {
    assert GapIndices(m[..1]) == [];
  }

  /**
   * Packets at 0, 1, 1.5, 5, 5.2 and 5.9 seconds: the only silence is the
   * 3.5 seconds before the fourth packet, so the boundaries are 0, 1.5 and
   * 5.9 and the second interval starts at 1.5, not at 5.
   */
  lemma WorkedExample(p: seq<Timestamp>)
    requires |p| == 6
    requires Micros(p[1]) - Micros(p[0]) == 1000000 && Micros(p[2]) - Micros(p[1]) == 500000
    requires Micros(p[3]) - Micros(p[2]) == 3500000 && Micros(p[4]) - Micros(p[3]) == 200000
    requires Micros(p[5]) - Micros(p[4]) == 700000
    ensures Intervals(p) == [Interval(p[0], p[2]), Interval(p[2], p[5])]
  {
    var m := Times(p);
    TimesAt(p, 0); TimesAt(p, 1); TimesAt(p, 2); TimesAt(p, 3); TimesAt(p, 4); TimesAt(p, 5);
    OnlyGap(m, 3);
    assert SplitPoints(p) == [p[2]];
  }

  /** When the time at `k` is the only one after a silence, `k` is the only gap position. */
  lemma OnlyGap(m: seq<int>, k: nat)
    requires 0 < k < |m|
    requires forall i :: 0 < i < |m| ==> (Gap(m[i - 1], m[i]) <==> i == k)
    ensures GapIndices(m) == [k]
  {
    var g := GapIndices(m);
    assert Gap(m[k - 1], m[k]);
    assert k in g;
    assert forall j :: 0 <= j < |g| ==> g[j] == k;
    Spread(g);
  }

  /** A strictly increasing sequence of `n` positions spans at least `n - 1`. */
  lemma {:induction false} Spread(g: seq<nat>)
    requires forall j, k :: 0 <= j < k < |g| ==> g[j] < g[k]
    ensures |g| > 0 ==> g[|g| - 1] - g[0] >= |g| - 1
  {
    if |g| > 1 {
      Spread(g[..|g| - 1]);
    }
  }

  /** The query of an interval brackets its two ends to the microsecond. */
  lemma AutoQueryBrackets(iv: Interval)
    ensures var q := ParseQuery(AutoRequest(iv).query);
      q.Some? && ParseFull(q.value.0).Some? && ParseFull(q.value.0).value == iv.start &&
      ParseFull(q.value.1).Some? && ParseFull(q.value.1).value == iv.end
  {
    FullHasNoQuote(iv.start);
    FullHasNoQuote(iv.end);
    QueryRoundTrip(FormatFull(iv.start), FormatFull(iv.end));
    FullRoundTrip(iv.start);
    FullRoundTrip(iv.end);
  }

  /** Every interval is written to `data_split/random_<end as %Y%m%d_%H%M%S>.pcap`. */
  lemma AutoPathShape(iv: Interval)
    ensures AutoRequest(iv).path == "data_split/random_" + FormatCompact(iv.end) + ".pcap"
  {
    RandomPath(FormatCompact(iv.end));
  }

  lemma RandomPath(stamp: string)
    ensures JoinPath(OutputDir, "random" + "_" + stamp + ".pcap") == "data_split/random_" + stamp + ".pcap"
  {
    var b := "random" + "_" + stamp + ".pcap";
    assert !StartsWith(b, "/") by { assert b[0] == 'r'; }
  }

  /** Two intervals get the same output path exactly when their ends fall in the same second. */
  lemma AutoPathsCollide(a: Interval, b: Interval)
    ensures AutoRequest(a).path == AutoRequest(b).path <==> a.end.(micro := 0) == b.end.(micro := 0)
  {
    var x, y := FormatCompact(a.end), FormatCompact(b.end);
    AutoPathShape(a);
    AutoPathShape(b);
    CompactSameSecond(a.end, b.end);
    CompactLength(a.end);
    CompactLength(b.end);
    var pre := "data_split/random_";
    if pre + x + ".pcap" == pre + y + ".pcap" {
      assert x == (pre + x + ".pcap")[|pre|..|pre| + 15];
      assert y == (pre + y + ".pcap")[|pre|..|pre| + 15];
    }
  }

  /** The sniff times never go down, as in a capture recorded in order. */
  predicate Ascending(p: seq<Timestamp>) {
    forall i, j :: 0 <= i <= j < |p| ==> Micros(p[i]) <= Micros(p[j])
  }

  /** The packet that boundary `k` is: the first, the one before each silence, the last. */
  function BoundaryPos(p: seq<Timestamp>, k: nat): (i: nat)
    requires |p| > 0 && k < |GapIndices(Times(p))| + 2
    ensures i < |p|
  {
    var g := GapIndices(Times(p));
    if k == 0 then 0 else if k <= |g| then g[k - 1] - 1 else |p| - 1
  }

  lemma BoundaryAt(p: seq<Timestamp>, k: nat)
    requires |p| > 0 && k < |GapIndices(Times(p))| + 2
    ensures Boundaries(p)[k] == p[BoundaryPos(p, k)]
  {
    var g := GapIndices(Times(p));
    if 1 <= k <= |g| {
      MiddleAt(p[0], SplitPoints(p), p[|p| - 1], k - 1);
    }
  }

  /** Later boundaries are later packets of the capture. */
  lemma BoundaryPosMono(p: seq<Timestamp>, k: nat, l: nat)
    requires |p| > 0 && k <= l < |GapIndices(Times(p))| + 2
    ensures BoundaryPos(p, k) <= BoundaryPos(p, l)
  {
  }

  /** The packet after an inner boundary comes more than two seconds later, and no later than the next boundary. */
  lemma SilenceAfter(p: seq<Timestamp>, k: nat)
    requires |p| > 0 && 1 <= k <= |GapIndices(Times(p))|
    ensures var g := GapIndices(Times(p));
      g[k - 1] <= BoundaryPos(p, k + 1) &&
      Micros(p[g[k - 1]]) - Micros(p[BoundaryPos(p, k)]) > 2000000
  {
    GapBeforeNext(p, k);
    GapWidth(p, k);
  }

  lemma GapBeforeNext(p: seq<Timestamp>, k: nat)
    requires |p| > 0 && 1 <= k <= |GapIndices(Times(p))|
    ensures GapIndices(Times(p))[k - 1] <= BoundaryPos(p, k + 1)
  {
    var g := GapIndices(Times(p));
    if k < |g| {
      assert g[k - 1] < g[k];
    }
  }

  lemma GapWidth(p: seq<Timestamp>, k: nat)
    requires |p| > 0 && 1 <= k <= |GapIndices(Times(p))|
    ensures var i := GapIndices(Times(p))[k - 1];
      Micros(p[i]) - Micros(p[i - 1]) > 2000000
  {
    var m := Times(p);
    var i := GapIndices(m)[k - 1];
    assert Gap(m[i - 1], m[i]);
    TimesAt(p, i);
    TimesAt(p, i - 1);
  }

  /** In an ordered capture the boundaries never go down. */
  lemma BoundariesAscending(p: seq<Timestamp>, k: nat, l: nat)
    requires |p| > 0 && Ascending(p) && k <= l < |Boundaries(p)|
    ensures Micros(Boundaries(p)[k]) <= Micros(Boundaries(p)[l])
  {
    BoundaryAt(p, k);
    BoundaryAt(p, l);
    BoundaryPosMono(p, k, l);
  }

  /** In an ordered capture the boundaries after the first are more than two seconds apart. */
  lemma BoundariesApart(p: seq<Timestamp>, k: nat, l: nat)
    requires |p| > 0 && Ascending(p) && 1 <= k < l < |Boundaries(p)|
    ensures Micros(Boundaries(p)[l]) - Micros(Boundaries(p)[k]) > 2000000
  {
    var g := GapIndices(Times(p));
    SilenceAfter(p, k);
    BoundaryAt(p, k);
    BoundaryAt(p, l);
    BoundaryPosMono(p, k + 1, l);
    assert Micros(p[g[k - 1]]) <= Micros(p[BoundaryPos(p, l)]);
  }

  /** In an ordered capture no interval ends before it starts. */
  lemma IntervalsOrdered(p: seq<Timestamp>)
    requires |p| > 0 && Ascending(p)
    ensures var ivs := Intervals(p);
      forall i :: 0 <= i < |ivs| ==> Micros(ivs[i].start) <= Micros(ivs[i].end)
  {
    var b := Boundaries(p);
    forall i | 0 <= i < |b| - 1
      ensures Micros(Pairs(b)[i].start) <= Micros(Pairs(b)[i].end)
    {
      BoundariesAscending(p, i, i + 1);
    }
  }

  /** In an ordered capture every interval is written to its own file. */
  lemma AutoPathsDistinct(p: seq<Timestamp>)
    requires |p| > 0 && Ascending(p)
    ensures var ivs := Intervals(p);
      forall i, j :: 0 <= i < j < |ivs| ==> AutoRequest(ivs[i]).path != AutoRequest(ivs[j]).path
  {
    var b := Boundaries(p);
    BoundariesSpread(p);
    forall i, j | 0 <= i < j < |b| - 1
      ensures AutoRequest(Pairs(b)[i]).path != AutoRequest(Pairs(b)[j]).path
    {
      EndsApart(b, i, j);
      FarEndsPaths(Pairs(b)[i], Pairs(b)[j]);
    }
  }

  /** In an ordered capture all boundaries after the first are more than two seconds apart. */
  lemma BoundariesSpread(p: seq<Timestamp>)
    requires |p| > 0 && Ascending(p)
    ensures var b := Boundaries(p);
      forall k, l :: 1 <= k < l < |b| ==> Micros(b[l]) - Micros(b[k]) > 2000000
  {
    forall k, l | 1 <= k < l < |Boundaries(p)|
      ensures Micros(Boundaries(p)[l]) - Micros(Boundaries(p)[k]) > 2000000
    {
      BoundariesApart(p, k, l);
    }
  }

  /** When the boundaries after the first are spread out, so are the ends of the intervals. */
  lemma EndsApart(b: seq<Timestamp>, i: nat, j: nat)
    requires i < j && j + 1 < |b|
    requires forall k, l :: 1 <= k < l < |b| ==> Micros(b[l]) - Micros(b[k]) > 2000000
    ensures Micros(Pairs(b)[j].end) - Micros(Pairs(b)[i].end) > 2000000
  {
    PairEnd(b, i);
    PairEnd(b, j);
  }

  /** Ends more than two seconds apart fall in different seconds, so their paths differ. */
  lemma FarEndsPaths(x: Interval, y: Interval)
    requires Micros(y.end) - Micros(x.end) > 2000000
    ensures AutoRequest(x).path != AutoRequest(y).path
  {
    AutoPathsCollide(x, y);
    if x.end.(micro := 0) == y.end.(micro := 0) {
      SameSecondClose(x.end, y.end);
    }
  }

  /** Interval `i` of the pairing ends at boundary `i + 1`. */
  lemma PairEnd(b: seq<Timestamp>, i: nat)
    requires i + 1 < |b|
    ensures Pairs(b)[i].end == b[i + 1]
  {
  }

  /** Out of order, two packets less than two seconds apart give an interval that ends before it starts. */
  lemma OutOfOrderPackets(a: Timestamp, b: Timestamp)
    requires Micros(b) < Micros(a)
    ensures Intervals([a, b]) == [Interval(a, b)]
    ensures Micros(Intervals([a, b])[0].end) < Micros(Intervals([a, b])[0].start)
  {
    TwoPackets(a, b);
  }

  /** The index loop: `intervals` gets one pair per consecutive boundaries. */
  method PairUp(splits: seq<Timestamp>) returns (intervals: seq<Interval>)
    requires |splits| > 0
    ensures intervals == Pairs(splits)
  {
    intervals := [];
    var index := 0;
    while index < |splits| - 1
      invariant 0 <= index <= |splits| - 1
      invariant intervals == Pairs(splits)[..index]
    {
      intervals := intervals + [Interval(splits[index], splits[index + 1])];
      index := index + 1;
    }
  }

  /** The yielding loop: one request per interval, in order. */
  method YieldAll(intervals: seq<Interval>) returns (requests: seq<Request>)
    ensures requests == Requests(intervals)
  {
    requests := [];
    var n := 0;
    while n < |intervals|
      invariant 0 <= n <= |intervals|
      invariant requests == Requests(intervals[..n])
    {
      RequestsNext(intervals, n);
      requests := requests + [AutoRequest(intervals[n])];
      n := n + 1;
    }
    assert intervals[..n] == intervals;
  }

  lemma RequestsNext(ivs: seq<Interval>, n: nat)
    requires n < |ivs|
    ensures Requests(ivs[..n + 1]) == Requests(ivs[..n]) + [AutoRequest(ivs[n])]
  {
  }

  /**
   * The generator run to completion on the timestamps of the filtered
   * capture. With no packet, line 157 reads the unbound `current` and the
   * generator raises before yielding anything.
   */
  method SplitIntervals(packets: seq<Timestamp>) returns (r: Result<seq<Request>, SplitError>)
    ensures packets == [] ==> r == Failure(CurrentUnbound)
    ensures packets != [] ==> r == Success(AutoRequests(packets))
  {
    var splits, current := PacketLoop(packets);
    if current == None {
      return Failure(CurrentUnbound);
    }
    splits := splits + [current.value];
    var intervals := PairUp(splits);
    var requests := YieldAll(intervals);
    return Success(requests);
  }
}
