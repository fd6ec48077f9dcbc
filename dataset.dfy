/**
 * The dataset builder (`dataset.py`): which captures of a directory are
 * processed (size filter, then a window of at most 100 selected by `--part`),
 * the first pass and the retry rounds over the feature extractor, the output
 * file name and whether the CSV is overwritten with a header or appended to.
 */
module Dataset {
  import opened Base
  import opened PosixPath
  import opened Text

  /**
   * One call of `Flow(path)`: it raises, or it yields features and whether its
   * data frame is empty. `hasMessage` says whether the exception raised has a
   * `message` attribute, which the first pass's handler reads.
   */
  datatype FlowResult = Raised(hasMessage: bool) | Parsed(features: Features, empty: bool)

  /**
   * The extractor, as an oracle indexed by the attempt: round 0 is the first
   * pass and round r >= 1 the r-th retry (its errors are not deterministic).
   */
  type Attempt = (string, nat) -> FlowResult

  /** The command line: a present option with a non-empty value, parsed as an integer where the source does. */
  datatype Arguments = Arguments(directory: string, outfile: Option<string>, part: Option<int>, maxSize: Option<int>)

  function Max(a: int, b: int): int { if a < b then b else a }
  function Min(a: int, b: int): int { if a < b then a else b }

  /** Python's normalisation of a slice bound against a length. */
  function Clamp(i: int, n: nat): (r: nat)
    ensures r <= n
    ensures 0 <= i <= n ==> r == i
    ensures i < 0 ==> r == Max(i + n, 0)
    ensures i > n ==> r == n
  {
    if i < 0 then (if i + n < 0 then 0 else i + n) else if i > n then n else i
  }

  /** `s[a:b]` with Python's negative and out-of-range bounds. */
  function Slice<T>(s: seq<T>, a: int, b: int): seq<T> {
    var i, j := Clamp(a, |s|), Clamp(b, |s|);
    if i < j then s[i..j] else []
  }

  /** Lexicographic order on code points, the order of `sorted` on strings. */
  predicate Below(a: string, b: string) {
    a == [] || (b != [] && (a[0] < b[0] || (a[0] == b[0] && Below(a[1..], b[1..]))))
  }

  predicate Sorted(paths: seq<string>) {
    forall i, j :: 0 <= i < j < |paths| ==> Below(paths[i], paths[j])
  }

  /** `filter(lambda p: os.path.getsize(p) < limit, paths)`. */
  function KeepSmall(paths: seq<string>, size: string -> nat, limit: int): (r: seq<string>)
    ensures |r| <= |paths|
  {
    if paths == [] then []
    else
      var last := paths[|paths| - 1];
      KeepSmall(paths[..|paths| - 1], size, limit) + (if size(last) < limit then [last] else [])
  }

  /** `--max-size` is in megabytes: the limit is `size * 1024 ** 2` bytes. */
  function SizeFiltered(paths: seq<string>, size: string -> nat, maxSize: Option<int>): seq<string> {
    match maxSize
    case None => paths
    case Some(mb) => KeepSmall(paths, size, mb * 1048576)
  }

  /** The filter keeps exactly the paths strictly smaller than the limit. */
  lemma {:induction false} KeepSmallMembers(paths: seq<string>, size: string -> nat, limit: int, p: string)
    ensures p in KeepSmall(paths, size, limit) <==> p in paths && size(p) < limit
  {
    if paths != [] {
      var front := paths[..|paths| - 1];
      KeepSmallMembers(front, size, limit, p);
      assert paths == front + [paths[|paths| - 1]];
    }
  }

  /** The filter keeps the sorted order of the listing. */
  lemma {:induction false} KeepSmallSorted(paths: seq<string>, size: string -> nat, limit: int)
    requires Sorted(paths)
    ensures Sorted(KeepSmall(paths, size, limit))
  {
    if paths != [] {
      var front := paths[..|paths| - 1];
      var last := paths[|paths| - 1];
      KeepSmallSorted(front, size, limit);
      var kept := KeepSmall(front, size, limit);
      forall i | 0 <= i < |kept|
        ensures Below(kept[i], last)
      {
        KeepSmallMembers(front, size, limit, kept[i]);
        var k :| 0 <= k < |front| && front[k] == kept[i];
        assert paths[k] == front[k];
      }
    }
  }

  /** A limit of zero megabytes keeps nothing: the option's text `0` is truthy. */
  lemma ZeroMaxSize(paths: seq<string>, size: string -> nat)
    ensures SizeFiltered(paths, size, Some(0)) == []
  {
    if KeepSmall(paths, size, 0) != [] {
      var p := KeepSmall(paths, size, 0)[0];
      KeepSmallMembers(paths, size, 0, p);
    }
  }

  /** The half-open window `[start:end]` of the listing. */
  datatype Range = Range(start: nat, end: int)

  /** Part n covers `max(100n - 100, 0)` to `min(100n, count)`; without a part, the whole listing. */
  function Window(part: Option<int>, count: nat): (r: Range)
    ensures part.None? ==> r == Range(0, count)
    ensures r.end <= count
    ensures part.Some? ==> r.end - r.start <= 100
  {
    match part
    case None => Range(0, count)
    case Some(n) => Range(Max(n * 100 - 100, 0), Min(n * 100, count))
  }

  /** The files `main` processes, in order. */
  function Selected(paths: seq<string>, part: Option<int>): (r: seq<string>)
    ensures part.None? ==> r == paths
    ensures |r| <= |paths|
    ensures part.Some? && part.value >= 0 ==> |r| <= 100
  {
    var w := Window(part, |paths|);
    Slice(paths, w.start, w.end)
  }

  /** Without a part every file is processed. */
  lemma NoPart(paths: seq<string>)
    ensures Selected(paths, None) == paths
  {
  }

  /**
   * Part n >= 0 is the n-th block of 100 files of the listing, cut short at
   * its end, and empty once it starts past the end; no non-negative part
   * selects more than 100 files.
   */
  lemma PartWindow(paths: seq<string>, n: int)
    requires n >= 0
    ensures var lo := Min(Max(n * 100 - 100, 0), |paths|); var hi := Min(n * 100, |paths|);
      Selected(paths, Some(n)) == if lo < hi then paths[lo..hi] else []
    ensures |Selected(paths, Some(n))| <= 100
  {
  }

  /** Part 0 selects nothing. */
  lemma PartZero(paths: seq<string>)
    ensures Selected(paths, Some(0)) == []
  {
  }

  /** A negative part starts at 0 and ends 100|n| files before the end of the listing. */
  lemma NegativePart(paths: seq<string>, n: int)
    requires n < 0
    ensures Selected(paths, Some(n)) == paths[..Max(|paths| + n * 100, 0)]
  {
  }

  /** Parts 1 to k, run one after the other. */
  function Parts(paths: seq<string>, k: nat): seq<string> {
    if k == 0 then [] else Parts(paths, k - 1) + Selected(paths, Some(k))
  }

  /** Parts 1 to k tile the first `min(100k, count)` files: no file twice, none skipped. */
  lemma {:induction false} PartsTile(paths: seq<string>, k: nat)
    ensures Parts(paths, k) == paths[..Min(k * 100, |paths|)]
  {
    if k > 0 {
      PartsTile(paths, k - 1);
      var lo := Min((k - 1) * 100, |paths|);
      var hi := Min(k * 100, |paths|);
      assert Selected(paths, Some(k)) == if lo < hi then paths[lo..hi] else [] by {
        PartWindow(paths, k);
        assert Max(k * 100 - 100, 0) == (k - 1) * 100;
      }
      if lo < hi {
        assert paths[..lo] + paths[lo..hi] == paths[..hi];
      }
    }
  }

  /** For 100n <= count, part n ends where part n + 1 starts. */
  lemma PartsAdjacent(n: int, count: nat)
    requires n >= 1 && n * 100 <= count
    ensures Window(Some(n), count).end == Window(Some(n + 1), count).start
  {
  }

  /**
   * The `counter`-th processed file is the file at 1-based position
   * `start + counter + 1` of the listing, the progress index `main` prints.
   */
  lemma ProgressIndex(paths: seq<string>, part: Option<int>, counter: nat)
    requires counter < |Selected(paths, part)|
    ensures var i := Window(part, |paths|).start + counter + 1;
      1 <= i <= |paths| && Selected(paths, part)[counter] == paths[i - 1]
  {
  }

  /** The features the first pass keeps: those of flows that parsed with non-empty data. */
  function Kept(window: seq<string>, flow: Attempt): (r: seq<Features>)
    ensures |r| <= |window|
  {
    if window == [] then []
    else
      var f := flow(window[|window| - 1], 0);
      Kept(window[..|window| - 1], flow) + (if f.Parsed? && !f.empty then [f.features] else [])
  }

  /**
   * The `(path_index, path)` pairs the first pass records: the handler logs
   * `exp.message` first, so only an exception with a `message` gets recorded.
   */
  function Failures(window: seq<string>, start: nat, flow: Attempt): (r: seq<(int, string)>)
    ensures |r| <= |window|
    ensures forall k :: 0 <= k < |r| ==> start < r[k].0 <= start + |window|
  {
    if window == [] then []
    else
      var last := window[|window| - 1];
      Failures(window[..|window| - 1], start, flow) +
        (if flow(last, 0) == Raised(true) then [(start + |window|, last)] else [])
  }

  /** The flows of the first pass that parsed with an empty data frame. */
  function CountEmpty(window: seq<string>, flow: Attempt): nat {
    if window == [] then 0
    else
      var f := flow(window[|window| - 1], 0);
      CountEmpty(window[..|window| - 1], flow) + (if f.Parsed? && f.empty then 1 else 0)
  }

  /** A failure is recorded, with its progress index, exactly when the file's first attempt raised an exception with a `message`. */
  lemma {:induction false} FailuresExact(window: seq<string>, start: nat, flow: Attempt, i: int, p: string)
    ensures (i, p) in Failures(window, start, flow) <==>
      exists c :: 0 <= c < |window| && i == start + c + 1 && p == window[c] && flow(window[c], 0) == Raised(true)
  {
    if window != [] {
      var front := window[..|window| - 1];
      FailuresExact(front, start, flow, i, p);
      if exists c :: 0 <= c < |window| && i == start + c + 1 && p == window[c] && flow(window[c], 0) == Raised(true) {
        var c :| 0 <= c < |window| && i == start + c + 1 && p == window[c] && flow(window[c], 0) == Raised(true);
        if c < |front| {
          assert front[c] == window[c];
        }
      }
      if exists c :: 0 <= c < |front| && i == start + c + 1 && p == front[c] && flow(front[c], 0) == Raised(true) {
        var c :| 0 <= c < |front| && i == start + c + 1 && p == front[c] && flow(front[c], 0) == Raised(true);
        assert window[c] == front[c];
      }
    }
  }

  /**
   * The position of the first file whose first attempt raises an exception
   * without a `message`: reading `exp.message` in the handler raises
   * `AttributeError` there, which ends `main`.
   */
  function FirstAbort(window: seq<string>, flow: Attempt): (r: Option<nat>)
    ensures r.Some? ==> r.value < |window|
  {
    if window == [] then None
    else
      var a := FirstAbort(window[..|window| - 1], flow);
      if a.Some? then a
      else if flow(window[|window| - 1], 0) == Raised(false) then Some(|window| - 1)
      else None
  }

  /**
   * The first pass stops at the first attempt that raises without a `message`;
   * it runs to the end exactly when there is none.
   */
  lemma {:induction false} FirstAbortExact(window: seq<string>, flow: Attempt)
    ensures FirstAbort(window, flow).None? <==> forall c :: 0 <= c < |window| ==> flow(window[c], 0) != Raised(false)
    ensures FirstAbort(window, flow).Some? ==>
      var c := FirstAbort(window, flow).value;
      flow(window[c], 0) == Raised(false) && forall j :: 0 <= j < c ==> flow(window[j], 0) != Raised(false)
  {
    if window != [] {
      var front := window[..|window| - 1];
      FirstAbortExact(front, flow);
      forall i | 0 <= i < |front|
        ensures window[i] == front[i]
      {
      }
    }
  }

  /** Once a prefix of the window has stopped, the whole window stops at the same file. */
  lemma {:induction false} FirstAbortExtend(window: seq<string>, k: nat, flow: Attempt)
    requires k <= |window| && FirstAbort(window[..k], flow).Some?
    ensures FirstAbort(window, flow) == FirstAbort(window[..k], flow)
    decreases |window| - k
  {
    if k < |window| {
      var front := window[..|window| - 1];
      assert front[..k] == window[..k];
      FirstAbortExtend(front, k, flow);
    } else {
      assert window[..k] == window;
    }
  }

  /**
   * When the first pass runs to the end, every file is kept, recorded as
   * failed, or dropped for empty data; when it stops, some file is none of these.
   */
  lemma {:induction false} FirstPassPartition(window: seq<string>, start: nat, flow: Attempt)
    ensures FirstAbort(window, flow).None? ==>
      |Kept(window, flow)| + |Failures(window, start, flow)| + CountEmpty(window, flow) == |window|
    ensures FirstAbort(window, flow).Some? ==>
      |Kept(window, flow)| + |Failures(window, start, flow)| + CountEmpty(window, flow) < |window|
  {
    if window != [] {
      FirstPassPartition(window[..|window| - 1], start, flow);
    }
  }

  /** What one retry round appends: every retried flow that did not raise, empty or not. */
  function Recovered(failed: seq<(int, string)>, round: nat, flow: Attempt): (r: seq<Features>)
    ensures |r| <= |failed|
  {
    if failed == [] then []
    else
      var f := flow(failed[|failed| - 1].1, round);
      Recovered(failed[..|failed| - 1], round, flow) + (if f.Parsed? then [f.features] else [])
  }

  /** `failed_again`: the entries whose retry raised, in order. */
  function StillFailing(failed: seq<(int, string)>, round: nat, flow: Attempt): (r: seq<(int, string)>)
    ensures |r| <= |failed|
  {
    if failed == [] then []
    else
      var last := failed[|failed| - 1];
      StillFailing(failed[..|failed| - 1], round, flow) + (if flow(last.1, round).Raised? then [last] else [])
  }

  /** A retry round accounts for every entry once: it either appends its features or keeps it failing. */
  lemma {:induction false} RoundPartition(failed: seq<(int, string)>, round: nat, flow: Attempt)
    ensures |Recovered(failed, round, flow)| + |StillFailing(failed, round, flow)| == |failed|
  {
    if failed != [] {
      RoundPartition(failed[..|failed| - 1], round, flow);
    }
  }

  /** An entry stays in `failed` exactly when its retry raised. */
  lemma {:induction false} StillFailingExact(failed: seq<(int, string)>, round: nat, flow: Attempt, e: (int, string))
    ensures e in StillFailing(failed, round, flow) <==> e in failed && flow(e.1, round).Raised?
  {
    if failed != [] {
      var front := failed[..|failed| - 1];
      StillFailingExact(front, round, flow, e);
      assert failed == front + [failed[|failed| - 1]];
    }
  }

  /** Attempt `round` of the extractor on `path` raises. */
  predicate Raises(flow: Attempt, path: string, round: nat) {
    flow(path, round).Raised?
  }

  /**
   * Every pending entry has a retry that does not raise at some round from
   * `round` up to, but not including, `settle`. Raising at other rounds,
   * however late, is allowed: a file leaves `failed` at its first good retry.
   */
  ghost predicate RecoversBefore(pending: seq<(int, string)>, round: nat, flow: Attempt, settle: nat) {
    forall e :: e in pending ==> exists r: nat :: round <= r < settle && !Raises(flow, e.1, r)
  }

  /** An entry still pending at round `settle` would have no good retry left, so none is. */
  lemma PendingBefore(pending: seq<(int, string)>, round: nat, flow: Attempt, settle: nat)
    requires RecoversBefore(pending, round, flow, settle)
    ensures round >= settle ==> pending == []
  {
    if pending != [] {
      var e := pending[0];
      assert e in pending;
      var r: nat :| round <= r < settle && !Raises(flow, e.1, r);
    }
  }

  /** The entries a round keeps raised at that round, so their good retry is still ahead. */
  lemma {:induction false} RecoversAfterRound(pending: seq<(int, string)>, round: nat, flow: Attempt, settle: nat)
    requires RecoversBefore(pending, round, flow, settle)
    ensures RecoversBefore(StillFailing(pending, round, flow), round + 1, flow, settle)
  {
    forall e | e in StillFailing(pending, round, flow)
      ensures exists r: nat :: round + 1 <= r < settle && !Raises(flow, e.1, r)
    {
      StillFailingExact(pending, round, flow, e);
      var r: nat :| round <= r < settle && !Raises(flow, e.1, r);
      assert r != round;
    }
  }

  /** The termination measure of the retry loop: the rounds left before every file has had its good retry. */
  function RoundsLeft(round: nat, settle: nat): nat {
    if round < settle then settle - round else 0
  }

  /** The features the `while failed` loop appends, from retry round `round` on. */
  ghost function RetryAll(failed: seq<(int, string)>, round: nat, flow: Attempt, settle: nat): seq<Features>
    requires RecoversBefore(failed, round, flow, settle)
    decreases RoundsLeft(round, settle)
  {
    if failed == [] then []
    else
      PendingBefore(failed, round, flow, settle);
      RecoversAfterRound(failed, round, flow, settle);
      Recovered(failed, round, flow) + RetryAll(StillFailing(failed, round, flow), round + 1, flow, settle)
  }

  /** One round of the retry loop, seen from the features collected so far. */
  lemma RetryUnfold(done: seq<Features>, failed: seq<(int, string)>, round: nat, flow: Attempt, settle: nat)
    requires RecoversBefore(failed, round, flow, settle) && failed != []
    requires RecoversBefore(StillFailing(failed, round, flow), round + 1, flow, settle)
    ensures done + RetryAll(failed, round, flow, settle) ==
      (done + Recovered(failed, round, flow)) + RetryAll(StillFailing(failed, round, flow), round + 1, flow, settle)
  {
    var rest := RetryAll(StillFailing(failed, round, flow), round + 1, flow, settle);
    assert RetryAll(failed, round, flow, settle) == Recovered(failed, round, flow) + rest;
  }

  /** Every file that failed the first pass contributes exactly one record in the end, even with empty data. */
  lemma {:induction false} RetryAllOnePerFailure(failed: seq<(int, string)>, round: nat, flow: Attempt, settle: nat)
    requires RecoversBefore(failed, round, flow, settle)
    ensures |RetryAll(failed, round, flow, settle)| == |failed|
    decreases RoundsLeft(round, settle)
  {
    if failed != [] {
      PendingBefore(failed, round, flow, settle);
      RecoversAfterRound(failed, round, flow, settle);
      RoundPartition(failed, round, flow);
      RetryAllOnePerFailure(StillFailing(failed, round, flow), round + 1, flow, settle);
    }
  }

  /** A file recorded by the first pass has a good retry when every file whose first attempt raised has one. */
  lemma FailuresRecover(window: seq<string>, start: nat, flow: Attempt, settle: nat)
    requires forall c :: 0 <= c < |window| && flow(window[c], 0) == Raised(true) ==>
      exists r: nat :: 1 <= r < settle && !Raises(flow, window[c], r)
    ensures RecoversBefore(Failures(window, start, flow), 1, flow, settle)
  {
    forall e | e in Failures(window, start, flow)
      ensures exists r: nat :: 1 <= r < settle && !Raises(flow, e.1, r)
    {
      FailuresExact(window, start, flow, e.0, e.1);
    }
  }

  /** An extractor whose errors never stop: every odd attempt raises, every even one parses. */
  function Intermittent(path: string, attempt: nat): FlowResult {
    if attempt % 2 == 1 then Raised(true) else Parsed(map[], false)
  }

  /**
   * Errors that come and go forever still let the retry loop finish: each
   * failed file recovers at round 2, and each contributes one row.
   */
  lemma IntermittentRecovers(failed: seq<(int, string)>, path: string, k: nat)
    ensures Raises(Intermittent, path, 2 * k + 1)
    ensures RecoversBefore(failed, 1, Intermittent, 3)
    ensures |RetryAll(failed, 1, Intermittent, 3)| == |failed|
  {
    forall e | e in failed
      ensures exists r: nat :: 1 <= r < 3 && !Raises(Intermittent, e.1, r)
    {
      assert !Raises(Intermittent, e.1, 2);
    }
    RetryAllOnePerFailure(failed, 1, Intermittent, 3);
  }

  /** `arguments['--outfile'] or '<directory name>.csv'`, the directory name taken past trailing slashes. */
  function OutputFilename(directory: string, outfile: Option<string>): (r: string)
    ensures outfile.Some? && outfile.value != "" ==> r == outfile.value
    ensures outfile.None? || outfile.value == "" ==> EndsWith(r, ".csv")
  {
    if outfile.Some? && outfile.value != "" then outfile.value
    else
      var name := Basename(directory);
      (if name != "" then name else Basename(Dirname(directory))) + ".csv"
  }

  /** A non-empty `--outfile` wins. */
  lemma OutfileWins(directory: string, name: string)
    requires name != ""
    ensures OutputFilename(directory, Some(name)) == name
  {
  }

  /** Otherwise the name is the last component of the directory, followed by `.csv`, even after trailing slashes. */
  lemma DefaultFilename(e: string, t: string, outfile: Option<string>)
    requires e != [] && e[|e| - 1] != '/'
    requires AllSlashes(t)
    requires outfile.None? || outfile == Some("")
    ensures OutputFilename(e + t, outfile) == Basename(e) + ".csv"
  {
    if t == [] {
      assert e + t == e;
      assert Basename(e) != "" by { assert Cut(e) < |e|; }
    } else {
      TrailingSlashes(e, t);
    }
  }

  /** How `main` ends without writing: the first-pass handler raised `AttributeError` for this file. */
  datatype Abort = MessageMissing(path: string)

  /** How the rows are written: header and overwrite, or no header and append. */
  datatype CsvWrite = CsvWrite(filename: string, header: bool, append: bool, rows: seq<Features>)

  /** The first part, or the whole listing, writes a fresh file with a header; a later part appends. */
  lemma HeaderOnFirstPart(part: Option<int>, count: nat)
    ensures Window(part, count).start == 0 <==> part.None? || part.value <= 1
  {
  }

  /**
   * The first pass of `main` over the selected window; `abortAt` is the
   * position where the handler itself raises, ending the pass.
   */
  method FirstPass(window: seq<string>, start: nat, flow: Attempt)
    returns (rawData: seq<Features>, failed: seq<(int, string)>, abortAt: Option<nat>)
    ensures abortAt == FirstAbort(window, flow)
    ensures abortAt.None? ==> rawData == Kept(window, flow) && failed == Failures(window, start, flow)
    ensures abortAt.Some? ==>
      rawData == Kept(window[..abortAt.value], flow) && failed == Failures(window[..abortAt.value], start, flow)
  {
    rawData, failed, abortAt := [], [], None;
    var counter := 0;
    while counter < |window|
      invariant 0 <= counter <= |window|
      invariant FirstAbort(window[..counter], flow).None?
      invariant rawData == Kept(window[..counter], flow)
      invariant failed == Failures(window[..counter], start, flow)
    {
      assert window[..counter + 1][..counter] == window[..counter];
      var path := window[counter];
      var pathIndex := start + counter + 1;
      var f := flow(path, 0);
      if f.Raised? {
        if !f.hasMessage {
          FirstAbortExtend(window, counter + 1, flow);
          abortAt := Some(counter);
          return;
        }
        failed := failed + [(pathIndex, path)];
      } else if !f.empty {
        rawData := rawData + [f.features];
      }
      counter := counter + 1;
    }
    assert window[..|window|] == window;
  }

  /** One pass of the `while failed` loop. */
  method RetryRound(failed: seq<(int, string)>, round: nat, flow: Attempt)
    returns (recovered: seq<Features>, failedAgain: seq<(int, string)>)
    ensures recovered == Recovered(failed, round, flow) && failedAgain == StillFailing(failed, round, flow)
  {
    recovered, failedAgain := [], [];
    for i := 0 to |failed|
      invariant recovered == Recovered(failed[..i], round, flow)
      invariant failedAgain == StillFailing(failed[..i], round, flow)
    {
      assert failed[..i + 1][..i] == failed[..i];
      var (pathIndex, path) := failed[i];
      var f := flow(path, round);
      if f.Raised? {
        failedAgain := failedAgain + [(pathIndex, path)];
      } else {
        recovered := recovered + [f.features];
      }
    }
    assert failed[..|failed|] == failed;
  }

  /** One pass of the `while failed` loop, with the features collected so far. */
  method RetryStep(recovered: seq<Features>, pending: seq<(int, string)>, round: nat, flow: Attempt, ghost settle: nat)
    returns (recovered': seq<Features>, pending': seq<(int, string)>)
    requires RecoversBefore(pending, round, flow, settle) && pending != []
    ensures RecoversBefore(pending', round + 1, flow, settle)
    ensures recovered' + RetryAll(pending', round + 1, flow, settle) == recovered + RetryAll(pending, round, flow, settle)
    ensures RoundsLeft(round + 1, settle) < RoundsLeft(round, settle)
  {
    PendingBefore(pending, round, flow, settle);
    RecoversAfterRound(pending, round, flow, settle);
    var more;
    more, pending' := RetryRound(pending, round, flow);
    RetryUnfold(recovered, pending, round, flow, settle);
    recovered' := recovered + more;
  }

  /** The `while failed` loop, which ends once every failed file has had one retry that did not raise. */
  method RetryUntilDone(failed: seq<(int, string)>, flow: Attempt, ghost settle: nat) returns (recovered: seq<Features>)
    requires RecoversBefore(failed, 1, flow, settle)
    ensures recovered == RetryAll(failed, 1, flow, settle)
  {
    recovered := [];
    var pending := failed;
    var round := 1;
    while pending != []
      invariant RecoversBefore(pending, round, flow, settle)
      invariant recovered + RetryAll(pending, round, flow, settle) == RetryAll(failed, 1, flow, settle)
      decreases RoundsLeft(round, settle)
    {
      recovered, pending := RetryStep(recovered, pending, round, flow, settle);
      round := round + 1;
    }
  }

  /**
   * `main` on a sorted listing of the directory's captures, their sizes and
   * the extractor: the selected files are processed, failures retried until
   * none remain, and one row per processed file is written, except for files
   * whose first attempt parsed to empty data. A first attempt raising an
   * exception without `message` ends `main` before anything is written.
   */
  method Build(args: Arguments, listing: seq<string>, size: string -> nat, flow: Attempt, ghost settle: nat)
    returns (out: Result<CsvWrite, Abort>)
    requires var paths := SizeFiltered(listing, size, args.maxSize);
      var window := Selected(paths, args.part);
      FirstAbort(window, flow).None? ==>
        RecoversBefore(Failures(window, Window(args.part, |paths|).start, flow), 1, flow, settle)
    ensures var window := Selected(SizeFiltered(listing, size, args.maxSize), args.part);
      var a := FirstAbort(window, flow);
      a.Some? ==> out == Failure(MessageMissing(window[a.value]))
    ensures var paths := SizeFiltered(listing, size, args.maxSize);
      var window := Selected(paths, args.part);
      FirstAbort(window, flow).None? ==>
        out.Success? &&
        out.value.rows == Kept(window, flow) + RetryAll(Failures(window, Window(args.part, |paths|).start, flow), 1, flow, settle) &&
        |out.value.rows| == |window| - CountEmpty(window, flow)
    ensures out.Success? ==> out.value.filename == OutputFilename(args.directory, args.outfile)
    ensures out.Success? ==> out.value.header == (Window(args.part, |SizeFiltered(listing, size, args.maxSize)|).start == 0)
    ensures out.Success? ==> out.value.append == !out.value.header
  {
    var paths := listing;
    if args.maxSize.Some? {
      paths := KeepSmall(paths, size, args.maxSize.value * 1048576);
    }
    var filesCount := |paths|;
    var w := Window(args.part, filesCount);
    var window := Slice(paths, w.start, w.end);
    var rawData, failed, abortAt := FirstPass(window, w.start, flow);
    if abortAt.Some? {
      return Failure(MessageMissing(window[abortAt.value]));
    }
    var retried := RetryUntilDone(failed, flow, settle);
    rawData := rawData + retried;
    FirstPassPartition(window, w.start, flow);
    RetryAllOnePerFailure(failed, 1, flow, settle);
    var filename := OutputFilename(args.directory, args.outfile);
    out := Success(CsvWrite(filename, w.start == 0, w.start != 0, rawData));
  }
}
