/**
 * The splitter object (`Splitter.execute`): the `.pcap` check, loading the
 * side-car marks, and one extraction per `(query, path)` pair the strategy
 * yields, each failure reported without stopping the loop.
 */
module Splitting {
  import opened Base
  import opened Text
  import opened Clock
  import opened Extraction
  import opened MarkSplit
  import opened AutoSplit

  /** The two registered strategies. */
  datatype Strategy = Marks | Auto

  /** The class attribute `identifier` of each strategy. */
  function Identifier(s: Strategy): string {
    match s
    case Marks => "marks"
    case Auto => "auto"
  }

  /** The constructor's check never fires for a registered strategy, and no two strategies share a name. */
  lemma IdentifiersNamed(a: Strategy, b: Strategy)
    ensures Identifier(a) != ""
    ensures Identifier(a) == Identifier(b) <==> a == b
  {
  }

  /** `'.'.join(pcap.split('.')[:-1]) + '.marks'`. */
  function MarksPath(pcap: string): (r: string)
    ensures EndsWith(r, ".marks")
  {
    var parts := Split(pcap, '.');
    Join(parts[..|parts| - 1], '.') + ".marks"
  }

  /** The text after the last dot is replaced by `marks`. */
  lemma MarksPathReplacesExtension(stem: string, ext: string)
    requires '.' !in ext
    ensures MarksPath(stem + "." + ext) == stem + ".marks"
  {
    assert stem + "." + ext == stem + ['.'] + ext;
    SplitAround(stem, ext, '.');
    SplitWithout(ext, '.');
    var parts := Split(stem + "." + ext, '.');
    assert parts[..|parts| - 1] == Split(stem, '.');
    JoinSplit(stem, '.');
  }

  /** `x.pcap` has its marks in `x.marks`. */
  lemma MarksPathOfCapture(pcap: string)
    requires EndsWith(pcap, ".pcap")
    ensures MarksPath(pcap) == pcap[..|pcap| - 5] + ".marks"
  {
    var stem := pcap[..|pcap| - 5];
    assert pcap == stem + "." + "pcap";
    MarksPathReplacesExtension(stem, "pcap");
  }

  /** One line of the splitter's log. */
  datatype Report = NotPcap(file: string) | ExtractionFailed(path: string)

  /** How `execute` ends. */
  datatype Outcome =
    | Skipped        // the name does not end in `.pcap`
    | MarksMissing   // opening the `.marks` file raises
    | CaptureEmpty   // the automatic strategy reads the unbound `current`
    | Finished

  /** The exit code of `tshark -r pcap -w path query`. */
  type Tshark = (string, string, string) -> int

  /** What the extraction loop has done so far: the pairs it consumed, the failures it logged, the files on disk. */
  datatype Run = Run(requests: seq<Request>, reports: seq<Report>, files: set<string>)

  /** One extraction: on exit code 0 the output file exists afterwards, otherwise a failure is logged. */
  function Step(pcap: string, run: Run, req: Request, tshark: Tshark): (r: Run)
    ensures r.requests == run.requests + [req]
    ensures r.reports == run.reports <==> tshark(pcap, req.path, req.query) == 0
    ensures tshark(pcap, req.path, req.query) == 0 ==> r.files == run.files + {req.path}
    ensures tshark(pcap, req.path, req.query) != 0 ==>
      r.files == run.files && r.reports == run.reports + [ExtractionFailed(req.path)]
  {
    var code := tshark(pcap, req.path, req.query);
    Run(run.requests + [req],
        run.reports + (if code != 0 then [ExtractionFailed(req.path)] else []),
        if code == 0 then run.files + {req.path} else run.files)
  }

  /** Extracting a fixed list of pairs, in order. */
  function Extract(pcap: string, reqs: seq<Request>, start: Run, tshark: Tshark): Run {
    if reqs == [] then start
    else Step(pcap, Extract(pcap, reqs[..|reqs| - 1], start, tshark), reqs[|reqs| - 1], tshark)
  }

  /**
   * The mark strategy driven by `execute`: the generator is lazy, so each
   * mark's existence check sees the files written by the extractions before it.
   */
  function MarkRun(pcap: string, marks: seq<Mark>, start: Run, tshark: Tshark): Run {
    if marks == [] then start
    else
      var before := MarkRun(pcap, marks[..|marks| - 1], start, tshark);
      Step(pcap, before, MarkRequest(marks[|marks| - 1], before.files), tshark)
  }

  /** One more mark extends the run by the step for that mark. */
  lemma MarkRunNext(pcap: string, marks: seq<Mark>, i: nat, start: Run, tshark: Tshark)
    requires i < |marks|
    ensures var before := MarkRun(pcap, marks[..i], start, tshark);
      MarkRun(pcap, marks[..i + 1], start, tshark) == Step(pcap, before, MarkRequest(marks[i], before.files), tshark)
  {
    assert marks[..i + 1][..i] == marks[..i];
  }

  /** A step taken from an empty run, as `ExtractOne` does, extends any run with the same files in the same way. */
  lemma StepFrom(pcap: string, before: Run, req: Request, tshark: Tshark, logged: seq<Report>, after: Run)
    requires Step(pcap, Run([], logged + before.reports, before.files), req, tshark) == after
    ensures after.reports == logged + Step(pcap, before, req, tshark).reports
    ensures after.files == Step(pcap, before, req, tshark).files
  {
  }

  /** The failures logged for a list of pairs: one per non-zero exit code, in order. */
  function FailedReports(pcap: string, reqs: seq<Request>, tshark: Tshark): seq<Report> {
    if reqs == [] then []
    else
      var last := reqs[|reqs| - 1];
      FailedReports(pcap, reqs[..|reqs| - 1], tshark) +
        (if tshark(pcap, last.path, last.query) != 0 then [ExtractionFailed(last.path)] else [])
  }

  /** The outputs of the pairs whose extraction succeeded. */
  function Written(pcap: string, reqs: seq<Request>, tshark: Tshark): set<string> {
    set i | 0 <= i < |reqs| && tshark(pcap, reqs[i].path, reqs[i].query) == 0 :: reqs[i].path
  }

  /** The outputs written by a list of pairs grow by the last pair's output exactly when it succeeds. */
  lemma WrittenStep(pcap: string, reqs: seq<Request>, tshark: Tshark)
    requires reqs != []
    ensures var last := reqs[|reqs| - 1];
      Written(pcap, reqs, tshark) == Written(pcap, reqs[..|reqs| - 1], tshark) +
        (if tshark(pcap, last.path, last.query) == 0 then {last.path} else {})
  {
    var front := reqs[..|reqs| - 1];
    var last := reqs[|reqs| - 1];
    var extra: set<string> := if tshark(pcap, last.path, last.query) == 0 then {last.path} else {};
    forall p | p in Written(pcap, reqs, tshark)
      ensures p in Written(pcap, front, tshark) + extra
    {
      var i :| 0 <= i < |reqs| && tshark(pcap, reqs[i].path, reqs[i].query) == 0 && reqs[i].path == p;
      if i < |front| {
        assert front[i] == reqs[i];
      }
    }
    forall p | p in Written(pcap, front, tshark) + extra
      ensures p in Written(pcap, reqs, tshark)
    {
      if p in Written(pcap, front, tshark) {
        var i :| 0 <= i < |front| && tshark(pcap, front[i].path, front[i].query) == 0 && front[i].path == p;
        assert reqs[i] == front[i];
      } else {
        assert reqs[|reqs| - 1] == last;
      }
    }
  }

  /**
   * A failed extraction does not stop the loop: every pair is attempted, each
   * failure is logged once and in order, and exactly the successful outputs
   * are added to the disk.
   */
  lemma {:induction false} ExtractAttemptsAll(pcap: string, reqs: seq<Request>, files: set<string>, tshark: Tshark)
    ensures Extract(pcap, reqs, Run([], [], files), tshark) ==
      Run(reqs, FailedReports(pcap, reqs, tshark), files + Written(pcap, reqs, tshark))
  {
    if reqs != [] {
      var front := reqs[..|reqs| - 1];
      var last := reqs[|reqs| - 1];
      ExtractAttemptsAll(pcap, front, files, tshark);
      var before := Extract(pcap, front, Run([], [], files), tshark);
      assert Extract(pcap, reqs, Run([], [], files), tshark) == Step(pcap, before, last, tshark);
      assert before.requests + [last] == reqs;
      WrittenStep(pcap, reqs, tshark);
    }
  }

  /**
   * The mark strategy yields one pair per mark, in the order of the marks
   * file, and each query brackets exactly that mark's start and end.
   */
  lemma {:induction false} MarkRunOnePerMark(pcap: string, marks: seq<Mark>, files: set<string>, tshark: Tshark)
    ensures var r := MarkRun(pcap, marks, Run([], [], files), tshark);
      |r.requests| == |marks| &&
      forall i :: 0 <= i < |marks| ==> r.requests[i].query == Query(marks[i].start, marks[i].end)
  {
    if marks != [] {
      var front := marks[..|marks| - 1];
      var last := marks[|marks| - 1];
      MarkRunOnePerMark(pcap, front, files, tshark);
      var before := MarkRun(pcap, front, Run([], [], files), tshark);
      var req := MarkRequest(last, before.files);
      assert req.query == Query(last.start, last.end);
      assert MarkRun(pcap, marks, Run([], [], files), tshark).requests == before.requests + [req];
      forall i | 0 <= i < |front|
        ensures marks[i] == front[i]
      {
      }
    }
  }

  /**
   * Only one disambiguator is tried: with three marks of the same name and
   * end, where every extraction succeeds, the first writes the planned path
   * and the second and third both write the `_1` path, so the third
   * overwrites the second.
   */
  lemma ThirdMarkOverwrites(pcap: string, m: Mark, files: set<string>, tshark: Tshark)
    requires PlannedPath(m) !in files
    requires var p := PlannedPath(m); var renamed := FirstField(p, '.') + "_1.pcap";
      renamed != p && tshark(pcap, p, Query(m.start, m.end)) == 0 && tshark(pcap, renamed, Query(m.start, m.end)) == 0
    ensures var p := PlannedPath(m); var renamed := FirstField(p, '.') + "_1.pcap";
      var r := MarkRun(pcap, [m, m, m], Run([], [], files), tshark);
      |r.requests| == 3 && r.requests[0].path == p && r.requests[1].path == renamed && r.requests[2].path == renamed
  {
    var start := Run([], [], files);
    var p := PlannedPath(m);
    var renamed := FirstField(p, '.') + "_1.pcap";
    assert [m, m, m][..2] == [m, m];
    assert [m, m][..1] == [m];
    assert [m][..0] == [];
    var r1 := MarkRun(pcap, [m], start, tshark);
    assert MarkRun(pcap, [m][..0], start, tshark) == start;
    assert MarkRequest(m, files) == Request(Query(m.start, m.end), p);
    assert r1 == Step(pcap, start, Request(Query(m.start, m.end), p), tshark);
    assert r1.files == files + {p} && |r1.requests| == 1 && r1.requests[0].path == p;
    var r2 := MarkRun(pcap, [m, m], start, tshark);
    assert MarkRequest(m, r1.files) == Request(Query(m.start, m.end), renamed);
    assert r2 == Step(pcap, r1, Request(Query(m.start, m.end), renamed), tshark);
    assert p in r2.files && |r2.requests| == 2 && r2.requests[0].path == p && r2.requests[1].path == renamed;
    var r3 := MarkRun(pcap, [m, m, m], start, tshark);
    assert r3 == Step(pcap, r2, MarkRequest(m, r2.files), tshark);
    assert MarkRequest(m, r2.files).path == renamed;
  }

  /** The files on disk. */
  class Disk {
    var files: set<string>

    constructor(files: set<string>)
      ensures this.files == files
    {
      this.files := files;
    }
  }

  /** A splitter object: its strategy, the marks it loaded and the lines it logged. */
  class Splitter {
    const strategy: Strategy
    var metadata: seq<Mark>
    var reports: seq<Report>

    constructor(strategy: Strategy)
      ensures this.strategy == strategy && metadata == [] && reports == []
    {
      this.strategy := strategy;
      metadata := [];
      reports := [];
    }

    /** One iteration of the extraction loop. */
    method ExtractOne(pcap: string, req: Request, tshark: Tshark, disk: Disk)
      modifies this, disk
      ensures metadata == old(metadata)
      ensures Step(pcap, Run([], old(reports), old(disk.files)), req, tshark) == Run([req], reports, disk.files)
    {
      var retcode := tshark(pcap, req.path, req.query);
      if retcode != 0 {
        reports := reports + [ExtractionFailed(req.path)];
      } else {
        disk.files := disk.files + {req.path};
      }
    }

    /** The loop of `execute` over the mark strategy's lazy generator. */
    method ExtractMarks(pcap: string, tshark: Tshark, disk: Disk)
      modifies this, disk
      ensures metadata == old(metadata)
      ensures var r := MarkRun(pcap, metadata, Run([], [], old(disk.files)), tshark);
        reports == old(reports) + r.reports && disk.files == r.files
    {
      var i := 0;
      while i < |metadata|
        invariant 0 <= i <= |metadata|
        invariant metadata == old(metadata)
        invariant var r := MarkRun(pcap, metadata[..i], Run([], [], old(disk.files)), tshark);
          reports == old(reports) + r.reports && disk.files == r.files
      {
        ghost var before := MarkRun(pcap, metadata[..i], Run([], [], old(disk.files)), tshark);
        var req := MarkRequest(metadata[i], disk.files);
        MarkRunNext(pcap, metadata, i, Run([], [], old(disk.files)), tshark);
        ExtractOne(pcap, req, tshark, disk);
        StepFrom(pcap, before, req, tshark, old(reports), Run([req], reports, disk.files));
        i := i + 1;
      }
      assert metadata[..i] == metadata;
    }

    /** The loop of `execute` over a fixed list of pairs. */
    method ExtractAll(pcap: string, requests: seq<Request>, tshark: Tshark, disk: Disk)
      modifies this, disk
      ensures metadata == old(metadata)
      ensures var r := Extract(pcap, requests, Run([], [], old(disk.files)), tshark);
        reports == old(reports) + r.reports && disk.files == r.files
    {
      var n := 0;
      while n < |requests|
        invariant 0 <= n <= |requests|
        invariant metadata == old(metadata)
        invariant var r := Extract(pcap, requests[..n], Run([], [], old(disk.files)), tshark);
          reports == old(reports) + r.reports && disk.files == r.files
      {
        assert requests[..n + 1][..n] == requests[..n];
        ExtractOne(pcap, requests[n], tshark, disk);
        n := n + 1;
      }
      assert requests[..n] == requests;
    }

    /**
     * `execute(pcap)` for a strategy, with the marks files that parse
     * (`marksFiles`), the timestamps of the filtered capture (`capture`), the
     * extraction tool and the disk.
     */
    method Execute(pcap: string, marksFiles: map<string, seq<Mark>>, capture: seq<Timestamp>,
                   tshark: Tshark, disk: Disk) returns (outcome: Outcome)
      modifies this, disk
      ensures !EndsWith(pcap, ".pcap") ==>
        outcome == Skipped && reports == old(reports) + [NotPcap(pcap)] &&
        metadata == old(metadata) && disk.files == old(disk.files)
      ensures EndsWith(pcap, ".pcap") && MarksPath(pcap) !in marksFiles ==>
        outcome == MarksMissing && reports == old(reports) && metadata == old(metadata) &&
        disk.files == old(disk.files)
      ensures EndsWith(pcap, ".pcap") && MarksPath(pcap) in marksFiles ==>
        metadata == marksFiles[MarksPath(pcap)]
      ensures EndsWith(pcap, ".pcap") && MarksPath(pcap) in marksFiles && strategy == Auto && capture == [] ==>
        outcome == CaptureEmpty && reports == old(reports) && disk.files == old(disk.files)
      ensures EndsWith(pcap, ".pcap") && MarksPath(pcap) in marksFiles && strategy == Marks ==>
        var r := MarkRun(pcap, metadata, Run([], [], old(disk.files)), tshark);
        outcome == Finished && reports == old(reports) + r.reports && disk.files == r.files
      ensures EndsWith(pcap, ".pcap") && MarksPath(pcap) in marksFiles && strategy == Auto && capture != [] ==>
        var r := Extract(pcap, AutoRequests(capture), Run([], [], old(disk.files)), tshark);
        outcome == Finished && reports == old(reports) + r.reports && disk.files == r.files
    {
      if !EndsWith(pcap, ".pcap") {
        reports := reports + [NotPcap(pcap)];
        return Skipped;
      }
      var marksPath := MarksPath(pcap);
      if marksPath !in marksFiles {
        return MarksMissing;
      }
      metadata := marksFiles[marksPath];
      if strategy == Marks {
        ExtractMarks(pcap, tshark, disk);
        return Finished;
      }
      var result := SplitIntervals(capture);
      if result.Failure? {
        return CaptureEmpty;
      }
      ExtractAll(pcap, result.value, tshark, disk);
      return Finished;
    }
  }
}
