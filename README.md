# uadt core, modelled in Dafny

This project models three parts of the uadt toolkit: the code that cuts a
recorded session capture into segments, builds a feature dataset from
capture files, and assembles a classified timeline.

- **Splitting a session capture** (`automation/splitter.py`). `Splitter.execute`
  does four things:
  - it checks the `.pcap` name;
  - it loads the side-car `.marks` file;
  - it runs the extraction tool once for every `(query, output path)` pair a
    strategy yields;
  - it reports each failed extraction and carries on.

  There are two strategies:
  - `MarkSplitter` yields one segment per mark, named after the mark's name and
    its end time. When that file name is taken, it renames once to `_1.pcap`.
  - `AutoSplitter` cuts the capture wherever two consecutive packets are more
    than two seconds apart. Each piece between consecutive boundaries becomes a
    segment labelled `random`.
- **Building the dataset** (`dataset.py`, `main`). It works in these steps:
  - the sorted listing of captures is filtered by `--max-size`;
  - `--part n` selects a window: for n >= 0, the n-th block of at most 100
    files; for a negative n, the listing without its last 100|n| files, which
    can be more than 100;
  - every selected file goes through the feature extractor once;
  - a file whose first attempt raised is recorded and retried until none is
    left. This holds only when the exception has a `message` attribute; an
    exception without one ends `main` at once (see below);
  - the rows are written to `<directory name>.csv` or to `--outfile`, with a
    header on the first part and appended to on later parts.
- **The timeline** (`uadt/analysis/timeline.py`, `Pipeline.main` and
  `Pipeline.evaluate`). There is one event per segment:
  - the `class` column is removed from the segment's features;
  - the model predicts a class id;
  - the id is mapped back to a name through the label table;
  - the events are sorted by start time.

The model has one Dafny module per concern:

| module | what it models |
|---|---|
| `Base` | `Option`, and `Result` for exceptions that end a run |
| `Text` | the `str` operations used: `split`, `join`, `replace`, `endswith`, `startswith` |
| `PosixPath` | `os.path.join`, `basename`, `dirname` |
| `Clock` | packet timestamps as `datetime` records; their difference in microseconds; the two `strftime` layouts and parsers for them |
| `Extraction` | the `frame.time` display-filter query and the `(query, path)` pair |
| `MarkSplit` | the mark strategy |
| `AutoSplit` | the automatic strategy |
| `Splitting` | the strategy registry; the marks path; the `Splitter` class with `Execute` |
| `Dataset` | `dataset.py` |
| `Timeline` | the `Pipeline` class |

State that the source changes in place is modelled imperatively:

- The splitter's `metadata` and its log are fields of class
  `Splitting.Splitter`.
- The files on disk are the `files` field of class `Splitting.Disk`.
- The extraction loops, the auto strategy's packet loop, index loop and
  yielding loop, the dataset's first pass and retry loop, and the timeline's
  label lookup and segment loop are methods with loops. Each is proved
  against a specification function.

The external tools are parameters of the model:

- `tshark`'s exit code is a function of `(capture, output path, query)`.
- The feature extractor `Flow(path)` is a function of the path and the attempt
  number, because its errors are not deterministic. A raised exception carries
  a flag saying whether it has a `message` attribute.
- File sizes are a function from path to bytes.
- The classifier is a function from features to the predicted list.

### Defects in `Splitter.execute`, and how the model reads them

`execute` cannot run as written. The model follows the evident data flow:

- `automation/splitter.py:61` calls `split_intervals()` without the capture
  name that both strategies take. The model passes the capture.
- Lines 65 and 69 use the unbound names `output_filename` and `event_name`.
  The model writes to the path the strategy yielded, and logs that path on
  failure.
- Line 57 opens the `.marks` file for both strategies, so the automatic
  strategy also stops when that file is missing. This is modelled as written
  (`MarksMissing`).
- `uadt/analysis/timeline.py:43` passes the temporary directory to a
  constructor (`automation/splitter.py:39`) that takes no argument. Both
  strategies always write into `data_split`.

### A defect in `dataset.py`'s first pass, modelled as written

The script runs under `python3` (`dataset.py:1`). The first pass's handler
formats `exp.message` (`dataset.py:75`), and Python 3 exceptions have no
`message` attribute. So when a first attempt raises an exception without
one, the handler itself raises `AttributeError`: `main` ends there. The file
is not recorded, nothing is retried and no CSV is written. The model keeps
this: `Dataset.FirstAbort` is the first such file, `Dataset.FirstPass`
stops at it, and `Dataset.Build` returns `Failure(MessageMissing(path))`.
Only exceptions that do carry `message` reach line 76 and are retried. The
retry loop's handler (`dataset.py:90-92`) reads no attribute, so every
exception there is retried.

### Where the code differs from what one might expect (the model follows the code)

- **Automatic splitting.** A natural reading of the heuristic would expect a
  new interval to start at the first packet after a silence. In the code the
  split point is the packet before the silence. So packets at 0, 1, 1.5, 5,
  5.2 and 5.9 s give the intervals [0, 1.5] and [1.5, 5.9], not [5, 5.9]
  (`AutoSplit.WorkedExample`).
- **Packets out of order.** One might expect every segment to end no earlier
  than it starts. The code assumes the sniff times never go down. For two
  packets whose times go backwards, the single interval ends before it starts
  (`AutoSplit.OutOfOrderPackets`). For ordered captures the expectation holds,
  and every segment gets its own file (`AutoSplit.IntervalsOrdered`,
  `AutoSplit.AutoPathsDistinct`).
- **An empty capture.** One might expect a capture without packets to yield
  no segment. Instead line 157 reads the loop variable `current`, which was
  never bound, and raises. The model returns `CaptureEmpty`.
- **Parts.** The usage text says part n covers files `-1+(n-1)*100..n*100`.
  The code selects the 0-based slice `[100n-100 : min(100n, count)]`, which
  is 1-based files `100n-99 .. 100n` (`Dataset.PartWindow`).
- **Option values.** An option value is a string, so `--max-size 0` and
  `--part 0` are truthy:
  - `--max-size 0` keeps no file (`Dataset.ZeroMaxSize`);
  - `--part 0` selects nothing (`Dataset.PartZero`).

## Model

| member | source | states |
|---|---|---|
| `Splitting.IdentifiersNamed` | automation/splitter.py:37-41 | the identifiers `marks` and `auto` are non-empty and no two strategies share one. The model's constructor takes a registered `Strategy`, so the `ValueError` of lines 40-41 cannot arise in the model; this lemma says why it never arises for the two registered strategies |
| `Splitting.MarksPath` | automation/splitter.py:54 | the marks path is the capture name with its last extension replaced, so it always ends in `.marks` |
| `Splitting.Step` | automation/splitter.py:62-69 | one extraction appends its pair to the attempts; the log is unchanged exactly when the exit code is 0, in which case the output path joins the files; otherwise one failure naming the path is logged and the files are unchanged |
| `Splitting.MarksPathReplacesExtension` | automation/splitter.py:54 | the marks path replaces the text after the last dot by `marks`, keeping everything before it, dots included |
| `Splitting.MarksPathOfCapture` | automation/splitter.py:49-54 | for a name ending in `.pcap`, the marks file is the same name with `.marks` |
| `Splitting.ExtractAttemptsAll` | automation/splitter.py:61-69 | a failed extraction does not stop the loop: every pair is attempted in order, each non-zero exit code logs one failure in order, and exactly the successful outputs are added to the disk |
| `Splitting.MarkRunOnePerMark` | automation/splitter.py:87-110 | the mark strategy yields one pair per mark, in file order, each query bracketing that mark's start and end |
| `Splitting.ThirdMarkOverwrites` | automation/splitter.py:105-108 | only one disambiguator is tried: three identical marks write the planned path, then the `_1` path twice, so the third overwrites the second |
| `Splitting.Splitter.ExtractOne` | automation/splitter.py:62-69 | one tool run: on exit code 0 the output exists afterwards, otherwise one failure is logged; the metadata is unchanged |
| `Splitting.Splitter.ExtractMarks` | automation/splitter.py:61-69 | the extraction loop over the lazy mark generator, which sees the files written by earlier runs, produces exactly the log and disk of `MarkRun` |
| `Splitting.Splitter.ExtractAll` | automation/splitter.py:61-69 | the extraction loop over a fixed list of pairs produces exactly the log and disk of `Extract` |
| `Splitting.Splitter.Execute` | automation/splitter.py:43-69 | a non-`.pcap` name is skipped with one log line and nothing else changes; a missing marks file stops the run with nothing logged or written; otherwise the marks are loaded, and the run is the mark run or the extraction of the automatic requests, or stops when the capture is empty |
| `MarkSplit.TimeSuffix` | automation/splitter.py:96-98 | the stamp holds no `-`, `:`, space or `.` |
| `MarkSplit.TimeSuffixOfFormatted` | automation/splitter.py:96-98 | on an end time written as `%Y-%m-%d %H:%M:%S.%f`, the stamp is exactly `%Y%m%d_%H%M%S` of that time |
| `MarkSplit.PlannedPathParts` | automation/splitter.py:100-103 | for a mark whose name is not absolute, the planned path is `data_split/<name>_<stamp>.pcap` |
| `MarkSplit.OutputPath` | automation/splitter.py:100-108 | the output path is the planned path exactly when the planned path does not exist yet; otherwise it is a different, renamed path |
| `MarkSplit.MarkRequest` | automation/splitter.py:87-110 | the yielded pair is the query bracketing the mark's start and end, with the mark's output path |
| `MarkSplit.OutputPathShape` | automation/splitter.py:100-108 | for a dot-free name the output is `data_split/<name>_<stamp>.pcap`, or `data_split/<name>_<stamp>_1.pcap` when that exists |
| `MarkSplit.DottedNameRename` | automation/splitter.py:105-108 | for a name holding a dot, the renamed path keeps only the name's text before its first dot, losing the rest of the name and the stamp |
| `AutoSplit.GapIndices` | automation/splitter.py:149-153 | the gap positions are increasing, each follows a silence of more than two seconds, and every such position is among them |
| `AutoSplit.GapPositions` | automation/splitter.py:149-153 | a position is a gap position exactly when its packet comes more than 2 000 000 µs after the previous one |
| `AutoSplit.GapStep` | automation/splitter.py:149-153 | one more packet adds its position exactly when it follows a silence |
| `AutoSplit.SplitPointsStep` | automation/splitter.py:149-155 | one more packet adds the previous packet as a split point exactly when it follows a silence |
| `AutoSplit.PacketLoop` | automation/splitter.py:133-157 | with no packet nothing is recorded and `current` stays unbound; otherwise `current` is the last packet and the recorded splits followed by it are the first packet, the packet before each silence, and the last packet |
| `AutoSplit.PairUp` | automation/splitter.py:159-161 | the index loop builds one interval per pair of consecutive boundaries |
| `AutoSplit.YieldAll` | automation/splitter.py:163-179 | the yielding loop produces one request per interval, in order |
| `AutoSplit.SplitIntervals` | automation/splitter.py:124-179 | the generator fails on an empty capture and otherwise yields exactly the requests of the capture's intervals |
| `AutoSplit.IntervalsChain` | automation/splitter.py:157-161 | k silences give k + 1 intervals; the first starts at the first packet, the last ends at the last packet, and each ends where the next starts |
| `AutoSplit.CutAtSilence` | automation/splitter.py:149-161 | the j-th silence ends interval j and starts interval j + 1 at the packet before it, and that packet is more than two seconds before the next |
| `AutoSplit.SinglePacket` | automation/splitter.py:133-161 | one packet gives one interval of length zero |
| `AutoSplit.TwoPackets` | automation/splitter.py:149-161 | two packets are cut apart exactly when more than two seconds separate them; exactly two seconds do not cut |
| `AutoSplit.WorkedExample` | automation/splitter.py:133-161 | packets at 0, 1, 1.5, 5, 5.2 and 5.9 s give the intervals [0, 1.5] and [1.5, 5.9] |
| `AutoSplit.OnlyGap` | automation/splitter.py:149-153 | when exactly one position follows a silence, it is the only gap position |
| `AutoSplit.AutoQueryBrackets` | automation/splitter.py:166-169 | the query of an interval parses back to its two ends, to the microsecond |
| `AutoSplit.AutoPathShape` | automation/splitter.py:164-177 | every segment is written to `data_split/random_<end as %Y%m%d_%H%M%S>.pcap` |
| `AutoSplit.IntervalsOrdered` | automation/splitter.py:133-161 | when the sniff times never go down, no interval ends before it starts |
| `AutoSplit.BoundariesApart` | automation/splitter.py:149-161 | when the sniff times never go down, the boundaries after the first are more than two seconds apart |
| `AutoSplit.AutoPathsDistinct` | automation/splitter.py:133-177 | when the sniff times never go down, no two intervals of one capture share an output path |
| `AutoSplit.OutOfOrderPackets` | automation/splitter.py:149-161 | two packets whose times go backwards give a single interval that ends before it starts |
| `AutoSplit.AutoPathsCollide` | automation/splitter.py:172-177 | two intervals get the same output path exactly when their ends fall in the same second |
| `AutoSplit.Allegiance` | automation/splitter.py:121-122 | every interval is labelled `random`, whatever its bounds and the marks file |
| `AutoSplit.AutoRequest` | automation/splitter.py:163-177 | the pair's query brackets the interval's start and end written with microseconds, and its path ends in `.pcap` |
| `Extraction.QueryRoundTrip` | automation/splitter.py:90-93 | a query built from two quote-free bounds parses back to exactly those bounds |
| `Extraction.ParseQuerySound` | automation/splitter.py:90-93 | every text the query parser accepts is the query of its two bounds, which hold no quote |
| `Clock.FullRoundTrip` | automation/splitter.py:166-169 | `%Y-%m-%d %H:%M:%S.%f` parses back to the same timestamp |
| `Clock.CompactRoundTrip` | automation/splitter.py:172 | `%Y%m%d_%H%M%S` parses back to the timestamp with its microseconds dropped |
| `Clock.FullInjective` | automation/splitter.py:166-169 | two timestamps print the same query text exactly when they are equal |
| `Clock.CompactSameSecond` | automation/splitter.py:172 | two timestamps print the same file-name stamp exactly when they fall in the same second |
| `Clock.FullHasNoQuote` | automation/splitter.py:166-169 | a formatted timestamp holds no double quote, so it cannot close the query's quoting |
| `Clock.CompactLength` | automation/splitter.py:172 | a file-name stamp is 15 characters long |
| `PosixPath.JoinPath` | automation/splitter.py:100-103 | an absolute second component replaces the first; otherwise the result starts with the first component and ends with the second |
| `PosixPath.TrailingSlashes` | dataset.py:96-99 | for a directory given with trailing slashes, the basename is empty and the basename of its dirname is the last real component |
| `Dataset.Clamp` | dataset.py:64 | a slice bound is normalised as Python does: negative bounds count from the end and stop at 0, bounds past the end stop at the length |
| `Dataset.KeepSmall` | dataset.py:43-46 | the size filter keeps at most as many paths as it is given |
| `Dataset.KeepSmallMembers` | dataset.py:43-46 | the size filter keeps exactly the listed paths strictly smaller than the limit |
| `Dataset.KeepSmallSorted` | dataset.py:40-46 | the size filter keeps the sorted order of the listing |
| `Dataset.ZeroMaxSize` | dataset.py:43-46 | `--max-size 0` keeps no file |
| `Dataset.Window` | dataset.py:53-56 | without a part the window is the whole listing; a part's window ends at or before the listing's end and spans at most 100 positions |
| `Dataset.Selected` | dataset.py:53-64 | without a part every file is selected; never more files than listed; a part n >= 0 selects at most 100 files |
| `Dataset.NoPart` | dataset.py:53-59 | without `--part` every file is processed |
| `Dataset.PartWindow` | dataset.py:53-56 | part n >= 0 is the n-th block of 100 files, cut short at the end of the listing, and never more than 100 files |
| `Dataset.PartZero` | dataset.py:53-56 | part 0 selects nothing |
| `Dataset.NegativePart` | dataset.py:53-64 | a negative part n selects the files from the start up to 100·abs(n) files before the end |
| `Dataset.PartsTile` | dataset.py:50-64 | parts 1 to k, run one after the other, process the first min(100k, count) files, each once and in order |
| `Dataset.PartsAdjacent` | dataset.py:53-56 | part n ends where part n + 1 starts |
| `Dataset.ProgressIndex` | dataset.py:64-65 | the printed index of the counter-th processed file is its 1-based position in the listing |
| `Dataset.Kept` | dataset.py:64-73 | the first pass keeps at most one feature record per file |
| `Dataset.Failures` | dataset.py:64-76 | at most one failure is recorded per file, and each progress index lies within the window's 1-based positions |
| `Dataset.FirstAbort` | dataset.py:64-76 | the file at which the first pass ends, when there is one, is a position of the window |
| `Dataset.FailuresExact` | dataset.py:64-76 | a file is recorded as failed, with its progress index, exactly when its first attempt raised an exception that has a `message` |
| `Dataset.FirstAbortExact` | dataset.py:74-76 | the first pass runs to the end exactly when no first attempt raises an exception without `message`; otherwise it stops at the first such file |
| `Dataset.FirstAbortExtend` | dataset.py:74-76 | once a prefix of the window has stopped, the whole pass stops at the same file |
| `Dataset.FirstPassPartition` | dataset.py:64-76 | when the first pass runs to the end, every file is either kept, recorded as failed, or dropped for empty data; when it stops, some file is none of these |
| `Dataset.Recovered` | dataset.py:81-93 | a retry round appends at most one feature record per retried entry |
| `Dataset.StillFailing` | dataset.py:81-93 | a retry round keeps at most the entries it was given |
| `Dataset.RoundPartition` | dataset.py:81-93 | a retry round accounts for every entry once: it appends its features or keeps it failing |
| `Dataset.StillFailingExact` | dataset.py:81-93 | an entry stays failed exactly when its retry raised |
| `Dataset.PendingBefore` | dataset.py:80-93 | when every pending file has a good retry before round `settle`, nothing is pending from round `settle` on |
| `Dataset.RecoversAfterRound` | dataset.py:81-93 | the files a round keeps in `failed` raised at that round, so their good retry is still ahead: the loop's invariant |
| `Dataset.FailuresRecover` | dataset.py:64-93 | if every file whose first attempt raised with `message` later has one retry that does not raise, every recorded failure does |
| `Dataset.IntermittentRecovers` | dataset.py:78-93 | an extractor that raises on every odd attempt, forever, still lets the loop finish after round 2 with one row per failed file |
| `Dataset.RetryAllOnePerFailure` | dataset.py:80-93 | when every failed file has one retry that does not raise, each contributes exactly one row in the end, even with empty data |
| `Dataset.OutputFilename` | dataset.py:96-100 | a non-empty `--outfile` is the name; otherwise the name ends in `.csv` |
| `Dataset.OutfileWins` | dataset.py:100 | a non-empty `--outfile` is the output name |
| `Dataset.DefaultFilename` | dataset.py:96-100 | otherwise the name is the directory's last component followed by `.csv`, with or without trailing slashes |
| `Dataset.HeaderOnFirstPart` | dataset.py:53-59 | the window starts at 0, so a header is written and the file overwritten, exactly without a part or for a part of at most 1 |
| `Dataset.FirstPass` | dataset.py:62-76 | the first pass stops at `FirstAbort`; up to there it keeps the features of non-empty parses and records every file whose attempt raised with a `message`, with its progress index |
| `Dataset.RetryRound` | dataset.py:81-93 | one retry round appends the features of every retry that did not raise and keeps the others, in order |
| `Dataset.RetryStep` | dataset.py:80-93 | one round does not change the rows still to be collected, keeps every pending file's good retry ahead of it, and brings the loop one round closer to its end |
| `Dataset.RetryUntilDone` | dataset.py:78-93 | when every failed file has one retry that does not raise, at whatever round, the retry loop ends and appends exactly the rows of all retry rounds |
| `Dataset.Build` | dataset.py:38-108 | a first attempt raising without `message` ends the run with that file and nothing written, with no assumption on the retries; otherwise, when every recorded failure has one retry that does not raise, the rows are the first pass's kept features followed by the retried ones, one per selected file that did not parse empty on its first attempt, and the file name, the header and the append mode are as above |
| `Timeline.NameOfLastMatch` | uadt/analysis/timeline.py:59-62 | the name is the last label whose id equals the prediction, and there is no name exactly when no label matches |
| `Timeline.NameOf` | uadt/analysis/timeline.py:60-62 | a name found for an id is a label paired with that id |
| `Timeline.ResolveName` | uadt/analysis/timeline.py:60-62 | the lookup loop leaves the name of the last matching label |
| `Timeline.SortPermutes` | uadt/analysis/timeline.py:66 | sorting keeps the same events, each as often |
| `Timeline.SortOrders` | uadt/analysis/timeline.py:66 | the sorted events are ascending by start |
| `Timeline.SortStable` | uadt/analysis/timeline.py:66 | events with the same start keep their discovery order |
| `Timeline.SortByStart` | uadt/analysis/timeline.py:66 | sorting keeps the number of events |
| `Timeline.CollectOnePerSegment` | uadt/analysis/timeline.py:47-64 | the run succeeds exactly when every segment yields an event, and then has one event per segment in order; otherwise it stops with the error of the first failing segment |
| `Timeline.Collect` | uadt/analysis/timeline.py:47-64 | a successful collection has one event per segment |
| `Timeline.EventOf` | uadt/analysis/timeline.py:50-62 | a segment without a `class` column fails with `MissingClass`; an event is built exactly when the column is there and the prediction is not empty, and it takes the segment's interval and the name looked up for the first predicted id |
| `Timeline.Pipeline.Evaluate` | uadt/analysis/timeline.py:69-74 | the result is present exactly when the model predicts something, and it is the first prediction |
| `Timeline.Pipeline.CollectFails` | uadt/analysis/timeline.py:55-59 | once segment i fails after a successful prefix, the whole run fails with that segment's error |
| `Timeline.Pipeline.Run` | uadt/analysis/timeline.py:38-67 | the result is the first failure, or the collected events sorted by start; on success it is sorted and has one event per segment |

## Left out

- Reading the capture is not modelled: pyshark, the display filter that drops
  retransmissions and ARP, and reading the marks JSON are out. The automatic
  strategy receives the timestamps of the filtered capture. `Execute`
  receives the marks files that parse, as a map from path to marks. A marks
  file that does not parse as JSON counts as missing.
- The SNI and DNS lookups in the packet loop (`automation/splitter.py:139-147`)
  are left out, because their values are never used. The debug `print` of
  the silence time is left out as output only.
- Timestamps are modelled as `datetime` records. A day of month only needs to
  be between 1 and 31, so dates such as 31 February are admitted. Years are
  limited to 1970-9999.
- The difference of two timestamps is exact in microseconds. The float
  `total_seconds()` is not modelled: `> 2` is read as more than 2 000 000 µs.
- `tshark` is a function returning the exit code. The model assumes it writes
  the output file exactly when it exits with 0.
- `Splitter.setup_logging`, the plugin registry lookup, the output-directory
  creation in `automation/splitter.py:182-200` and the command-line entry
  points are left out. `automation/main.py` is not part of this model.
- The order of the `glob` listing is left out: `Dataset.Build` takes the listing
  after `sorted`. `Timeline.Pipeline.Run` takes the segments in whatever order
  `glob` gives.
- In `Timeline.Pipeline.Run`, the splitter call, the temporary directory and
  `Flow.from_path` are left out. The segments with their intervals and
  features are an input, because the call at line 43 cannot be made as
  written (see above).
- The extractor `Flow`, `pandas` (including `fillna(0)` and writing the CSV)
  and `joblib` are left out as opaque. When the run gets that far,
  `Dataset.Build` returns what would be written: the file name, the header
  and append flags, and the rows.
- Dataset.Build: `int(...)` of a non-numeric `--part` or `--max-size`, which
  raises, is not modelled. Options are given already parsed.
- Dataset.RetryUntilDone: the source's `while failed` loop never ends when a
  failed file raises on every retry. The model covers the runs that end: it
  assumes that every failed file has at least one retry that does not raise,
  at a round below a ghost bound `settle`, and proves nothing about the others.
  `Dataset.Build` and `Dataset.RetryAllOnePerFailure` carry the same
  assumption; the abort case of `Dataset.Build` needs none.
- Python's `list.sort` is a library call. It is specified by a stable
  insertion sort on the events (`Timeline.SortByStart`), not by its own
  algorithm.
- Printing the timeline and the progress messages are left out as output
  only.
- Strings are sequences of code points. Encodings are not modelled.
