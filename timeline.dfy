/**
 * Timeline assembly (`Pipeline.main` and `Pipeline.evaluate`): one event per
 * segment of the split capture, named by reverse lookup of the classifier's
 * prediction in the label table, then sorted by start time.
 */
module Timeline {
  import opened Base

  /** What `Flow.from_path` yields for one segment file: its `interval` and its `features`, which still hold the `class` column. */
  datatype Segment = Segment(interval: (int, int), features: Features)

  /** An entry of the timeline; `name` is absent when no label matches the prediction. */
  datatype Event = Event(start: int, end: int, name: Option<string>)

  /** Why `main` stops: `features.pop('class')` finds no such key, or the classifier predicts nothing. */
  datatype PipelineError = MissingClass | EmptyPrediction

  /** The label table, in the iteration order of `constants.CLASSES.items()`. */
  type Labels = seq<(string, int)>

  /** The name the lookup loop leaves behind: the last key whose value is `id`. */
  function NameOf(labels: Labels, id: int): (r: Option<string>)
    ensures r.Some? ==> (r.value, id) in labels
  {
    if labels == [] then None
    else if labels[|labels| - 1].1 == id then Some(labels[|labels| - 1].0)
    else NameOf(labels[..|labels| - 1], id)
  }

  /**
   * The name is a key whose value equals the prediction, and no later key
   * matches; there is no name exactly when no key matches.
   */
  lemma {:induction false} NameOfLastMatch(labels: Labels, id: int)
    ensures NameOf(labels, id) == None <==> forall i :: 0 <= i < |labels| ==> labels[i].1 != id
    ensures NameOf(labels, id).Some? ==>
      exists i :: 0 <= i < |labels| && labels[i] == (NameOf(labels, id).value, id) &&
        forall j :: i < j < |labels| ==> labels[j].1 != id
  {
    if labels != [] {
      var front := labels[..|labels| - 1];
      NameOfLastMatch(front, id);
      if labels[|labels| - 1].1 != id {
        if NameOf(front, id).Some? {
          var i :| 0 <= i < |front| && front[i] == (NameOf(front, id).value, id) &&
            forall j :: i < j < |front| ==> front[j].1 != id;
          assert labels[i] == front[i];
        }
        forall i | 0 <= i < |front|
          ensures labels[i] == front[i]
        {
        }
      }
    }
  }

  /** The `for key, value in constants.CLASSES.items()` loop. */
  method ResolveName(labels: Labels, id: int) returns (name: Option<string>)
    ensures name == NameOf(labels, id)
  {
    name := None;
    for i := 0 to |labels|
      invariant name == NameOf(labels[..i], id)
    {
      assert labels[..i + 1][..i] == labels[..i];
      var (key, value) := labels[i];
      if value == id {
        name := Some(key);
      }
    }
    assert labels[..|labels|] == labels;
  }

  /** Ascending by `start`. */
  predicate SortedByStart(events: seq<Event>) {
    forall i, j :: 0 <= i < j < |events| ==> events[i].start <= events[j].start
  }

  /** The events that start at `t`, in order. */
  function StartingAt(events: seq<Event>, t: int): seq<Event> {
    if events == [] then []
    else
      var last := events[|events| - 1];
      StartingAt(events[..|events| - 1], t) + (if last.start == t then [last] else [])
  }

  /** Inserts `e` after every event that starts no later than it. */
  function Insert(sorted: seq<Event>, e: Event): (r: seq<Event>)
    ensures |r| == |sorted| + 1
  {
    if sorted == [] || sorted[|sorted| - 1].start <= e.start then sorted + [e]
    else Insert(sorted[..|sorted| - 1], e) + [sorted[|sorted| - 1]]
  }

  /** `predictions.sort(key=lambda p: p['start'])`: Python's sort is stable, so an insertion sort is the reference. */
  function SortByStart(events: seq<Event>): (r: seq<Event>)
    ensures |r| == |events|
  {
    if events == [] then []
    else Insert(SortByStart(events[..|events| - 1]), events[|events| - 1])
  }

  lemma {:induction false} InsertKeeps(sorted: seq<Event>, e: Event)
    ensures multiset(Insert(sorted, e)) == multiset(sorted) + multiset{e}
    ensures |Insert(sorted, e)| == |sorted| + 1
  {
    if !(sorted == [] || sorted[|sorted| - 1].start <= e.start) {
      var front := sorted[..|sorted| - 1];
      InsertKeeps(front, e);
      assert sorted == front + [sorted[|sorted| - 1]];
    }
  }

  /** Every element of `Insert(sorted, e)` is `e` or an element of `sorted`. */
  lemma InsertMembers(sorted: seq<Event>, e: Event, x: Event)
    requires x in Insert(sorted, e)
    ensures x == e || x in sorted
  {
    InsertKeeps(sorted, e);
    assert x in multiset(Insert(sorted, e));
  }

  lemma {:induction false} InsertSorted(sorted: seq<Event>, e: Event)
    requires SortedByStart(sorted)
    ensures SortedByStart(Insert(sorted, e))
  {
    if !(sorted == [] || sorted[|sorted| - 1].start <= e.start) {
      var front := sorted[..|sorted| - 1];
      var last := sorted[|sorted| - 1];
      InsertSorted(front, e);
      var r := Insert(front, e);
      forall i | 0 <= i < |r|
        ensures r[i].start <= last.start
      {
        InsertMembers(front, e, r[i]);
        if r[i] != e {
          var k :| 0 <= k < |front| && front[k] == r[i];
          assert sorted[k] == front[k];
        }
      }
    }
  }

  lemma {:induction false} InsertStable(sorted: seq<Event>, e: Event, t: int)
    ensures StartingAt(Insert(sorted, e), t) == StartingAt(sorted, t) + (if e.start == t then [e] else [])
  {
    if sorted == [] || sorted[|sorted| - 1].start <= e.start {
      assert (sorted + [e])[..|sorted|] == sorted;
    } else {
      var front := sorted[..|sorted| - 1];
      var last := sorted[|sorted| - 1];
      InsertStable(front, e, t);
      var r := Insert(front, e);
      assert (r + [last])[..|r|] == r;
    }
  }

  /** The sorted list holds the same events, each once. */
  lemma {:induction false} SortPermutes(events: seq<Event>)
    ensures multiset(SortByStart(events)) == multiset(events)
  {
    if events != [] {
      var front := events[..|events| - 1];
      SortPermutes(front);
      InsertKeeps(SortByStart(front), events[|events| - 1]);
      assert events == front + [events[|events| - 1]];
    }
  }

  /** The sorted list is ascending by start. */
  lemma {:induction false} SortOrders(events: seq<Event>)
    ensures SortedByStart(SortByStart(events))
  {
    if events != [] {
      SortOrders(events[..|events| - 1]);
      InsertSorted(SortByStart(events[..|events| - 1]), events[|events| - 1]);
    }
  }

  /** Events with the same start keep their discovery order. */
  lemma {:induction false} SortStable(events: seq<Event>, t: int)
    ensures StartingAt(SortByStart(events), t) == StartingAt(events, t)
  {
    if events != [] {
      SortStable(events[..|events| - 1], t);
      InsertStable(SortByStart(events[..|events| - 1]), events[|events| - 1], t);
    }
  }

  /** The event built for one segment, or why building it fails. */
  function EventOf(segment: Segment, labels: Labels, classifier: Features -> seq<int>): (r: Result<Event, PipelineError>)
    ensures "class" !in segment.features ==> r == Failure(MissingClass)
    ensures r.Success? <==> "class" in segment.features && classifier(segment.features - {"class"}) != []
    ensures r.Success? ==>
      r.value.start == segment.interval.0 && r.value.end == segment.interval.1 &&
      r.value.name == NameOf(labels, classifier(segment.features - {"class"})[0])
  {
    if "class" !in segment.features then Failure(MissingClass)
    else
      var prediction := classifier(segment.features - {"class"});
      if prediction == [] then Failure(EmptyPrediction)
      else Success(Event(segment.interval.0, segment.interval.1, NameOf(labels, prediction[0])))
  }

  /** The unsorted `predictions` list, or the error of the first segment that fails. */
  function Collect(segments: seq<Segment>, labels: Labels, classifier: Features -> seq<int>): (r: Result<seq<Event>, PipelineError>)
    ensures r.Success? ==> |r.value| == |segments|
  {
    if segments == [] then Success([])
    else
      match Collect(segments[..|segments| - 1], labels, classifier)
      case Failure(err) => Failure(err)
      case Success(events) =>
        match EventOf(segments[|segments| - 1], labels, classifier)
        case Failure(err) => Failure(err)
        case Success(e) => Success(events + [e])
  }

  /**
   * When every segment yields an event, there is exactly one event per
   * segment, in discovery order; otherwise the run stops with the error of
   * the first failing segment.
   */
  lemma {:induction false} CollectOnePerSegment(segments: seq<Segment>, labels: Labels, classifier: Features -> seq<int>)
    ensures var r := Collect(segments, labels, classifier);
      r.Success? <==> forall i :: 0 <= i < |segments| ==> EventOf(segments[i], labels, classifier).Success?
    ensures var r := Collect(segments, labels, classifier);
      r.Success? ==> (|r.value| == |segments| &&
        forall i :: 0 <= i < |segments| ==> Success(r.value[i]) == EventOf(segments[i], labels, classifier))
    ensures var r := Collect(segments, labels, classifier);
      r.Failure? ==> exists i ::
        0 <= i < |segments| && Failure(r.error) == EventOf(segments[i], labels, classifier) &&
        forall j :: 0 <= j < i ==> EventOf(segments[j], labels, classifier).Success?
  {
    if segments != [] {
      var front := segments[..|segments| - 1];
      CollectOnePerSegment(front, labels, classifier);
      forall i | 0 <= i < |front|
        ensures front[i] == segments[i]
      {
      }
    }
  }

  /** The classification pipeline around a loaded model. */
  class Pipeline {
    /** `joblib.load(model_path)`: the model's `predict` on a one-row frame. */
    const classifier: Features -> seq<int>

    constructor(classifier: Features -> seq<int>)
      ensures this.classifier == classifier
    {
      this.classifier := classifier;
    }

    /** `self.classifier.predict(X)[0]`; an empty prediction is an `IndexError`. */
    function Evaluate(x: Features): (r: Option<int>)
      ensures r.Some? <==> classifier(x) != []
      ensures r.Some? ==> r.value == classifier(x)[0]
    {
      var prediction := classifier(x);
      if prediction == [] then None else Some(prediction[0])
    }

    /**
     * `main` over the segments found in the splitter's output directory, in
     * the order `glob` lists them: the time-sorted timeline, or the error
     * that stops the run.
     */
    method Run(segments: seq<Segment>, labels: Labels) returns (r: Result<seq<Event>, PipelineError>)
      ensures var c := Collect(segments, labels, classifier);
        r == if c.Failure? then Failure(c.error) else Success(SortByStart(c.value))
      ensures r.Success? ==> SortedByStart(r.value) && |r.value| == |segments|
    {
      var predictions: seq<Event> := [];
      for i := 0 to |segments|
        invariant Collect(segments[..i], labels, classifier) == Success(predictions)
      {
        assert segments[..i + 1][..i] == segments[..i];
        var segment := segments[i];
        var event := Event(segment.interval.0, segment.interval.1, None);
        if "class" !in segment.features {
          CollectFails(segments, i, labels);
          return Failure(MissingClass);
        }
        var features := segment.features - {"class"};
        var eventId := Evaluate(features);
        if eventId.None? {
          CollectFails(segments, i, labels);
          return Failure(EmptyPrediction);
        }
        var name := ResolveName(labels, eventId.value);
        event := event.(name := name);
        predictions := predictions + [event];
      }
      assert segments[..|segments|] == segments;
      SortOrders(predictions);
      SortPermutes(predictions);
      CollectOnePerSegment(segments, labels, classifier);
      assert |SortByStart(predictions)| == |predictions| by {
        assert |multiset(SortByStart(predictions))| == |multiset(predictions)|;
      }
      return Success(SortByStart(predictions));
    }

    /** Once a prefix has failed at segment `i`, the whole run fails with that error. */
    lemma {:induction false} CollectFails(segments: seq<Segment>, i: nat, labels: Labels)
      requires i < |segments|
      requires Collect(segments[..i], labels, classifier).Success?
      requires EventOf(segments[i], labels, classifier).Failure?
      ensures Collect(segments, labels, classifier) == Failure(EventOf(segments[i], labels, classifier).error)
      decreases |segments|
    {
      if i + 1 < |segments| {
        var front := segments[..|segments| - 1];
        assert front[..i] == segments[..i];
        CollectFails(front, i, labels);
      } else {
        assert segments[..i] == segments[..|segments| - 1];
      }
    }
  }
}
