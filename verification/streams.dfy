/**
 The event stream of an attempt: the phase it has reached, the phases each event is allowed in, and
 the language of streams a worker can produce.
 */
module Streams {
  import opened Wrappers
  import opened Domain

  datatype Phase = PhaseNone | PhaseAccepted | PhaseRunning | PhaseDone

  /** The phase an event leads to, if it is allowed at all. */
  function Advance(phase: Phase, body: EventBody): Option<Phase> {
    match body
    case EventAccepted => if phase.PhaseNone? then Some(PhaseAccepted) else None
    case EventStarted(_) => if phase.PhaseAccepted? then Some(PhaseRunning) else None
    case EventFinished(_, _, _, _) => if phase.PhaseAccepted? || phase.PhaseRunning? then Some(PhaseDone) else None
    case EventArtifacts(_) => if phase.PhaseRunning? then Some(PhaseRunning) else None
    case EventMetric(_) => if phase.PhaseRunning? then Some(PhaseRunning) else None
    case EventUnknown => None
  }

  /** The phase of an attempt after a history of events about many attempts. */
  function PhaseOf(history: seq<WorkerEvent>, attempt: AttemptId): Phase {
    if |history| == 0 then PhaseNone
    else
      var before := PhaseOf(history[..|history| - 1], attempt);
      var e := history[|history| - 1];
      if e.attemptId == attempt && Advance(before, e.body).Some? then Advance(before, e.body).value else before
  }

  /** Every event was allowed when it was enqueued. */
  predicate StreamOk(history: seq<WorkerEvent>) {
    forall i :: 0 <= i < |history| ==> AllowedAt(history, i)
  }

  predicate AllowedAt(history: seq<WorkerEvent>, i: int)
    requires 0 <= i < |history|
  {
    Advance(PhaseOf(history[..i], history[i].attemptId), history[i].body).Some?
  }

  function MetricsOf(history: seq<WorkerEvent>, attempt: AttemptId): seq<MetricSample> {
    if |history| == 0 then []
    else
      var e := history[|history| - 1];
      MetricsOf(history[..|history| - 1], attempt) +
      if e.attemptId == attempt && e.body.EventMetric? then [e.body.sample] else []
  }

  lemma AppendEvent(history: seq<WorkerEvent>, e: WorkerEvent, attempt: AttemptId)
    ensures PhaseOf(history + [e], attempt) ==
            if e.attemptId == attempt && Advance(PhaseOf(history, attempt), e.body).Some?
            then Advance(PhaseOf(history, attempt), e.body).value else PhaseOf(history, attempt)
    ensures MetricsOf(history + [e], attempt) == MetricsOf(history, attempt) +
            if e.attemptId == attempt && e.body.EventMetric? then [e.body.sample] else []
  {
    assert (history + [e])[..|history|] == history;
  }

  lemma AppendAllowed(history: seq<WorkerEvent>, e: WorkerEvent)
    requires StreamOk(history) && Advance(PhaseOf(history, e.attemptId), e.body).Some?
    ensures StreamOk(history + [e])
  {
    var more := history + [e];
    forall i | 0 <= i < |more| ensures AllowedAt(more, i) {
      if i < |history| {
        assert more[..i] == history[..i];
        assert AllowedAt(history, i);
      } else {
        assert more[..i] == history;
      }
    }
  }

  /** Once an attempt has been heard of it stays heard of. */
  lemma {:induction false} PhasePersists(history: seq<WorkerEvent>, n: nat, attempt: AttemptId)
    requires n <= |history| && PhaseOf(history[..n], attempt) != PhaseNone
    ensures PhaseOf(history, attempt) != PhaseNone
    ensures PhaseOf(history[..n], attempt).PhaseDone? ==> PhaseOf(history, attempt).PhaseDone?
    decreases |history|
  {
    if n == |history| {
      assert history[..n] == history;
    } else {
      var init := history[..|history| - 1];
      assert init[..n] == history[..n];
      PhasePersists(init, n, attempt);
    }
  }

  lemma {:induction false} UnheardOf(history: seq<WorkerEvent>, attempt: AttemptId)
    requires forall i :: 0 <= i < |history| ==> history[i].attemptId != attempt
    ensures PhaseOf(history, attempt).PhaseNone? && MetricsOf(history, attempt) == []
  {
    if |history| > 0 {
      UnheardOf(history[..|history| - 1], attempt);
    }
  }

  lemma {:induction false} HeardOf(history: seq<WorkerEvent>, i: nat)
    requires StreamOk(history) && i < |history|
    ensures PhaseOf(history, history[i].attemptId) != PhaseNone
  {
    assert AllowedAt(history, i);
    assert history[..i + 1] == history[..i] + [history[i]];
    AppendEvent(history[..i], history[i], history[i].attemptId);
    PhasePersists(history, i + 1, history[i].attemptId);
  }

  /******* The language of one attempt's stream *******/

  function StreamOf(history: seq<WorkerEvent>, attempt: AttemptId): seq<EventBody> {
    if |history| == 0 then []
    else
      var e := history[|history| - 1];
      StreamOf(history[..|history| - 1], attempt) + if e.attemptId == attempt then [e.body] else []
  }

  /** A prefix of: accepted, then optionally started and any metrics and artifacts, then finished. */
  predicate InLanguage(stream: seq<EventBody>) {
    && (|stream| > 0 ==> stream[0].EventAccepted?)
    && (forall i :: 1 <= i < |stream| ==>
          if i == 1 then stream[i].EventStarted? || stream[i].EventFinished?
          else stream[i].EventMetric? || stream[i].EventArtifacts? || stream[i].EventFinished?)
    && (forall i :: 0 <= i < |stream| - 1 ==> !stream[i].EventFinished?)
  }

  /** The phase read off a stream of the language. */
  function PhaseOfStream(stream: seq<EventBody>): Phase {
    if |stream| == 0 then PhaseNone
    else if stream[|stream| - 1].EventFinished? then PhaseDone
    else if |stream| == 1 then PhaseAccepted
    else PhaseRunning
  }

  /** Histories whose every event was allowed are, attempt by attempt, exactly in the language. */
  lemma {:induction false} StreamsAreInLanguage(history: seq<WorkerEvent>, attempt: AttemptId)
    requires StreamOk(history)
    ensures InLanguage(StreamOf(history, attempt))
    ensures PhaseOf(history, attempt) == PhaseOfStream(StreamOf(history, attempt))
  {
    if |history| > 0 {
      var n := |history| - 1;
      var init := history[..n];
      forall i | 0 <= i < n ensures AllowedAt(init, i) {
        assert init[..i] == history[..i];
        assert AllowedAt(history, i);
      }
      StreamsAreInLanguage(init, attempt);
      assert AllowedAt(history, n);
    }
  }

  lemma LanguageIsPrefixClosed(stream: seq<EventBody>, body: EventBody)
    requires InLanguage(stream + [body])
    ensures InLanguage(stream) && Advance(PhaseOfStream(stream), body).Some?
  {
    var more := stream + [body];
    assert forall i :: 0 <= i < |stream| ==> more[i] == stream[i];
    assert more[|stream|] == body;
  }

  /** And only those: a history whose streams are all in the language had every event allowed. */
  lemma {:induction false} LanguageIsAllowed(history: seq<WorkerEvent>)
    requires forall a: nat :: InLanguage(StreamOf(history, a))
    ensures StreamOk(history)
  {
    if |history| > 0 {
      var n := |history| - 1;
      var init := history[..n];
      forall a: nat ensures InLanguage(StreamOf(init, a)) {
        assert InLanguage(StreamOf(history, a));
        if history[n].attemptId == a {
          LanguageIsPrefixClosed(StreamOf(init, a), history[n].body);
        } else {
          assert StreamOf(history, a) == StreamOf(init, a);
        }
      }
      LanguageIsAllowed(init);
      var a := history[n].attemptId;
      assert InLanguage(StreamOf(history, a));
      LanguageIsPrefixClosed(StreamOf(init, a), history[n].body);
      StreamsAreInLanguage(init, a);
      AppendAllowed(init, history[n]);
      assert init + [history[n]] == history;
    }
  }
}
