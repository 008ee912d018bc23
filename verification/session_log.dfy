/** The sessions under which a worker's events were recorded, beside the events themselves. */
module SessionLog {
  import opened Wrappers
  import opened Domain
  import opened ControlPlane
  import opened Tracking

  function SessionsBy(log: seq<LogEntry>, worker: WorkerId): (sessions: seq<SessionId>)
    ensures |sessions| == |RecordedBy(log, worker)|
  {
    if |log| == 0 then []
    else
      var e := log[|log| - 1];
      SessionsBy(log[..|log| - 1], worker) + if e.worker == worker then [e.session] else []
  }

  lemma {:induction false} RecordedGrows(log: seq<LogEntry>, longer: seq<LogEntry>, worker: WorkerId)
    requires log <= longer
    ensures RecordedBy(log, worker) <= RecordedBy(longer, worker)
    ensures SessionsBy(log, worker) <= SessionsBy(longer, worker)
    decreases |longer|
  {
    if |longer| == |log| {
      assert longer == log;
    } else {
      RecordedGrows(log, longer[..|longer| - 1], worker);
    }
  }

  lemma {:induction false} EntrySession(log: seq<LogEntry>, k: nat) returns (p: nat)
    requires k < |log|
    ensures p < |RecordedBy(log, log[k].worker)|
    ensures RecordedBy(log, log[k].worker)[p] == log[k].event && SessionsBy(log, log[k].worker)[p] == log[k].session
  {
    var n := |log| - 1;
    if k == n {
      p := |RecordedBy(log[..n], log[k].worker)|;
    } else {
      p := EntrySession(log[..n], k);
    }
  }

  lemma {:induction false} SessionEntry(log: seq<LogEntry>, worker: WorkerId, p: nat) returns (k: nat)
    requires p < |RecordedBy(log, worker)|
    ensures k < |log| && log[k].worker == worker
    ensures log[k].event == RecordedBy(log, worker)[p] && log[k].session == SessionsBy(log, worker)[p]
  {
    var n := |log| - 1;
    if p < |RecordedBy(log[..n], worker)| {
      k := SessionEntry(log[..n], worker, p);
    } else {
      k := n;
    }
  }

  /** A session recorded sequence q exactly when the worker's q-th recorded event was recorded under it. */
  lemma InSessionByPosition(s: Server, h: Histories, worker: WorkerId, session: SessionId, q: nat)
    requires PrefixRecorded(s, h) && HistoriesOk(s, h) && worker in h
    ensures InSession(s.log, worker, session, q) <==>
            1 <= q <= |RecordedBy(s.log, worker)| && SessionsBy(s.log, worker)[q - 1] == session
  {
    assert HistoryOk(worker, h[worker]);
    if InSession(s.log, worker, session, q) {
      var k :| 0 <= k < |s.log| && s.log[k].worker == worker && s.log[k].session == session && s.log[k].event.sequence == q;
      var p := EntrySession(s.log, k);
      assert RecordedBy(s.log, worker)[p] == h[worker][p];
      assert SequencedAt(worker, h[worker], p);
    }
    if 1 <= q <= |RecordedBy(s.log, worker)| && SessionsBy(s.log, worker)[q - 1] == session {
      var k := SessionEntry(s.log, worker, q - 1);
      assert RecordedBy(s.log, worker)[q - 1] == h[worker][q - 1];
      assert SequencedAt(worker, h[worker], q - 1);
    }
  }
}
