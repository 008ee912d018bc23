/** Whether a metric has stalled: the best improvement over the earliest sample of a window. */
module Stall {
  import opened Domain

  datatype Observation = Observation(value: real, at: int)

  /** How much a value improves on the first one. */
  function Improvement(mode: HealthMode, first: real, value: real): real {
    if mode.ModeMin? then first - value else value - first
  }

  /** The rows observed no earlier than the cutoff, in row order. */
  function InWindow(rows: seq<Observation>, cutoff: int): seq<Observation> {
    if |rows| == 0 then []
    else InWindow(rows[..|rows| - 1], cutoff) + if rows[|rows| - 1].at < cutoff then [] else [rows[|rows| - 1]]
  }

  /** The earliest observation; the first row among equally early ones. */
  function Earliest(window: seq<Observation>): (first: Observation)
    requires |window| > 0
    ensures first in window && forall k :: 0 <= k < |window| ==> first.at <= window[k].at
  {
    if |window| == 1 then window[0]
    else
      var before := Earliest(window[..|window| - 1]);
      if window[|window| - 1].at < before.at then window[|window| - 1] else before
  }

  /** No observation of the window, the earliest included, improves on the earliest by the delta or more. */
  predicate Stalled(window: seq<Observation>, mode: HealthMode, minimumDelta: real) {
    |window| >= 2 &&
    forall k :: 0 <= k < |window| ==> Improvement(mode, Earliest(window).value, window[k].value) < minimumDelta
  }

  predicate Sorted(s: seq<Observation>) {
    forall i, k :: 0 <= i < k < |s| ==> s[i].at <= s[k].at
  }

  method Insert(sorted: seq<Observation>, o: Observation) returns (more: seq<Observation>)
    requires Sorted(sorted)
    ensures Sorted(more) && |more| == |sorted| + 1
    ensures forall x :: x in more <==> x == o || x in sorted
    ensures more[0] == if |sorted| == 0 || o.at < sorted[0].at then o else sorted[0]
  {
    var i := |sorted|;
    while i > 0 && o.at < sorted[i - 1].at
      invariant 0 <= i <= |sorted|
      invariant forall k :: i <= k < |sorted| ==> o.at < sorted[k].at
    {
      i := i - 1;
    }
    more := Splice(sorted, o, i);
    SpliceAt(sorted, o, i);
    SpliceElements(sorted, o, i);
    forall k | 0 <= k < i ensures sorted[k].at <= o.at {
      assert k < i - 1 ==> sorted[k].at <= sorted[i - 1].at;
    }
    SpliceSorted(sorted, o, i);
  }

  function Splice(sorted: seq<Observation>, o: Observation, i: nat): seq<Observation>
    requires i <= |sorted|
  {
    sorted[..i] + [o] + sorted[i..]
  }

  lemma SpliceAt(sorted: seq<Observation>, o: Observation, i: nat)
    requires i <= |sorted|
    ensures |Splice(sorted, o, i)| == |sorted| + 1
    ensures forall k :: 0 <= k <= |sorted| ==>
              Splice(sorted, o, i)[k] == if k < i then sorted[k] else if k == i then o else sorted[k - 1]
  {
  }

  lemma SpliceElements(sorted: seq<Observation>, o: Observation, i: nat)
    requires i <= |sorted|
    ensures forall x :: x in Splice(sorted, o, i) <==> x == o || x in sorted
  {
    assert sorted == sorted[..i] + sorted[i..];
  }

  lemma SpliceSorted(sorted: seq<Observation>, o: Observation, i: nat)
    requires Sorted(sorted) && i <= |sorted|
    requires forall k :: 0 <= k < i ==> sorted[k].at <= o.at
    requires forall k :: i <= k < |sorted| ==> o.at < sorted[k].at
    ensures Sorted(Splice(sorted, o, i))
  {
    SpliceAt(sorted, o, i);
    var more := Splice(sorted, o, i);
    forall a, b | 0 <= a < b < |more| ensures more[a].at <= more[b].at {
      var left := if a < i then sorted[a] else if a == i then o else sorted[a - 1];
      assert more[a] == left;
    }
  }

  /** One more row of the table. */
  lemma WindowStep(rows: seq<Observation>, i: nat, cutoff: int)
    requires i < |rows|
    ensures var window, more := InWindow(rows[..i], cutoff), InWindow(rows[..i + 1], cutoff);
            if rows[i].at < cutoff then more == window
            else
              && more == window + [rows[i]]
              && Earliest(more) == if |window| == 0 || rows[i].at < Earliest(window).at then rows[i] else Earliest(window)
  {
    assert rows[..i + 1][..i] == rows[..i];
    var window, more := InWindow(rows[..i], cutoff), InWindow(rows[..i + 1], cutoff);
    if rows[i].at >= cutoff {
      assert more[..|more| - 1] == window;
    }
  }

  /** The observations of the window, sorted by time. */
  method Observe(rows: seq<Observation>, cutoff: int) returns (sorted: seq<Observation>)
    ensures Sorted(sorted) && |sorted| == |InWindow(rows, cutoff)|
    ensures forall x :: x in sorted <==> x in InWindow(rows, cutoff)
    ensures |sorted| > 0 ==> sorted[0] == Earliest(InWindow(rows, cutoff))
  {
    sorted := [];
    var i := 0;
    while i < |rows|
      invariant 0 <= i <= |rows| && Sorted(sorted)
      invariant |sorted| == |InWindow(rows[..i], cutoff)|
      invariant forall x :: x in sorted <==> x in InWindow(rows[..i], cutoff)
      invariant |sorted| > 0 ==> sorted[0] == Earliest(InWindow(rows[..i], cutoff))
    {
      WindowStep(rows, i, cutoff);
      if rows[i].at >= cutoff {
        sorted := Insert(sorted, rows[i]);
      }
      i := i + 1;
    }
    assert rows[..i] == rows;
  }

  /**
   The stall test as the source runs it: sort the window, keep the best value, compare its improvement.
   The delta it reports is the largest improvement, never negative.
   */
  method MetricStalled(rows: seq<Observation>, mode: HealthMode, minimumDelta: real, cutoff: int)
    returns (stalled: bool, delta: real, count: nat)
    ensures count == |InWindow(rows, cutoff)|
    ensures stalled <==> Stalled(InWindow(rows, cutoff), mode, minimumDelta)
    ensures delta >= 0.0
    ensures count < 2 ==> delta == 0.0
    ensures count >= 2 ==>
              var window := InWindow(rows, cutoff);
              && (forall k :: 0 <= k < |window| ==> Improvement(mode, Earliest(window).value, window[k].value) <= delta)
              && (exists k :: 0 <= k < |window| && Improvement(mode, Earliest(window).value, window[k].value) == delta)
  {
    var observations := Observe(rows, cutoff);
    ghost var window := InWindow(rows, cutoff);
    if |observations| < 2 {
      return false, 0.0, |observations|;
    }
    var first := observations[0].value;
    var best := first;
    var i := 1;
    while i < |observations|
      invariant 1 <= i <= |observations|
      invariant forall k :: 0 <= k < i ==> Improvement(mode, first, observations[k].value) <= Improvement(mode, first, best)
      invariant exists k :: 0 <= k < i && observations[k].value == best
    {
      var value := observations[i].value;
      if mode.ModeMax? && value > best {
        best := value;
      }
      if mode.ModeMin? && value < best {
        best := value;
      }
      i := i + 1;
    }
    delta := best - first;
    if mode.ModeMin? {
      delta := first - best;
    }
    stalled, count := delta < minimumDelta, |observations|;
    var b :| 0 <= b < |observations| && observations[b].value == best;
    assert observations[b] in window;
    forall k | 0 <= k < |window| ensures Improvement(mode, first, window[k].value) <= delta {
      assert window[k] in observations;
    }
    assert Improvement(mode, first, first) <= delta;
  }

  lemma SameElements(a: seq<Observation>, b: seq<Observation>)
    requires multiset(a) == multiset(b)
    ensures forall x :: x in a <==> x in b
  {
    forall x ensures x in a <==> x in b {
      assert x in a <==> x in multiset(a);
      assert x in b <==> x in multiset(b);
    }
  }

  /**
   In words: a positive delta is required, and no later observation rises above the earliest by it, or falls below
   it when a smaller value is the better one.
   */
  lemma StalledMeans(window: seq<Observation>, mode: HealthMode, minimumDelta: real)
    ensures Stalled(window, mode, minimumDelta) <==>
            && |window| >= 2 && minimumDelta > 0.0
            && forall o :: o in window && o != Earliest(window) ==>
                 if mode == ModeMin then o.value > Earliest(window).value - minimumDelta
                 else o.value < Earliest(window).value + minimumDelta
  {
    if |window| >= 2 {
      var first := Earliest(window);
      var e :| 0 <= e < |window| && window[e] == first;
      assert Improvement(mode, first.value, window[e].value) == 0.0;
    }
  }

  /** The window holds exactly the rows from the cutoff on, as often as the table does. */
  lemma {:induction false} WindowIsExact(rows: seq<Observation>, cutoff: int, o: Observation)
    ensures multiset(InWindow(rows, cutoff))[o] == if o.at >= cutoff then multiset(rows)[o] else 0
  {
    if |rows| > 0 {
      var last := |rows| - 1;
      WindowIsExact(rows[..last], cutoff, o);
      assert rows == rows[..last] + [rows[last]];
    }
  }

  function Negated(rows: seq<Observation>): seq<Observation> {
    if |rows| == 0 then []
    else Negated(rows[..|rows| - 1]) + [Observation(-rows[|rows| - 1].value, rows[|rows| - 1].at)]
  }

  lemma {:induction false} NegatedAt(rows: seq<Observation>)
    ensures |Negated(rows)| == |rows|
    ensures forall k :: 0 <= k < |rows| ==> Negated(rows)[k] == Observation(-rows[k].value, rows[k].at)
  {
    if |rows| > 0 {
      NegatedAt(rows[..|rows| - 1]);
    }
  }

  lemma {:induction false} EarliestNegated(window: seq<Observation>)
    requires |window| > 0
    ensures |Negated(window)| == |window|
    ensures Earliest(Negated(window)) == Observation(-Earliest(window).value, Earliest(window).at)
  {
    NegatedAt(window);
    if |window| > 1 {
      EarliestNegated(window[..|window| - 1]);
      NegatedAt(window[..|window| - 1]);
      assert Negated(window)[..|window| - 1] == Negated(window[..|window| - 1]);
    }
  }

  /** Minimizing a series is maximizing its negation. */
  lemma MinIsMaxOfNegation(window: seq<Observation>, minimumDelta: real)
    ensures Stalled(window, ModeMin, minimumDelta) <==> Stalled(Negated(window), ModeMax, minimumDelta)
  {
    NegatedAt(window);
    if |window| >= 2 {
      EarliestNegated(window);
      var first := Earliest(window).value;
      forall k | 0 <= k < |window|
        ensures Improvement(ModeMin, first, window[k].value) == Improvement(ModeMax, -first, Negated(window)[k].value)
      {
      }
    }
  }

  predicate DistinctTimes(window: seq<Observation>) {
    forall i, k :: 0 <= i < k < |window| ==> window[i].at != window[k].at
  }

  /** With distinct timestamps the order of the rows does not matter. */
  lemma StallIgnoresRowOrder(a: seq<Observation>, b: seq<Observation>, mode: HealthMode, minimumDelta: real)
    requires multiset(a) == multiset(b) && DistinctTimes(a)
    ensures Stalled(a, mode, minimumDelta) <==> Stalled(b, mode, minimumDelta)
  {
    SameElements(a, b);
    assert |multiset(a)| == |multiset(b)|;
    assert |a| == |b|;
    if |a| >= 2 {
      var first := Earliest(a);
      assert first in b && Earliest(b) in a;
      assert first.at == Earliest(b).at by {
        var i :| 0 <= i < |b| && b[i] == first;
        var k :| 0 <= k < |a| && a[k] == Earliest(b);
      }
      assert first == Earliest(b);
      forall k | 0 <= k < |b| && Stalled(a, mode, minimumDelta)
        ensures Improvement(mode, first.value, b[k].value) < minimumDelta
      {
        assert b[k] in a;
      }
      forall k | 0 <= k < |a| && Stalled(b, mode, minimumDelta)
        ensures Improvement(mode, first.value, a[k].value) < minimumDelta
      {
        assert a[k] in b;
      }
    }
  }
}
