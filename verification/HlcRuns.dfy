/** Runs of any number of hybrid logical clocks exchanging timestamps, each node reading its own
    wall clock, about which nothing is assumed. */
module HlcRuns {
  import opened Hlc

  type NodeId = string

  /** A local event stamps itself with `Now`; a receive stamps itself with `Update` on the stamp of an
      earlier event; a `Seen` only witnesses such a stamp and issues none. */
  datatype Event =
    | Local(node: NodeId, now: int)
    | Receive(node: NodeId, from: nat, now: int)
    | Seen(node: NodeId, from: nat, now: int)

  /** `boot` holds the wall-clock reading each node's clock was created with. */
  datatype Run = Run(boot: map<NodeId, int>, events: seq<Event>) {
    predicate Valid()
    {
      forall i :: 0 <= i < |events| ==>
        && events[i].node in boot
        && (!events[i].Local? ==> events[i].from < i && !events[events[i].from].Seen?)
    }

    /** The latest timestamp of a node's clock just before the i-th event. */
    function ClockBefore(node: NodeId, i: nat): Timestamp
      requires Valid() && node in boot && i <= |events|
      decreases i, 0
    {
      if i == 0 then Timestamp(boot[node], 0)
      else if events[i - 1].node == node then StampOf(i - 1)
      else ClockBefore(node, i - 1)
    }

    /** The stamp the i-th event issues; for a `Seen`, the clock it leaves behind. */
    function StampOf(i: nat): Timestamp
      requires Valid() && i < |events|
      decreases i, 1
    {
      var e := events[i];
      match e
      case Local(n, now) => Ticked(ClockBefore(n, i), now)
      case Receive(n, from, now) => Updated(ClockBefore(n, i), StampOf(from), now)
      case Seen(n, from, now) => Witnessed(ClockBefore(n, i), StampOf(from), now)
    }

    /** How many of the first i events issue a stamp. */
    function Issued(i: nat): nat
      requires i <= |events|
    {
      if i == 0 then 0 else Issued(i - 1) + if events[i - 1].Seen? then 0 else 1
    }

    /** No reading taken at boot or by the first i events exceeds w. */
    ghost predicate ReadingsUpTo(i: nat, w: int)
      requires i <= |events|
    {
      && (forall n :: n in boot ==> boot[n] <= w)
      && (forall j :: 0 <= j < i ==> events[j].now <= w)
    }
  }

  // ---------- Drift and counter bounds ----------

  ghost predicate Within(t: Timestamp, physical: int, logical: int)
  {
    t.physical <= physical && 0 <= t.logical <= logical
  }

  /** A clock never runs ahead of the largest wall-clock reading taken anywhere so far, and its
      counter never exceeds the number of stamps issued anywhere so far. */
  lemma {:induction false} DriftBound(run: Run, i: nat, w: int)
    requires run.Valid() && i <= |run.events| && run.ReadingsUpTo(i, w)
    ensures forall n :: n in run.boot ==> Within(run.ClockBefore(n, i), w, run.Issued(i))
    ensures forall j :: 0 <= j < i ==> Within(run.StampOf(j), w, run.Issued(i))
    decreases i
  {
    if i > 0 {
      DriftBound(run, i - 1, w);
      var e := run.events[i - 1];
      assert Within(run.ClockBefore(e.node, i - 1), w, run.Issued(i - 1));
      assert !e.Local? ==> Within(run.StampOf(e.from), w, run.Issued(i - 1));
      assert Within(run.StampOf(i - 1), w, run.Issued(i));
    }
  }

  lemma {:induction false} IssuedBound(run: Run, i: nat)
    requires i <= |run.events|
    ensures run.Issued(i) <= i
  {
    if i > 0 { IssuedBound(run, i - 1); }
  }

  lemma {:induction false} PhysicalNeverFalls(run: Run, n: NodeId, i: nat, j: nat)
    requires run.Valid() && n in run.boot && i <= j <= |run.events|
    ensures run.ClockBefore(n, i).physical <= run.ClockBefore(n, j).physical
    decreases j
  {
    if i < j {
      PhysicalNeverFalls(run, n, i, j - 1);
    }
  }

  /** No 64-bit overflow: as long as wall clocks fit in 64 bits, so does every stamp of the first
      2^63 - 1 events. */
  lemma StampsFitInt64(run: Run, j: nat)
    requires run.Valid() && j < |run.events| < INT64_LIMIT
    requires forall n :: n in run.boot ==> IsInt64(run.boot[n])
    requires forall k :: 0 <= k < |run.events| ==> IsInt64(run.events[k].now)
    ensures IsInt64(run.StampOf(j).physical) && IsInt64(run.StampOf(j).logical)
  {
    DriftBound(run, |run.events|, INT64_LIMIT - 1);
    IssuedBound(run, |run.events|);
    PhysicalNeverFalls(run, run.events[j].node, 0, j + 1);
    assert Within(run.StampOf(j), INT64_LIMIT - 1, run.Issued(|run.events|));
  }

  // ---------- Causality ----------

  /** Event i is on j's node before j, or its stamp is the one j receives. */
  ghost predicate Precedes(run: Run, i: nat, j: nat)
  {
    && i < j < |run.events|
    && (run.events[i].node == run.events[j].node || (!run.events[j].Local? && run.events[j].from == i))
  }

  ghost predicate Path(run: Run, p: seq<nat>)
  {
    |p| >= 2 && forall k :: 0 <= k < |p| - 1 ==> Precedes(run, p[k], p[k + 1])
  }

  ghost predicate HappensBefore(run: Run, i: nat, j: nat)
  {
    exists p :: Path(run, p) && p[0] == i && p[|p| - 1] == j
  }

  /** Stamps respect happens-before. */
  ghost predicate Causal(run: Run)
    requires run.Valid()
  {
    forall i: nat, j: nat :: i < |run.events| && j < |run.events| && !run.events[j].Seen? && HappensBefore(run, i, j) ==>
      run.StampOf(i).Less(run.StampOf(j))
  }

  ghost predicate HasEarlier(run: Run, j: nat)
    requires j < |run.events|
  {
    exists i :: 0 <= i < j && run.events[i].node == run.events[j].node
  }

  /** A message reaches its node when the wall clock has caught up with the node's clock, or it carries
      a stamp not behind that clock. */
  ghost predicate ReceivesInTime(run: Run, j: nat)
    requires run.Valid() && j < |run.events|
  {
    run.events[j].Receive? ==>
      UpdateAdvances(run.ClockBefore(run.events[j].node, j), run.StampOf(run.events[j].from), run.events[j].now)
  }

  ghost predicate AllReceiveInTime(run: Run)
    requires run.Valid()
  {
    forall j: nat :: j < |run.events| && HasEarlier(run, j) ==> ReceivesInTime(run, j)
  }

  lemma WellFormedBefore(run: Run, j: nat)
    requires run.Valid() && j < |run.events|
    ensures run.ClockBefore(run.events[j].node, j).WellFormed() && run.StampOf(j).WellFormed()
  {
    var w := PeakReading(run, |run.events|);
    DriftBound(run, |run.events|, w);
    assert run.ReadingsUpTo(j, w);
    DriftBound(run, j, w);
    assert Within(run.ClockBefore(run.events[j].node, j), w, run.Issued(j));
    assert Within(run.StampOf(j), w, run.Issued(|run.events|));
  }

  lemma {:induction false} PeakOfBoot(boot: map<NodeId, int>) returns (w: int)
    ensures forall n :: n in boot ==> boot[n] <= w
    decreases |boot|
  {
    if boot.Keys == {} { return 0; }
    var n :| n in boot;
    var rest := boot - {n};
    assert rest.Keys == boot.Keys - {n};
    assert |rest.Keys| < |boot.Keys|;
    w := PeakOfBoot(rest);
    w := MaxInt(w, boot[n]);
    forall m | m in boot ensures boot[m] <= w {
      assert m != n ==> m in rest;
    }
  }

  lemma {:induction false} PeakReading(run: Run, i: nat) returns (w: int)
    requires i <= |run.events|
    ensures run.ReadingsUpTo(i, w)
  {
    if i == 0 {
      w := PeakOfBoot(run.boot);
    } else {
      w := PeakReading(run, i - 1);
      w := MaxInt(w, run.events[i - 1].now);
    }
  }

  /** A node's clock does not fall below a stamp it holds while its receives are in time. */
  lemma {:induction false} SameNodeRises(run: Run, i: nat, j: nat)
    requires run.Valid() && AllReceiveInTime(run) && i < j <= |run.events|
    ensures run.StampOf(i).LessOrEqual(run.ClockBefore(run.events[i].node, j))
    decreases j
  {
    var n := run.events[i].node;
    if i < j - 1 {
      SameNodeRises(run, i, j - 1);
      if run.events[j - 1].node == n {
        assert HasEarlier(run, j - 1) && ReceivesInTime(run, j - 1);
        WellFormedBefore(run, j - 1);
        StepRises(run, j - 1);
        LessIsTotalOrder(run.StampOf(i), run.ClockBefore(n, j - 1), run.StampOf(j - 1));
      }
    }
  }

  lemma StepRises(run: Run, j: nat)
    requires run.Valid() && j < |run.events| && ReceivesInTime(run, j)
    ensures run.ClockBefore(run.events[j].node, j).LessOrEqual(run.StampOf(j))
    ensures !run.events[j].Seen? ==> run.ClockBefore(run.events[j].node, j).Less(run.StampOf(j))
  {
    WellFormedBefore(run, j);
    if run.events[j].Receive? {
      UpdatedExactly(run.ClockBefore(run.events[j].node, j), run.StampOf(run.events[j].from), run.events[j].now);
    }
  }

  lemma PrecedesRises(run: Run, i: nat, j: nat)
    requires run.Valid() && AllReceiveInTime(run) && Precedes(run, i, j)
    ensures run.StampOf(i).LessOrEqual(run.StampOf(j))
    ensures !run.events[j].Seen? ==> run.StampOf(i).Less(run.StampOf(j))
  {
    if run.events[i].node == run.events[j].node {
      SameNodeRises(run, i, j);
      assert HasEarlier(run, j) && ReceivesInTime(run, j);
      StepRises(run, j);
    } else {
      WellFormedBefore(run, j);
      var before := run.ClockBefore(run.events[j].node, j);
      if run.events[j].Receive? {
        UpdatedExactly(before, run.StampOf(i), run.events[j].now);
      } else {
        WellFormedBefore(run, i);
        WitnessedIsJoin(before, run.StampOf(i), run.events[j].now);
      }
    }
  }

  lemma {:induction false} PathRises(run: Run, p: seq<nat>)
    requires run.Valid() && AllReceiveInTime(run) && Path(run, p)
    ensures Precedes(run, p[0], p[1]) && Precedes(run, p[|p| - 2], p[|p| - 1])
    ensures run.StampOf(p[0]).LessOrEqual(run.StampOf(p[|p| - 1]))
    ensures !run.events[p[|p| - 1]].Seen? ==> run.StampOf(p[0]).Less(run.StampOf(p[|p| - 1]))
    decreases |p|
  {
    var last := |p| - 1;
    assert Precedes(run, p[last - 1], p[last - 1 + 1]);
    assert Precedes(run, p[0], p[0 + 1]);
    PrecedesRises(run, p[last - 1], p[last]);
    if |p| > 2 {
      var q := p[..last];
      forall k | 0 <= k < |q| - 1 ensures Precedes(run, q[k], q[k + 1]) { assert Precedes(run, p[k], p[k + 1]); }
      PathRises(run, q);
      LessIsTotalOrder(run.StampOf(p[0]), run.StampOf(p[last - 1]), run.StampOf(p[last]));
    }
  }

  /** The last event on a node left the clock that the next event there finds. */
  lemma {:induction false} LastOnNode(run: Run, j: nat, bound: nat) returns (i: nat)
    requires run.Valid() && bound <= j < |run.events|
    requires exists k :: 0 <= k < bound && run.events[k].node == run.events[j].node
    ensures i < bound && run.events[i].node == run.events[j].node
    ensures run.ClockBefore(run.events[j].node, bound) == run.StampOf(i)
    decreases bound
  {
    if run.events[bound - 1].node == run.events[j].node {
      i := bound - 1;
    } else {
      i := LastOnNode(run, j, bound - 1);
    }
  }

  /** Stamps respect happens-before exactly in the runs whose receives are all in time; a node's first
      event needs no such care. */
  lemma CausalityExactly(run: Run)
    requires run.Valid()
    ensures Causal(run) <==> AllReceiveInTime(run)
  {
    if AllReceiveInTime(run) {
      forall i: nat, j: nat | i < |run.events| && j < |run.events| && !run.events[j].Seen? && HappensBefore(run, i, j)
        ensures run.StampOf(i).Less(run.StampOf(j))
      {
        var p :| Path(run, p) && p[0] == i && p[|p| - 1] == j;
        PathRises(run, p);
      }
    }
    if Causal(run) {
      forall j: nat | j < |run.events| && HasEarlier(run, j)
        ensures ReceivesInTime(run, j)
      {
        if run.events[j].Receive? {
          var i := LastOnNode(run, j, j);
          assert Path(run, [i, j]);
          assert HappensBefore(run, i, j) by { assert [i, j][0] == i && [i, j][|[i, j]| - 1] == j; }
          WellFormedBefore(run, j);
          UpdatedExactly(run.ClockBefore(run.events[j].node, j), run.StampOf(run.events[j].from), run.events[j].now);
        }
      }
    }
  }

  /** With one wall clock that never runs backwards, every receive is in time. */
  lemma SharedWallIsCausal(run: Run)
    requires run.Valid()
    requires forall n, j :: n in run.boot && 0 <= j < |run.events| ==> run.boot[n] <= run.events[j].now
    requires forall i, j :: 0 <= i < j < |run.events| ==> run.events[i].now <= run.events[j].now
    ensures Causal(run)
  {
    forall j: nat | j < |run.events| && HasEarlier(run, j)
      ensures ReceivesInTime(run, j)
    {
      DriftBound(run, j, run.events[j].now);
      assert Within(run.ClockBefore(run.events[j].node, j), run.events[j].now, run.Issued(j));
    }
    CausalityExactly(run);
  }
}
