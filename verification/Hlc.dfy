/** Hybrid logical clocks: timestamps, their order, and the three ways a clock advances.

    Every reading of the machine's wall clock is a parameter called `now`; nothing is assumed
    about it, so it may also run backwards. */
module Hlc {

  datatype Timestamp = Timestamp(physical: int, logical: int) {

    predicate Less(other: Timestamp)
    {
      if physical != other.physical then physical < other.physical else logical < other.logical
    }

    predicate Equal(other: Timestamp)
    {
      physical == other.physical && logical == other.logical
    }

    predicate LessOrEqual(other: Timestamp)
    {
      Less(other) || Equal(other)
    }

    predicate ConcurrentWith(other: Timestamp)
    {
      !Less(other) && !other.Less(this)
    }

    /** Logical counters start at zero and only a foreign encoding could make one negative. */
    predicate WellFormed()
    {
      logical >= 0
    }
  }

  function Max(a: Timestamp, b: Timestamp): (r: Timestamp)
    ensures r == a || r == b
    ensures a.LessOrEqual(r) && b.LessOrEqual(r)
  {
    if a.Less(b) then b else a
  }

  function Min(a: Timestamp, b: Timestamp): (r: Timestamp)
    ensures r == a || r == b
    ensures r.LessOrEqual(a) && r.LessOrEqual(b)
  {
    if a.Less(b) then a else b
  }

  function MaxInt(a: int, b: int): int
  {
    if a < b then b else a
  }

  // ---------- What each operation does to the latest timestamp ----------

  function Ticked(latest: Timestamp, now: int): Timestamp
  {
    if now > latest.physical then Timestamp(now, 0) else latest.(logical := latest.logical + 1)
  }

  function Updated(latest: Timestamp, received: Timestamp, now: int): Timestamp
  {
    var top := MaxInt(MaxInt(now, received.physical), latest.physical);
    var busy := top == now == latest.physical;  // the wall clock has not moved past this clock
    var logical :=
      if received.physical == top then
        1 + (if busy then MaxInt(latest.logical, received.logical) else received.logical)
      else
        if busy then latest.logical + 1 else 0;
    Timestamp(top, logical)
  }

  function Witnessed(latest: Timestamp, received: Timestamp, now: int): Timestamp
  {
    var seen := Max(latest, received);
    if now > seen.physical then Timestamp(now, 0) else seen
  }

  class Clock {
    var latest: Timestamp
    const nodeId: string

    constructor (nodeId: string, now: int)
      ensures this.nodeId == nodeId && latest == Timestamp(now, 0)
    {
      this.nodeId := nodeId;
      latest := Timestamp(now, 0);
    }

    method Now(now: int) returns (t: Timestamp)
      modifies this
      ensures t == latest == Ticked(old(latest), now)
    {
      if now > latest.physical {
        latest := Timestamp(now, 0);
      } else {
        latest := latest.(logical := latest.logical + 1);
      }
      return latest;
    }

    method Update(received: Timestamp, now: int) returns (t: Timestamp)
      modifies this
      ensures t == latest == Updated(old(latest), received, now)
    {
      var maxPhysical := now;
      if received.physical > maxPhysical {
        maxPhysical := received.physical;
      }
      if latest.physical > maxPhysical {
        maxPhysical := latest.physical;
      }

      var newLogical;
      if maxPhysical == now && maxPhysical == latest.physical && maxPhysical == received.physical {
        newLogical := latest.logical;
        if received.logical > newLogical {
          newLogical := received.logical;
        }
        newLogical := newLogical + 1;
      } else if maxPhysical == latest.physical && maxPhysical == now {
        newLogical := latest.logical + 1;
      } else if maxPhysical == received.physical {
        newLogical := received.logical + 1;
      } else {
        newLogical := 0;
      }

      latest := Timestamp(maxPhysical, newLogical);
      return latest;
    }

    method Witness(received: Timestamp, now: int)
      modifies this
      ensures latest == Witnessed(old(latest), received, now)
    {
      if received.physical > latest.physical ||
         (received.physical == latest.physical && received.logical > latest.logical) {
        latest := received;
      }
      if now > latest.physical {
        latest := Timestamp(now, 0);
      }
    }
  }

  // ---------- What the operations mean ----------

  /** `Now` issues the least well-formed timestamp that lies above everything this clock has issued
      and is not behind the wall clock. */
  lemma TickedIsLeast(latest: Timestamp, now: int, t: Timestamp)
    requires latest.WellFormed()
    ensures latest.Less(Ticked(latest, now)) && now <= Ticked(latest, now).physical
    ensures t.WellFormed() && latest.Less(t) && now <= t.physical ==> Ticked(latest, now).LessOrEqual(t)
  {
  }

  /** `Witness` is the join of the clock, the received stamp and the wall clock's own stamp. */
  lemma WitnessedIsJoin(latest: Timestamp, received: Timestamp, now: int)
    requires latest.WellFormed() && received.WellFormed()
    ensures Witnessed(latest, received, now) == Max(Max(latest, received), Timestamp(now, 0))
  {
  }

  /** The hypothesis under which receiving a message moves the clock forward. */
  predicate UpdateAdvances(latest: Timestamp, received: Timestamp, now: int)
  {
    latest.physical <= now || latest.LessOrEqual(received)
  }

  lemma UpdatedExactly(latest: Timestamp, received: Timestamp, now: int)
    requires latest.WellFormed()
    ensures received.Less(Updated(latest, received, now))
    ensures latest.Less(Updated(latest, received, now)) <==> UpdateAdvances(latest, received, now)
    ensures latest.physical <= Updated(latest, received, now).physical
  {
  }

  /** `Update` issues the least well-formed timestamp that lies above the received one, is behind neither the
      wall clock nor the clock's own physical part, and, where it advances, lies above everything issued. */
  lemma UpdatedIsLeast(latest: Timestamp, received: Timestamp, now: int, t: Timestamp)
    requires latest.WellFormed() && received.WellFormed()
    ensures Updated(latest, received, now).WellFormed() && now <= Updated(latest, received, now).physical
    ensures t.WellFormed() && received.Less(t) && now <= t.physical && latest.physical <= t.physical
              && (UpdateAdvances(latest, received, now) ==> latest.Less(t))
            ==> Updated(latest, received, now).LessOrEqual(t)
  {
  }

  /** The clock of a node whose wall clock lags can be set back by a message. */
  lemma UpdateCanGoBack()
    ensures var latest := Timestamp(10, 7);
            && Updated(latest, Timestamp(5, 3), 8) == Timestamp(10, 0)
            && Updated(latest, Timestamp(10, 2), 8) == Timestamp(10, 3)
            && Timestamp(10, 3).Less(latest)
  {
  }

  // ---------- 64-bit counters ----------

  const INT64_LIMIT: int := 0x8000_0000_0000_0000

  predicate IsInt64(x: int)
  {
    -INT64_LIMIT <= x < INT64_LIMIT
  }

  function Wrap64(x: int): (r: int)
    ensures IsInt64(r) && (r == x <==> IsInt64(x))
  {
    (x + INT64_LIMIT) % (2 * INT64_LIMIT) - INT64_LIMIT
  }

  /** The counter the clock stores when it adds one to a 64-bit counter. */
  function Wrapped(t: Timestamp): Timestamp
  {
    t.(logical := Wrap64(t.logical))
  }

  predicate FitsInt64(t: Timestamp)
  {
    IsInt64(t.physical) && IsInt64(t.logical)
  }

  /** The update adds one to a full counter: the received one, or the clock's own. */
  predicate Overflows(latest: Timestamp, received: Timestamp, now: int)
  {
    var top := MaxInt(MaxInt(now, received.physical), latest.physical);
    || (received.physical == top && received.logical == INT64_LIMIT - 1)
    || (latest.physical == now == top && latest.logical == INT64_LIMIT - 1)
  }

  /** With wrap-around an update exceeds the received stamp exactly when it does not overflow at that stamp's
      own instant.  Only a counter no run reaches, from a foreign message, can bring this about. */
  lemma WrappedUpdateExactly(latest: Timestamp, received: Timestamp, now: int)
    requires latest.WellFormed() && FitsInt64(latest) && FitsInt64(received) && IsInt64(now)
    ensures var r := Wrapped(Updated(latest, received, now));
            && (r == Updated(latest, received, now) <==> !Overflows(latest, received, now))
            && (received.Less(r) <==> !(Overflows(latest, received, now) && r.physical == received.physical))
            && (latest.Less(r) <==> UpdateAdvances(latest, received, now) && !(Overflows(latest, received, now) && r.physical == latest.physical))
  {
    WrapLimit();
  }

  lemma WrapLimit()
    ensures Wrap64(INT64_LIMIT) == -INT64_LIMIT
  {
  }

  lemma WrappedTickExactly(latest: Timestamp, now: int)
    requires latest.WellFormed() && FitsInt64(latest) && IsInt64(now)
    ensures latest.Less(Wrapped(Ticked(latest, now))) <==> latest.physical < now || latest.logical < INT64_LIMIT - 1
  {
    WrapLimit();
  }

  // ---------- Any mix of calls on one clock ----------

  datatype Call = CallNow(now: int) | CallUpdate(received: Timestamp, now: int) | CallWitness(received: Timestamp, now: int)

  function After(latest: Timestamp, call: Call): Timestamp
  {
    match call
    case CallNow(now) => Ticked(latest, now)
    case CallUpdate(received, now) => Updated(latest, received, now)
    case CallWitness(received, now) => Witnessed(latest, received, now)
  }

  function AfterAll(latest: Timestamp, calls: seq<Call>): Timestamp
  {
    if calls == [] then latest else After(AfterAll(latest, calls[..|calls| - 1]), calls[|calls| - 1])
  }

  predicate WellFormedCall(call: Call)
  {
    call.CallNow? || call.received.WellFormed()
  }

  /** A call issues a stamp unless it is a `Witness`. */
  ghost predicate Issues(call: Call)
  {
    !call.CallWitness?
  }

  /** The i-th call finds the clock in a state where it cannot be set back. */
  ghost predicate Advances(latest: Timestamp, calls: seq<Call>, i: nat)
    requires i < |calls|
  {
    calls[i].CallUpdate? ==> UpdateAdvances(AfterAll(latest, calls[..i]), calls[i].received, calls[i].now)
  }

  lemma {:induction false} RunsStayWellFormed(latest: Timestamp, calls: seq<Call>)
    requires latest.WellFormed()
    requires forall c :: c in calls ==> WellFormedCall(c)
    ensures AfterAll(latest, calls).WellFormed()
  {
    if calls != [] {
      RunsStayWellFormed(latest, calls[..|calls| - 1]);
      assert WellFormedCall(calls[|calls| - 1]);
    }
  }

  /** The stamp issued by the i-th call, if any, exceeds the clock it was drawn from. */
  ghost predicate IssuesAbove(latest: Timestamp, calls: seq<Call>, i: nat)
    requires i < |calls|
  {
    Issues(calls[i]) ==> AfterAll(latest, calls[..i]).Less(AfterAll(latest, calls[..i + 1]))
  }

  /** Over any run, every issued stamp exceeds the clock it was drawn from exactly when no `Update`
      is met by a lagging wall clock and a stale message; `Now` and `Witness` never go back. */
  lemma RunMonotoneExactly(latest: Timestamp, calls: seq<Call>)
    requires latest.WellFormed()
    requires forall c :: c in calls ==> WellFormedCall(c)
    ensures (forall i :: 0 <= i < |calls| ==> IssuesAbove(latest, calls, i))
       <==> (forall i :: 0 <= i < |calls| ==> Advances(latest, calls, i))
    ensures forall i :: 0 <= i < |calls| && !calls[i].CallUpdate? ==>
              AfterAll(latest, calls[..i]).LessOrEqual(AfterAll(latest, calls[..i + 1]))
  {
    forall i | 0 <= i < |calls|
      ensures IssuesAbove(latest, calls, i) <==> Advances(latest, calls, i)
      ensures !calls[i].CallUpdate? ==>
        AfterAll(latest, calls[..i]).LessOrEqual(AfterAll(latest, calls[..i + 1]))
    {
      RunsStayWellFormed(latest, calls[..i]);
      assert calls[..i + 1][..i] == calls[..i];
    }
  }

  // ---------- The order ----------

  lemma LessIsTotalOrder(a: Timestamp, b: Timestamp, c: Timestamp)
    ensures a.Less(b) || a == b || b.Less(a)
    ensures !(a.Less(b) && b.Less(a))
    ensures a.Less(b) && b.Less(c) ==> a.Less(c)
    ensures a.ConcurrentWith(b) <==> a == b
  {
  }

  // ---------- Maximum of a finite set of timestamps ----------

  ghost predicate IsMaximum(t: Timestamp, s: set<Timestamp>)
  {
    t in s && forall u :: u in s ==> u.LessOrEqual(t)
  }

  lemma {:induction false} MaximumExists(s: set<Timestamp>)
    requires s != {}
    ensures exists t :: IsMaximum(t, s)
    decreases |s|
  {
    var x :| x in s;
    if s == {x} {
      assert IsMaximum(x, s);
    } else {
      var rest := s - {x};
      assert s == rest + {x};
      MaximumExists(rest);
      var t :| IsMaximum(t, rest);
      assert IsMaximum(Max(t, x), s);
    }
  }

  ghost function Maximum(s: set<Timestamp>): (t: Timestamp)
    requires s != {}
    ensures IsMaximum(t, s)
  {
    MaximumExists(s);
    var t :| IsMaximum(t, s);
    t
  }

  lemma MaximumIs(t: Timestamp, s: set<Timestamp>)
    requires IsMaximum(t, s)
    ensures Maximum(s) == t
  {
    assert Maximum(s).LessOrEqual(t) && t.LessOrEqual(Maximum(s));
  }
}
