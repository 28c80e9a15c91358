/** Garbage collection cannot be observed by the local users of a manager. */
module Collection {
  import opened Options
  import opened Lww
  import opened Crdt
  import opened Store

  // ---------- Observations ----------

  /** Equal but for the timestamp: the clocks of a collecting and a non-collecting manager drift apart. */
  predicate SameSession(x: Session, y: Session)
  {
    x.(ts := y.ts) == y
  }

  predicate SameLock(x: Lock, y: Lock)
  {
    x.(ts := y.ts) == y
  }

  predicate SameOut(x: Out, y: Out)
  {
    match (x, y)
    case (Found(Some(a)), Found(Some(b))) => SameSession(a, b)
    case _ => x == y
  }

  predicate SameOuts(xs: seq<Out>, ys: seq<Out>)
  {
    |xs| == |ys| && forall i :: 0 <= i < |xs| ==> SameOut(xs[i], ys[i])
  }

  /** What a run of operations answers; collections answer nothing. */
  function Outs(s: Store, ops: seq<Op>): seq<Out>
    decreases |ops|
  {
    if ops == [] then []
    else
      var (s', out) := Step(s, ops[0]);
      (if ops[0].Collect? then [] else [out]) + Outs(s', ops[1..])
  }

  function WithoutCollect(ops: seq<Op>): seq<Op>
  {
    if ops == [] then []
    else (if ops[0].Collect? then [] else [ops[0]]) + WithoutCollect(ops[1..])
  }

  predicate AllTimed(ops: seq<Op>, from: int)
    decreases |ops|
  {
    ops == [] || (Timed(ops[0], from) && AllTimed(ops[1..], EndOf(ops[0], from)))
  }

  // ---------- The simulation ----------

  /** The collecting manager holds the same entries as the other but for some that are already invisible. */
  ghost predicate SessionsAgree(a: map<string, Session>, b: map<string, Session>, now: int)
  {
    && (forall id :: id in a ==> id in b && SameSession(a[id], b[id]))
    && (forall id :: id in b && id !in a ==> !b[id].VisibleAt(now))
  }

  ghost predicate LocksAgree(a: map<string, Lock>, b: map<string, Lock>, now: int)
  {
    && (forall key :: key in a ==> key in b && SameLock(a[key], b[key]))
    && (forall key :: key in b && key !in a ==> b[key].DeadAt(now))
  }

  ghost predicate MetaAgrees(a: map<string, Register>, b: map<string, Register>)
  {
    a.Keys == b.Keys && forall key :: key in a ==> a[key].value == b[key].value
  }

  ghost predicate EntriesAgree(a: Store, b: Store, now: int)
  {
    SessionsAgree(a.sessions, b.sessions, now) && LocksAgree(a.locks, b.locks, now) && MetaAgrees(a.meta, b.meta)
  }

  ghost predicate Simulates(a: Store, b: Store, now: int)
  {
    a.node == b.node && Dominates(a) && Dominates(b) && EntriesAgree(a, b, now)
  }

  lemma LaterAgree(a: Store, b: Store, now: int, later: int)
    requires now <= later && EntriesAgree(a, b, now)
    ensures EntriesAgree(a, b, later)
  {
  }

  ghost predicate Agree(a: Store, b: Store, op: Op, now: int)
  {
    EntriesAgree(Step(a, op).0, Step(b, op).0, EndOf(op, now)) && SameOut(Step(a, op).1, Step(b, op).1)
  }

  /** What an operation does not touch. */
  lemma Frame(s: Store, op: Op)
    requires !op.Collect?
    ensures !op.SaveSession? && !op.CreateSession? && !op.DeleteSession? && !op.GetSession? ==> Step(s, op).0.sessions == s.sessions
    ensures !op.AcquireLock? && !op.ReleaseLock? ==> Step(s, op).0.locks == s.locks
    ensures !op.SetMeta? ==> Step(s, op).0.meta == s.meta
  {
  }

  lemma WritesAgree(a: Store, b: Store, op: Op, now: int)
    requires a.node == b.node && Dominates(a) && Dominates(b) && SessionsAgree(a.sessions, b.sessions, now)
    requires op.SaveSession? || op.CreateSession?
    ensures SessionsAgree(Step(a, op).0.sessions, Step(b, op).0.sessions, now)
  {
    if op.SaveSession? {
      LocalWritesWin(a, op.session, "", "", op.now);
      LocalWritesWin(b, op.session, "", "", op.now);
    } else {
      CreatedWins(a, op);
      CreatedWins(b, op);
    }
  }

  lemma DeletesAgree(a: Store, b: Store, id: string, now: int)
    requires a.node == b.node && SessionsAgree(a.sessions, b.sessions, now)
    ensures SessionsAgree(Deleted(a, id, now).sessions, Deleted(b, id, now).sessions, now)
  {
  }

  lemma ReadsAgree(a: Store, b: Store, id: string, now: int)
    requires SessionsAgree(a.sessions, b.sessions, now)
    ensures SessionsAgree(Fetched(a, id, now).0.sessions, Fetched(b, id, now).0.sessions, now)
    ensures SameOut(Found(Fetched(a, id, now).1), Found(Fetched(b, id, now).1))
  {
  }

  lemma AcquiresAgree(a: Store, b: Store, op: Op)
    requires a.node == b.node && op.AcquireLock? && LocksAgree(a.locks, b.locks, op.check)
    ensures LocksAgree(Step(a, op).0.locks, Step(b, op).0.locks, op.check) && Step(a, op).1 == Step(b, op).1
  {
    assert op.key in a.locks ==> a.locks[op.key].DeadAt(op.check) == b.locks[op.key].DeadAt(op.check);
  }

  lemma ReleasesAgree(a: Store, b: Store, op: Op)
    requires a.node == b.node && op.ReleaseLock? && LocksAgree(a.locks, b.locks, op.check)
    ensures LocksAgree(Step(a, op).0.locks, Step(b, op).0.locks, op.check)
  {
    assert op.key in a.locks ==> a.locks[op.key].HeldByAt(op.holder, op.check) == b.locks[op.key].HeldByAt(op.holder, op.check);
  }

  lemma LockReadsAgree(a: Store, b: Store, op: Op, now: int)
    requires LocksAgree(a.locks, b.locks, now) && Timed(op, now) && (op.IsLockHeld? || op.IsLockHeldBy?)
    ensures Step(a, op).1 == Step(b, op).1
  {
  }

  lemma MetaOpsAgree(a: Store, b: Store, op: Op)
    requires Dominates(a) && Dominates(b) && MetaAgrees(a.meta, b.meta) && (op.SetMeta? || op.GetMeta?)
    ensures MetaAgrees(Step(a, op).0.meta, Step(b, op).0.meta) && Step(a, op).1 == Step(b, op).1
  {
    if op.SetMeta? {
      LocalWritesWin(a, Session("", [], 0, 0, 0, "", 0, a.clock, "", false), op.key, op.value, op.now);
      LocalWritesWin(b, Session("", [], 0, 0, 0, "", 0, b.clock, "", false), op.key, op.value, op.now);
    }
  }

  lemma SessionOpsAgree(a: Store, b: Store, op: Op, now: int)
    requires Simulates(a, b, now) && Timed(op, now)
    requires op.SaveSession? || op.CreateSession? || op.DeleteSession? || op.GetSession?
    ensures Agree(a, b, op, now)
  {
    LaterAgree(a, b, now, EndOf(op, now));
    Frame(a, op);
    Frame(b, op);
    match op
    case DeleteSession(id, at) => DeletesAgree(a, b, id, at);
    case GetSession(id, at) => ReadsAgree(a, b, id, at);
    case _ => WritesAgree(a, b, op, EndOf(op, now));
  }

  lemma AcquireAgrees(a: Store, b: Store, op: Op, now: int)
    requires Simulates(a, b, now) && Timed(op, now) && op.AcquireLock?
    ensures Agree(a, b, op, now)
  {
    LaterAgree(a, b, now, op.check);
    Frame(a, op);
    Frame(b, op);
    AcquiresAgree(a, b, op);
  }

  lemma ReleaseAgrees(a: Store, b: Store, op: Op, now: int)
    requires Simulates(a, b, now) && Timed(op, now) && op.ReleaseLock?
    ensures Agree(a, b, op, now)
  {
    LaterAgree(a, b, now, op.check);
    Frame(a, op);
    Frame(b, op);
    ReleasesAgree(a, b, op);
    LaterAgree(Step(a, op).0, Step(b, op).0, op.check, op.now);
  }

  lemma OtherOpsAgree(a: Store, b: Store, op: Op, now: int)
    requires Simulates(a, b, now) && Timed(op, now)
    requires op.IsLockHeld? || op.IsLockHeldBy? || op.SetMeta? || op.GetMeta?
    ensures Agree(a, b, op, now)
  {
    LaterAgree(a, b, now, EndOf(op, now));
    Frame(a, op);
    Frame(b, op);
    if op.IsLockHeld? || op.IsLockHeldBy? { LockReadsAgree(a, b, op, now); } else { MetaOpsAgree(a, b, op); }
  }

  lemma OpAgrees(a: Store, b: Store, op: Op, now: int)
    requires Simulates(a, b, now) && Timed(op, now) && !op.Collect?
    ensures Agree(a, b, op, now)
  {
    match op
    case AcquireLock(_, _, _, _, _, _) => AcquireAgrees(a, b, op, now);
    case ReleaseLock(_, _, _, _) => ReleaseAgrees(a, b, op, now);
    case IsLockHeld(_, _, _) => OtherOpsAgree(a, b, op, now);
    case IsLockHeldBy(_, _, _, _) => OtherOpsAgree(a, b, op, now);
    case SetMeta(_, _, _) => OtherOpsAgree(a, b, op, now);
    case GetMeta(_) => OtherOpsAgree(a, b, op, now);
    case _ => SessionOpsAgree(a, b, op, now);
  }

  /** An operation both managers run gets the same answer and keeps them in agreement. */
  lemma StepAgrees(a: Store, b: Store, op: Op, now: int)
    requires Simulates(a, b, now) && Timed(op, now) && !op.Collect?
    ensures Simulates(Step(a, op).0, Step(b, op).0, EndOf(op, now))
    ensures SameOut(Step(a, op).1, Step(b, op).1)
  {
    LocalStep(a, op);
    LocalStep(b, op);
    OpAgrees(a, b, op, now);
  }

  /** Collecting drops only entries that are already invisible and stay so. */
  lemma CollectAgrees(a: Store, b: Store, op: Op, now: int)
    requires Simulates(a, b, now) && Timed(op, now) && op.Collect?
    ensures Simulates(Step(a, op).0, b, EndOf(op, now))
  {
    LocalStep(a, op);
  }

  lemma OutsOfFirst(s: Store, op: Op, rest: seq<Op>)
    ensures Outs(s, [op] + rest) == (if op.Collect? then [] else [Step(s, op).1]) + Outs(Step(s, op).0, rest)
    ensures WithoutCollect([op] + rest) == (if op.Collect? then [] else [op]) + WithoutCollect(rest)
  {
    assert ([op] + rest)[0] == op && ([op] + rest)[1..] == rest;
  }

  lemma {:induction false} RunsAgree(a: Store, b: Store, ops: seq<Op>, now: int)
    requires Simulates(a, b, now) && AllTimed(ops, now)
    ensures SameOuts(Outs(a, ops), Outs(b, WithoutCollect(ops)))
    decreases |ops|
  {
    if ops != [] {
      var op, rest := ops[0], ops[1..];
      var a' := Step(a, op).0;
      assert ops == [op] + rest;
      OutsOfFirst(a, op, rest);
      if op.Collect? {
        CollectAgrees(a, b, op, now);
        RunsAgree(a', b, rest, EndOf(op, now));
        assert Outs(a, ops) == Outs(a', rest);
        assert WithoutCollect(ops) == WithoutCollect(rest);
      } else {
        StepAgrees(a, b, op, now);
        var b' := Step(b, op).0;
        RunsAgree(a', b', rest, EndOf(op, now));
        OutsOfFirst(b, op, WithoutCollect(rest));
        SameOutsOneMore(Step(a, op).1, Outs(a', rest), Step(b, op).1, Outs(b', WithoutCollect(rest)));
      }
    }
  }

  lemma SameOutsOneMore(x: Out, xs: seq<Out>, y: Out, ys: seq<Out>)
    requires SameOut(x, y) && SameOuts(xs, ys)
    ensures SameOuts([x] + xs, [y] + ys)
  {
  }

  /** For every run of local operations under a wall clock that does not go back, removing all garbage
      collections changes no answer: session data, lock holders, acquisitions and metadata. */
  lemma CollectionIsInvisible(s: Store, ops: seq<Op>, now: int)
    requires Dominates(s) && AllTimed(ops, now)
    ensures SameOuts(Outs(s, ops), Outs(s, WithoutCollect(ops)))
  {
    RunsAgree(s, s, ops, now);
  }

  /** The two clocks do drift apart: deleting a collected session does not tick. */
  lemma ClocksDrift(s: Store, id: string, now: int, wall: Wall, later: int)
    requires id in s.sessions && s.sessions[id].ExpiredAt(wall.At(id))
    ensures Deleted(Collected(s, now, wall, wall), id, later).clock == s.clock
    ensures s.clock.Less(Deleted(s, id, later).clock)
  {
  }

  /** With gossip, collection can be observed: where a session that had been deleted or had expired has been
      collected, a copy that it would have beaten is readable again.  A copy that arrives makes a difference
      exactly when it is readable and does not outrank what was collected. */
  lemma CollectionShowsExactly(s: Store, id: string, copy: Session, now: int, wall: Wall, read: int)
    requires id != "" && id in s.sessions && Collectable(s.sessions[id], now, wall.At(id)) && !s.sessions[id].VisibleAt(read)
    ensures var kept := s.(sessions := MergeMap(SessionRank, s.sessions, map[id := copy]));
            var collected := Collected(s, now, wall, wall);
            var revived := collected.(sessions := MergeMap(SessionRank, collected.sessions, map[id := copy]));
            var newer := SessionRank(s.sessions[id]).Below(SessionRank(copy));
            && (Fetched(kept, id, read).1 != Fetched(revived, id, read).1 <==> copy.VisibleAt(read) && !newer)
            && (Fetched(kept, id, read).1 == Some(copy) <==> copy.VisibleAt(read) && newer)
            && (Fetched(revived, id, read).1 == Some(copy) <==> copy.VisibleAt(read))
  {
    RankTrichotomy(SessionRank(copy), SessionRank(s.sessions[id]));
  }

  /** The same for locks.  A copy that arrives for a collected lock is found held where the collected one would
      have kept it out, exactly when it is in force and does not outrank that one when they are merged. */
  lemma CollectionShowsLocksExactly(s: Store, key: string, copy: Lock, now: int, wall: Wall, merge: Wall, check: int, again: int)
    requires key in s.locks && CollectableLock(s.locks[key], now, wall.At(key))
    requires wall.At(key) <= merge.At(key) <= check <= again
    ensures var kept := s.(locks := MergeLockMap(s.locks, map[key := copy], merge));
            var collected := Collected(s, now, wall, wall);
            var revived := collected.(locks := MergeLockMap(collected.locks, map[key := copy], merge));
            var newer := LockRank(merge.At(key))(s.locks[key]).Below(LockRank(merge.At(key))(copy));
            && (LockHeld(kept, key, check, again) != LockHeld(revived, key, check, again) <==> copy.HeldAt(again) && !newer)
            && (LockHeld(kept, key, check, again) <==> copy.HeldAt(again) && newer)
            && (LockHeld(revived, key, check, again) <==> copy.HeldAt(again))
  {
    RankTrichotomy(LockRank(merge.At(key))(copy), LockRank(merge.At(key))(s.locks[key]));
  }

  /** So a release can be undone.  A lock taken for half an hour is released at once and collected five minutes
      later; a snapshot sent before the release then arrives, and the lock is in force again. */
  lemma CollectedReleaseIsUndone()
    ensures var (held, _) := Acquired(Booted("n", 0), "k", "h", 30 * MINUTE, 1, 1, 1);
            var (sent, stale) := Snapshot(held, 2);
            var collected := Collected(Released(sent, "k", "h", 3, 3), 6 * MINUTE, Wall(6 * MINUTE, map[], 6 * MINUTE), Wall(6 * MINUTE, map[], 6 * MINUTE));
            var late := Wall(7 * MINUTE, map[], 7 * MINUTE);
            var s := Imported(collected, stale, ImportWalls(7 * MINUTE, late, late, late, late));
            && LockHeldBy(s, "k", "h", 8 * MINUTE, 8 * MINUTE)
            && !Acquired(s, "k", "other", 30 * MINUTE, 8 * MINUTE, 8 * MINUTE, 8 * MINUTE).1
  {
  }
}
