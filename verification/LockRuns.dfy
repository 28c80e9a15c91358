/** Locks over whole runs of one manager, with garbage collection and other operations anywhere. */
module LockRuns {
  import opened Options
  import opened Hlc
  import opened Crdt
  import opened Store

  /** A successful acquisition.  `end` is set when its holder releases it while it is in force. */
  datatype Grant = Grant(holder: string, start: int, expiry: int, end: Option<int>) {
    /** The grant is over from this instant on. */
    function Finish(): int
    {
      if end.Some? && end.value < expiry then end.value else expiry
    }

    predicate InForce(now: int)
    {
      end.None? && now < expiry
    }
  }

  /** A manager together with a log of the grants of each key and of the lock versions it has written. */
  datatype Service = Service(store: Store, now: int, grants: map<string, seq<Grant>>, versions: map<string, set<Lock>>) {
    function Grants(key: string): seq<Grant>
    {
      if key in grants then grants[key] else []
    }

    ghost function Versions(key: string): set<Lock>
    {
      if key in versions then versions[key] else {}
    }
  }

  /** The log is kept from the outside: acquisitions are logged by their answer, releases by whether the
      caller's own grant is in force; it never looks at the stored lock. */
  function Logged(svc: Service, op: Op): map<string, seq<Grant>>
  {
    match op
    case AcquireLock(key, holder, ttl, born, _, check) =>
      if Step(svc.store, op).1 == Answer(true) then
        svc.grants[key := svc.Grants(key) + [Grant(holder, check, born + ttl, None)]]
      else svc.grants
    case ReleaseLock(key, holder, check, now) =>
      var log := svc.Grants(key);
      if log != [] && log[|log| - 1].holder == holder && log[|log| - 1].InForce(check) then
        svc.grants[key := log[|log| - 1 := log[|log| - 1].(end := Some(now))]]
      else svc.grants
    case _ => svc.grants
  }

  ghost function Served(svc: Service, op: Op): Service
  {
    Service(Step(svc.store, op).0, EndOf(op, svc.now), Logged(svc, op),
            match Written(svc.store, op)
            case Some(LockVersion(key, lock)) => svc.versions[key := svc.Versions(key) + {lock}]
            case _ => svc.versions)
  }

  ghost predicate AllServable(svc: Service, ops: seq<Op>)
    decreases |ops|
  {
    ops == [] || (Timed(ops[0], svc.now) && AllServable(Served(svc, ops[0]), ops[1..]))
  }

  ghost function AllServed(svc: Service, ops: seq<Op>): Service
    decreases |ops|
  {
    if ops == [] then svc else AllServed(Served(svc, ops[0]), ops[1..])
  }

  ghost predicate Fresh(svc: Service)
  {
    Dominates(svc.store) && svc.store.locks == map[] && svc.grants == map[] && svc.versions == map[]
  }

  // ---------- Mutual exclusion ----------

  /** No grant starts before all earlier ones are over. */
  ghost predicate Exclusive(log: seq<Grant>)
  {
    forall i, j :: 0 <= i < j < |log| ==> log[i].Finish() <= log[j].start
  }

  /** The stored lock, if any, is the last grant's; a key without one has no grant in force. */
  ghost predicate LogMatches(log: seq<Grant>, locks: map<string, Lock>, key: string, now: int)
  {
    && (log == [] ==> key !in locks)
    && (log != [] ==>
          var g := log[|log| - 1];
          && g.start <= now
          && (g.end.Some? ==> g.end.value <= now)
          && (key in locks ==> locks[key].holder == g.holder && locks[key].expiresAt == g.expiry && locks[key].deleted == g.end.Some?)
          && (key !in locks ==> g.end.Some? || g.expiry < now))
  }

  ghost predicate LocksOk(svc: Service)
  {
    forall key :: Exclusive(svc.Grants(key)) && LogMatches(svc.Grants(key), svc.store.locks, key, svc.now)
  }

  lemma AcquireKeepsLog(svc: Service, op: Op)
    requires LocksOk(svc) && Timed(op, svc.now) && op.AcquireLock?
    ensures LocksOk(Served(svc, op))
  {
    var svc' := Served(svc, op);
    forall key
      ensures Exclusive(svc'.Grants(key)) && LogMatches(svc'.Grants(key), svc'.store.locks, key, svc'.now)
    {
      var log, log' := svc.Grants(key), svc'.Grants(key);
      assert Exclusive(log) && LogMatches(log, svc.store.locks, key, svc.now);
      if log' != log {
        forall i, j | 0 <= i < j < |log'| ensures log'[i].Finish() <= log'[j].start {
          if i < |log| - 1 { assert log[i].Finish() <= log[|log| - 1].start; }
        }
      }
    }
  }

  lemma ReleaseKeepsLog(svc: Service, op: Op)
    requires LocksOk(svc) && Timed(op, svc.now) && op.ReleaseLock?
    ensures LocksOk(Served(svc, op))
  {
    var svc' := Served(svc, op);
    forall key
      ensures Exclusive(svc'.Grants(key)) && LogMatches(svc'.Grants(key), svc'.store.locks, key, svc'.now)
    {
      var log, log' := svc.Grants(key), svc'.Grants(key);
      assert Exclusive(log) && LogMatches(log, svc.store.locks, key, svc.now);
      forall i, j | 0 <= i < j < |log'| ensures log'[i].Finish() <= log'[j].start {
        assert log'[i] == log[i] && log'[j].start == log[j].start;
      }
    }
  }

  lemma OtherKeepsLog(svc: Service, op: Op)
    requires LocksOk(svc) && Timed(op, svc.now) && !op.AcquireLock? && !op.ReleaseLock?
    ensures LocksOk(Served(svc, op))
  {
    var svc' := Served(svc, op);
    forall key
      ensures Exclusive(svc'.Grants(key)) && LogMatches(svc'.Grants(key), svc'.store.locks, key, svc'.now)
    {
      assert Exclusive(svc.Grants(key)) && LogMatches(svc.Grants(key), svc.store.locks, key, svc.now);
    }
  }

  lemma {:induction false} RunKeepsLog(svc: Service, ops: seq<Op>)
    requires LocksOk(svc) && AllServable(svc, ops)
    ensures LocksOk(AllServed(svc, ops))
    decreases |ops|
  {
    if ops != [] {
      match ops[0] {
        case AcquireLock(_, _, _, _, _, _) => AcquireKeepsLog(svc, ops[0]);
        case ReleaseLock(_, _, _, _) => ReleaseKeepsLog(svc, ops[0]);
        case _ => OtherKeepsLog(svc, ops[0]);
      }
      RunKeepsLog(Served(svc, ops[0]), ops[1..]);
    }
  }

  /** Mutual exclusion over every run: the intervals from a successful acquisition to the earlier of its
      holder's release and its expiry never overlap for the same key. */
  lemma MutualExclusion(svc: Service, ops: seq<Op>, key: string, i: nat, j: nat)
    requires Fresh(svc) && AllServable(svc, ops)
    requires i < j < |AllServed(svc, ops).Grants(key)|
    ensures var log := AllServed(svc, ops).Grants(key);
            log[i].Finish() <= log[j].start
  {
    RunKeepsLog(svc, ops);
    assert Exclusive(AllServed(svc, ops).Grants(key));
  }

  /** In every reachable state an acquisition succeeds exactly when the last grant of the key was released or
      is past its expiry. */
  lemma AcquireMatchesLog(svc: Service, ops: seq<Op>, op: Op)
    requires Fresh(svc) && AllServable(svc, ops) && op.AcquireLock? && Timed(op, AllServed(svc, ops).now)
    ensures var now := AllServed(svc, ops);
            var log := now.Grants(op.key);
            Step(now.store, op).1 == Answer(log == [] || log[|log| - 1].end.Some? || log[|log| - 1].expiry < op.check)
  {
    RunKeepsLog(svc, ops);
    var now := AllServed(svc, ops);
    assert LogMatches(now.Grants(op.key), now.store.locks, op.key, now.now);
  }

  /** In every reachable state a lock is held by exactly the holder of the grant in force.  As only its
      holder's release ends a grant in the log, nobody else's release, nor a collection, ever frees it. */
  lemma HolderMatchesLog(svc: Service, ops: seq<Op>, op: Op)
    requires Fresh(svc) && AllServable(svc, ops) && op.IsLockHeldBy? && Timed(op, AllServed(svc, ops).now)
    ensures var now := AllServed(svc, ops);
            var log := now.Grants(op.key);
            Step(now.store, op).1 == Answer(log != [] && log[|log| - 1].InForce(op.again) && log[|log| - 1].holder == op.holder)
  {
    RunKeepsLog(svc, ops);
    var now := AllServed(svc, ops);
    assert LogMatches(now.Grants(op.key), now.store.locks, op.key, now.now);
  }

  /** And it is held by someone exactly while a grant is in force. */
  lemma HeldMatchesLog(svc: Service, ops: seq<Op>, op: Op)
    requires Fresh(svc) && AllServable(svc, ops) && op.IsLockHeld? && Timed(op, AllServed(svc, ops).now)
    ensures var now := AllServed(svc, ops);
            var log := now.Grants(op.key);
            Step(now.store, op).1 == Answer(log != [] && log[|log| - 1].InForce(op.again))
  {
    RunKeepsLog(svc, ops);
    var now := AllServed(svc, ops);
    assert LogMatches(now.Grants(op.key), now.store.locks, op.key, now.now);
  }

  // ---------- One manager's lock versions are aligned ----------

  /** Every acquisition of the key uses this time to live. */
  ghost predicate FixedTtl(ops: seq<Op>, key: string, ttl: int)
  {
    forall op :: op in ops && op.AcquireLock? && op.key == key ==> op.ttl == ttl
  }

  ghost predicate VersionsOk(svc: Service, key: string, ttl: int)
  {
    && Dominates(svc.store)
    && Aligned(svc.Versions(key))
    && (forall v :: v in svc.Versions(key) ==> v.ts.LessOrEqual(svc.store.clock) && v.expiresAt <= svc.now + ttl)
    && (key in svc.store.locks ==>
          && svc.store.locks[key] in svc.Versions(key)
          && forall v :: v in svc.Versions(key) ==> v.expiresAt <= svc.store.locks[key].expiresAt)
  }

  lemma NewestIsAligned(versions: set<Lock>, lock: Lock)
    requires Aligned(versions)
    requires forall v :: v in versions ==> v.ts.Less(lock.ts) && v.expiresAt <= lock.expiresAt
    ensures Aligned(versions + {lock})
  {
    forall a, b | a in versions + {lock} && b in versions + {lock} && StampRank(a).Below(StampRank(b))
      ensures a.expiresAt <= b.expiresAt
    {
      if a == lock && b in versions { LessIsTotalOrder(b.ts, lock.ts, b.ts); }
    }
  }

  /** Operations that write no version of the key: its lock stays as it was, or is collected. */
  lemma UnwrittenKeepsVersions(svc: Service, op: Op, key: string, ttl: int)
    requires VersionsOk(svc, key, ttl) && Timed(op, svc.now)
    requires Served(svc, op).Versions(key) == svc.Versions(key)
    requires forall lock :: Written(svc.store, op) != Some(LockVersion(key, lock))
    ensures VersionsOk(Served(svc, op), key, ttl)
  {
    var s, s' := svc.store, Step(svc.store, op).0;
    LocalStep(s, op);
    LocalStepTime(s, op, svc.now);
    forall v | v in svc.Versions(key) ensures v.ts.LessOrEqual(s'.clock) { LessIsTotalOrder(v.ts, s.clock, s'.clock); }
    if key in s'.locks {
      assert Holds(s', LockVersion(key, s'.locks[key]));
      assert Holds(s, LockVersion(key, s'.locks[key]));
    }
  }

  lemma WrittenKeepsVersions(svc: Service, op: Op, key: string, ttl: int, lock: Lock)
    requires VersionsOk(svc, key, ttl) && Timed(op, svc.now)
    requires Written(svc.store, op) == Some(LockVersion(key, lock))
    requires op.AcquireLock? ==> op.ttl == ttl
    ensures VersionsOk(Served(svc, op), key, ttl)
  {
    var s, s' := svc.store, Step(svc.store, op).0;
    LocalStep(s, op);
    LocalStepTime(s, op, svc.now);
    assert lock.expiresAt <= EndOf(op, svc.now) + ttl && s'.locks[key] == lock;
    forall v | v in svc.Versions(key) ensures v.ts.Less(lock.ts) && v.expiresAt <= lock.expiresAt {
      LessIsTotalOrder(v.ts, s.clock, s'.clock);
    }
    NewestIsAligned(svc.Versions(key), lock);
    assert Served(svc, op).Versions(key) == svc.Versions(key) + {lock};
  }

  lemma StepKeepsVersions(svc: Service, op: Op, key: string, ttl: int)
    requires VersionsOk(svc, key, ttl) && Timed(op, svc.now)
    requires op.AcquireLock? && op.key == key ==> op.ttl == ttl
    ensures VersionsOk(Served(svc, op), key, ttl)
  {
    match Written(svc.store, op) {
      case Some(LockVersion(k, lock)) =>
        if k == key {
          WrittenKeepsVersions(svc, op, key, ttl, lock);
        } else {
          UnwrittenKeepsVersions(svc, op, key, ttl);
        }
      case _ => UnwrittenKeepsVersions(svc, op, key, ttl);
    }
  }

  lemma {:induction false} RunKeepsVersions(svc: Service, ops: seq<Op>, key: string, ttl: int)
    requires VersionsOk(svc, key, ttl) && AllServable(svc, ops) && FixedTtl(ops, key, ttl)
    ensures VersionsOk(AllServed(svc, ops), key, ttl)
    decreases |ops|
  {
    if ops != [] {
      assert ops[0] in ops;
      assert FixedTtl(ops[1..], key, ttl) by {
        forall op | op in ops[1..] && op.AcquireLock? && op.key == key ensures op.ttl == ttl { assert op in ops; }
      }
      StepKeepsVersions(svc, ops[0], key, ttl);
      RunKeepsVersions(Served(svc, ops[0]), ops[1..], key, ttl);
    }
  }

  /** The versions one manager writes of a lock with a fixed time to live are aligned.  So wherever copies
      of them are merged, in any order and at any times, the newest of those merged wins; and as long as a
      release is among them and is the newest, no stale copy revives the lock. */
  lemma ManagerLocksMergeLikeLww(svc: Service, ops: seq<Op>, key: string, ttl: int, l: Lock, others: seq<Lock>, times: seq<int>, released: Lock)
    requires Fresh(svc) && AllServable(svc, ops) && FixedTtl(ops, key, ttl)
    requires |others| == |times| && l in AllServed(svc, ops).Versions(key)
    requires forall v :: v in others ==> v in AllServed(svc, ops).Versions(key)
    ensures IsLatest(MergeLocksAt(l, others, times), l, others)
    ensures IsLatest(released, l, others) && released.deleted ==> MergeLocksAt(l, others, times) == released
  {
    RunKeepsVersions(svc, ops, key, ttl);
    var versions := AllServed(svc, ops).Versions(key);
    AlignedMergesAreLww(versions, l, others, times);
    if IsLatest(released, l, others) && released.deleted {
      ReleasedStaysReleased(versions, l, others, times, released);
    }
  }
}
