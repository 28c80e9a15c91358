/** The state of one storage manager as a value, and what each of its operations does to it.

    Wall-clock readings are parameters; an operation that reads the clock several times takes
    several readings, in the order they are taken. */
module Store {
  import opened Options
  import opened Hlc
  import opened Lww
  import opened Crdt

  datatype Store = Store(node: string, clock: Timestamp, gossip: Timestamp,
                         sessions: map<string, Session>, locks: map<string, Lock>, meta: map<string, Register>)

  /** Readings taken while looping over a map, one per key; `first` where none is recorded. */
  datatype Wall = Wall(first: int, at: map<string, int>, last: int) {
    function At(key: string): int
    {
      if key in at then at[key] else first
    }

    predicate Between(from: int, to: int)
    {
      from <= first <= last <= to && forall k :: k in at ==> first <= at[k] <= last
    }
  }

  function Booted(node: string, now: int): Store
  {
    Store(if node == "" then "unknown" else node, Timestamp(now, 0), Timestamp(0, 0), map[], map[], map[])
  }

  // ---------- Sessions ----------

  /** A tombstone yields only to a strictly newer timestamp; otherwise the last writer wins. */
  function SaveOver(existing: Session, session: Session): Session
  {
    if existing.deleted && !session.deleted then
      if existing.ts.Less(session.ts) then session else existing
    else
      MergeSession(existing, session)
  }

  function Saved(s: Store, session: Session, now: int): Store
  {
    var clock := Ticked(s.clock, now);
    var stamped := session.(ts := clock, node := s.node);
    var id := session.id;
    s.(clock := clock,
       sessions := s.sessions[id := if id in s.sessions then SaveOver(s.sessions[id], stamped) else stamped])
  }

  function Created(s: Store, id: string, data: seq<bv8>, ttl: int, born: int, first: int, expiry: int, now: int): Store
  {
    var clock := Ticked(s.clock, first);
    var session := Session(id, data, born, born, expiry + ttl, "", ZERO_TIME, clock, s.node, false);
    Saved(s.(clock := clock), session, now)
  }

  function Deleted(s: Store, id: string, now: int): Store
  {
    if id !in s.sessions then s
    else
      var clock := Ticked(s.clock, now);
      s.(clock := clock, sessions := s.sessions[id := s.sessions[id].(deleted := true, ts := clock, node := s.node)])
  }

  /** Reading an expired session removes it. */
  function Fetched(s: Store, id: string, now: int): (Store, Option<Session>)
  {
    if id == "" || id !in s.sessions || s.sessions[id].deleted then (s, None)
    else if s.sessions[id].ExpiredAt(now) then (s.(sessions := s.sessions - {id}), None)
    else (s, Some(s.sessions[id]))
  }

  // ---------- Locks ----------

  function Acquired(s: Store, key: string, holder: string, ttl: int, born: int, now: int, check: int): (Store, bool)
  {
    var clock := Ticked(s.clock, now);
    var lock := Lock(key, holder, born + ttl, clock, s.node, false);
    if key in s.locks && !s.locks[key].DeadAt(check) then (s.(clock := clock), false)
    else (s.(clock := clock, locks := s.locks[key := lock]), true)
  }

  function Released(s: Store, key: string, holder: string, check: int, now: int): Store
  {
    if key !in s.locks || !s.locks[key].HeldByAt(holder, check) then s
    else
      var clock := Ticked(s.clock, now);
      s.(clock := clock, locks := s.locks[key := s.locks[key].(deleted := true, ts := clock, node := s.node)])
  }

  predicate LockHeld(s: Store, key: string, check: int, again: int)
  {
    key in s.locks && !s.locks[key].DeadAt(check) && s.locks[key].HeldAt(again)
  }

  predicate LockHeldBy(s: Store, key: string, holder: string, check: int, again: int)
  {
    LockHeld(s, key, check, again) && s.locks[key].holder == holder
  }

  // ---------- Metadata ----------

  function MetaSet(s: Store, key: string, value: string, now: int): Store
  {
    var clock := Ticked(s.clock, now);
    var reg := Register(value, clock, s.node);
    s.(clock := clock, meta := s.meta[key := if key in s.meta then MergeRegister(s.meta[key], reg) else reg])
  }

  function MetaGot(s: Store, key: string): (string, bool)
  {
    if key in s.meta then (s.meta[key].value, s.meta[key].value != "") else ("", false)
  }

  // ---------- Garbage collection ----------

  predicate Collectable(session: Session, now: int, check: int)
  {
    session.ExpiredAt(check) || (session.deleted && now - session.ts.physical > HOUR)
  }

  predicate CollectableLock(lock: Lock, now: int, check: int)
  {
    lock.DeadAt(check) && now - lock.ts.physical > 5 * MINUTE
  }

  function KeptSessions(sessions: map<string, Session>, now: int, wall: Wall): map<string, Session>
  {
    map id | id in sessions && !Collectable(sessions[id], now, wall.At(id)) :: sessions[id]
  }

  function KeptLocks(locks: map<string, Lock>, now: int, wall: Wall): map<string, Lock>
  {
    map key | key in locks && !CollectableLock(locks[key], now, wall.At(key)) :: locks[key]
  }

  /** `now` is read once at the start, then each entry is checked against its own reading. */
  function Collected(s: Store, now: int, sessionWall: Wall, lockWall: Wall): Store
  {
    s.(sessions := KeptSessions(s.sessions, now, sessionWall), locks := KeptLocks(s.locks, now, lockWall))
  }

  // ---------- Gossip ----------

  function Snapshot(s: Store, now: int): (Store, Gossip)
  {
    var clock := Ticked(s.clock, now);
    (s.(clock := clock, gossip := clock), Gossip(s.sessions, s.locks, s.meta, s.node, clock))
  }

  function SessionTs(s: Session): Timestamp { s.ts }
  function LockTs(l: Lock): Timestamp { l.ts }
  function RegisterTs(r: Register): Timestamp { r.ts }

  function Newer<V>(ts: V -> Timestamp, full: map<string, V>, since: Timestamp): map<string, V>
  {
    map k | k in full && since.Less(ts(full[k])) :: full[k]
  }

  function DeltaSince(s: Store, since: Timestamp, now: int): (Store, Gossip)
  {
    var clock := Ticked(s.clock, now);
    (s.(clock := clock),
     Gossip(Newer(SessionTs, s.sessions, since), Newer(LockTs, s.locks, since), Newer(RegisterTs, s.meta, since), s.node, clock))
  }

  /** The stamps a merge loop leaves the clock above: those of the incoming entries whose key was
      already present, and of the wall clock when each of them was witnessed. */
  ghost function WitnessStamps<V>(ts: V -> Timestamp, m: map<string, V>, other: map<string, V>, wall: Wall): set<Timestamp>
  {
    set k | k in m && k in other :: Max(ts(other[k]), Timestamp(wall.At(k), 0))
  }

  ghost function WitnessedAll<V>(clock: Timestamp, ts: V -> Timestamp, m: map<string, V>, other: map<string, V>, wall: Wall): Timestamp
  {
    Maximum({clock} + WitnessStamps(ts, m, other, wall))
  }

  /** Each pair of locks is merged at its own reading. */
  function MergeLockMap(m: map<string, Lock>, other: map<string, Lock>, wall: Wall): map<string, Lock>
  {
    map k | k in m.Keys + other.Keys ::
      if k !in m then other[k] else if k !in other then m[k] else MergeLock(m[k], other[k], wall.At(k))
  }

  ghost function SessionsMerged(s: Store, other: map<string, Session>, wall: Wall): Store
  {
    s.(clock := WitnessedAll(s.clock, SessionTs, s.sessions, other, wall),
       sessions := MergeMap(SessionRank, s.sessions, other))
  }

  ghost function LocksMerged(s: Store, other: map<string, Lock>, witnessWall: Wall, mergeWall: Wall): Store
  {
    s.(clock := WitnessedAll(s.clock, LockTs, s.locks, other, witnessWall),
       locks := MergeLockMap(s.locks, other, mergeWall))
  }

  ghost function MetaMerged(s: Store, other: map<string, Register>, wall: Wall): Store
  {
    s.(clock := WitnessedAll(s.clock, RegisterTs, s.meta, other, wall),
       meta := MergeMap(RegisterRank, s.meta, other))
  }

  /** The readings one import takes: one for `Update`, then those of the three merge loops. */
  datatype ImportWalls = ImportWalls(now: int, sessions: Wall, locks: Wall, lockMerges: Wall, meta: Wall) {
    predicate Between(from: int, to: int)
    {
      && from <= now <= to
      && sessions.Between(now, to) && locks.Between(now, to) && lockMerges.Between(now, to) && meta.Between(now, to)
    }
  }

  /** Importing a snapshot and applying a delta are the same operation. */
  ghost function Imported(s: Store, g: Gossip, walls: ImportWalls): Store
  {
    var s0 := s.(clock := Updated(s.clock, g.version, walls.now));
    var s1 := SessionsMerged(s0, g.sessions, walls.sessions);
    var s2 := LocksMerged(s1, g.locks, walls.locks, walls.lockMerges);
    MetaMerged(s2, g.meta, walls.meta)
  }

  // ---------- Local operations as data ----------

  datatype Op =
    | SaveSession(session: Session, now: int)
    | CreateSession(id: string, data: seq<bv8>, ttl: int, born: int, first: int, expiry: int, now: int)
    | DeleteSession(id: string, now: int)
    | GetSession(id: string, now: int)
    | AcquireLock(key: string, holder: string, ttl: int, born: int, now: int, check: int)
    | ReleaseLock(key: string, holder: string, check: int, now: int)
    | IsLockHeld(key: string, check: int, again: int)
    | IsLockHeldBy(key: string, holder: string, check: int, again: int)
    | SetMeta(key: string, value: string, now: int)
    | GetMeta(key: string)
    | Collect(now: int, sessionWall: Wall, lockWall: Wall, end: int)

  datatype Out = Nothing | Found(session: Option<Session>) | Answer(yes: bool) | Text(value: string, ok: bool)

  function Step(s: Store, op: Op): (Store, Out)
  {
    match op
    case SaveSession(session, now) => (Saved(s, session, now), Nothing)
    case CreateSession(id, data, ttl, born, first, expiry, now) => (Created(s, id, data, ttl, born, first, expiry, now), Nothing)
    case DeleteSession(id, now) => (Deleted(s, id, now), Nothing)
    case GetSession(id, now) => var (s', r) := Fetched(s, id, now); (s', Found(r))
    case AcquireLock(key, holder, ttl, born, now, check) => var (s', ok) := Acquired(s, key, holder, ttl, born, now, check); (s', Answer(ok))
    case ReleaseLock(key, holder, check, now) => (Released(s, key, holder, check, now), Nothing)
    case IsLockHeld(key, check, again) => (s, Answer(LockHeld(s, key, check, again)))
    case IsLockHeldBy(key, holder, check, again) => (s, Answer(LockHeldBy(s, key, holder, check, again)))
    case SetMeta(key, value, now) => (MetaSet(s, key, value, now), Nothing)
    case GetMeta(key) => var (value, ok) := MetaGot(s, key); (s, Text(value, ok))
    case Collect(now, sessionWall, lockWall, _) => (Collected(s, now, sessionWall, lockWall), Nothing)
  }

  /** The readings of an operation do not go back before `from`. */
  predicate Timed(op: Op, from: int)
  {
    match op
    case SaveSession(_, now) => from <= now
    case CreateSession(_, _, _, born, first, expiry, now) => from <= born <= first <= expiry <= now
    case DeleteSession(_, now) => from <= now
    case GetSession(_, now) => from <= now
    case AcquireLock(_, _, _, born, now, check) => from <= born <= now <= check
    case ReleaseLock(_, _, check, now) => from <= check <= now
    case IsLockHeld(_, check, again) => from <= check <= again
    case IsLockHeldBy(_, _, check, again) => from <= check <= again
    case SetMeta(_, _, now) => from <= now
    case GetMeta(_) => true
    case Collect(now, sessionWall, lockWall, end) => from <= now <= end && sessionWall.Between(now, end) && lockWall.Between(now, end)
  }

  /** The last reading of an operation that starts at `from`. */
  function EndOf(op: Op, from: int): int
  {
    match op
    case SaveSession(_, now) => now
    case CreateSession(_, _, _, _, _, _, now) => now
    case DeleteSession(_, now) => now
    case GetSession(_, now) => now
    case AcquireLock(_, _, _, _, _, check) => check
    case ReleaseLock(_, _, _, now) => now
    case IsLockHeld(_, _, again) => again
    case IsLockHeldBy(_, _, _, again) => again
    case SetMeta(_, _, now) => now
    case GetMeta(_) => from
    case Collect(_, _, _, end) => end
  }

  // ---------- Versions ----------

  datatype Version =
    | SessionVersion(id: string, session: Session)
    | LockVersion(key: string, lock: Lock)
    | MetaVersion(name: string, register: Register)
  {
    function Ts(): Timestamp
    {
      match this
      case SessionVersion(_, s) => s.ts
      case LockVersion(_, l) => l.ts
      case MetaVersion(_, r) => r.ts
    }

    function Node(): string
    {
      match this
      case SessionVersion(_, s) => s.node
      case LockVersion(_, l) => l.node
      case MetaVersion(_, r) => r.node
    }
  }

  ghost predicate Holds(s: Store, v: Version)
  {
    match v
    case SessionVersion(id, x) => id in s.sessions && s.sessions[id] == x
    case LockVersion(key, x) => key in s.locks && s.locks[key] == x
    case MetaVersion(name, x) => name in s.meta && s.meta[name] == x
  }

  ghost predicate Carries(g: Gossip, v: Version)
  {
    match v
    case SessionVersion(id, x) => id in g.sessions && g.sessions[id] == x
    case LockVersion(key, x) => key in g.locks && g.locks[key] == x
    case MetaVersion(name, x) => name in g.meta && g.meta[name] == x
  }

  /** The clock is at or above every stored stamp, and no logical counter is negative. */
  ghost predicate Dominates(s: Store)
  {
    && s.clock.WellFormed()
    && forall v :: Holds(s, v) ==> v.Ts().WellFormed() && v.Ts().LessOrEqual(s.clock)
  }

  /** The version an operation writes, if any. */
  function Written(s: Store, op: Op): Option<Version>
  {
    var s' := Step(s, op).0;
    match op
    case SaveSession(session, _) => Some(SessionVersion(session.id, s'.sessions[session.id]))
    case CreateSession(id, _, _, _, _, _, _) => Some(SessionVersion(id, s'.sessions[id]))
    case DeleteSession(id, _) => if id in s.sessions then Some(SessionVersion(id, s'.sessions[id])) else None
    case AcquireLock(key, holder, ttl, born, now, check) =>
      if Acquired(s, key, holder, ttl, born, now, check).1 then Some(LockVersion(key, s'.locks[key])) else None
    case ReleaseLock(key, holder, check, _) =>
      if key in s.locks && s.locks[key].HeldByAt(holder, check) then Some(LockVersion(key, s'.locks[key])) else None
    case SetMeta(key, _, _) => Some(MetaVersion(key, s'.meta[key]))
    case _ => None
  }

  // ---------- Local operations under a dominating clock ----------

  /** A dominating clock makes every local write win over what is stored. */
  lemma LocalWritesWin(s: Store, session: Session, key: string, value: string, now: int)
    requires Dominates(s)
    ensures Saved(s, session, now).sessions == s.sessions[session.id := session.(ts := Ticked(s.clock, now), node := s.node)]
    ensures MetaSet(s, key, value, now).meta == s.meta[key := Register(value, Ticked(s.clock, now), s.node)]
  {
    if session.id in s.sessions {
      assert Holds(s, SessionVersion(session.id, s.sessions[session.id]));
    }
    if key in s.meta {
      assert Holds(s, MetaVersion(key, s.meta[key]));
    }
  }

  /** s' differs from s by a forward clock, dropped entries and at most one entry stamped with that clock. */
  ghost predicate Advanced(s: Store, s': Store, written: Option<Version>)
  {
    && s'.node == s.node
    && s.clock.LessOrEqual(s'.clock)
    && s'.clock.WellFormed()
    && (forall v :: Holds(s', v) ==> Holds(s, v) || written == Some(v))
    && (written.Some? ==>
          && Holds(s', written.value)
          && written.value.Node() == s.node
          && written.value.Ts() == s'.clock
          && s.clock.Less(s'.clock))
  }

  lemma AdvancedDominates(s: Store, s': Store, written: Option<Version>)
    requires Dominates(s) && Advanced(s, s', written)
    ensures Dominates(s')
  {
    forall v | Holds(s', v) ensures v.Ts().WellFormed() && v.Ts().LessOrEqual(s'.clock) {
      if Holds(s, v) { LessIsTotalOrder(v.Ts(), s.clock, s'.clock); }
    }
  }

  lemma SessionWritten(s: Store, s': Store, id: string, session: Session)
    requires s' == s.(clock := s'.clock, sessions := s.sessions[id := session])
    requires s.clock.Less(s'.clock) && s'.clock.WellFormed() && session.ts == s'.clock && session.node == s.node
    ensures Advanced(s, s', Some(SessionVersion(id, session)))
  {
  }

  lemma LockWritten(s: Store, s': Store, key: string, lock: Lock)
    requires s' == s.(clock := s'.clock, locks := s.locks[key := lock])
    requires s.clock.Less(s'.clock) && s'.clock.WellFormed() && lock.ts == s'.clock && lock.node == s.node
    ensures Advanced(s, s', Some(LockVersion(key, lock)))
  {
  }

  lemma MetaWritten(s: Store, s': Store, name: string, register: Register)
    requires s' == s.(clock := s'.clock, meta := s.meta[name := register])
    requires s.clock.Less(s'.clock) && s'.clock.WellFormed() && register.ts == s'.clock && register.node == s.node
    ensures Advanced(s, s', Some(MetaVersion(name, register)))
  {
  }

  /** Every local operation keeps the clock dominating, and whatever it writes is stamped by this node
      with a timestamp above its clock and above everything it stored. */
  lemma LocalStep(s: Store, op: Op)
    requires Dominates(s)
    ensures Advanced(s, Step(s, op).0, Written(s, op))
    ensures Dominates(Step(s, op).0)
  {
    LocalStepAdvances(s, op);
    AdvancedDominates(s, Step(s, op).0, Written(s, op));
  }

  lemma LocalStepAdvances(s: Store, op: Op)
    requires Dominates(s)
    ensures Advanced(s, Step(s, op).0, Written(s, op))
  {
    var s' := Step(s, op).0;
    match op
    case SaveSession(session, now) =>
      LocalWritesWin(s, session, "", "", now);
      SessionWritten(s, s', session.id, s'.sessions[session.id]);
    case CreateSession(id, data, ttl, born, first, expiry, now) =>
      CreatedWins(s, op);
      SessionWritten(s, s', id, s'.sessions[id]);
    case DeleteSession(id, now) =>
      if id in s.sessions { SessionWritten(s, s', id, s'.sessions[id]); }
    case AcquireLock(key, holder, ttl, born, now, check) =>
      if Acquired(s, key, holder, ttl, born, now, check).1 { LockWritten(s, s', key, s'.locks[key]); }
    case ReleaseLock(key, holder, check, now) =>
      if key in s.locks && s.locks[key].HeldByAt(holder, check) { LockWritten(s, s', key, s'.locks[key]); }
    case SetMeta(key, value, now) =>
      LocalWritesWin(s, Session("", [], 0, 0, 0, "", 0, s.clock, "", false), key, value, now);
      MetaWritten(s, s', key, s'.meta[key]);
    case _ =>
  }

  lemma CreatedWins(s: Store, op: Op)
    requires Dominates(s) && op.CreateSession?
    ensures var s' := Step(s, op).0;
            var session := Session(op.id, op.data, op.born, op.born, op.expiry + op.ttl, "", ZERO_TIME, s'.clock, s.node, false);
            s' == s.(clock := s'.clock, sessions := s.sessions[op.id := session]) && s.clock.Less(s'.clock) && s'.clock.WellFormed()
  {
    var clock := Ticked(s.clock, op.first);
    var session := Session(op.id, op.data, op.born, op.born, op.expiry + op.ttl, "", ZERO_TIME, clock, s.node, false);
    var mid := s.(clock := clock);
    forall v | Holds(mid, v) ensures v.Ts().WellFormed() && v.Ts().LessOrEqual(clock) { assert Holds(s, v); }
    LocalWritesWin(mid, session, "", "", op.now);
  }

  /** Time passes, and the clock stays at or below the wall clock if it was. */
  lemma LocalStepTime(s: Store, op: Op, from: int)
    requires Timed(op, from)
    ensures from <= EndOf(op, from)
    ensures s.clock.physical <= from ==> Step(s, op).0.clock.physical <= EndOf(op, from)
  {
  }

  // ---------- Imports ----------

  lemma WitnessedAllBounds<V>(clock: Timestamp, ts: V -> Timestamp, m: map<string, V>, other: map<string, V>, wall: Wall, to: int)
    requires clock.WellFormed() && clock.physical <= to && wall.Between(wall.first, to)
    requires forall k :: k in other ==> ts(other[k]).WellFormed() && ts(other[k]).physical <= to
    ensures var r := WitnessedAll(clock, ts, m, other, wall);
            r.WellFormed() && clock.LessOrEqual(r) && r.physical <= to
  {
  }

  /** A message is fit for import: its entries are at or below its version, which is not ahead of the
      wall clock. */
  ghost predicate FitGossip(g: Gossip, now: int)
  {
    && g.version.WellFormed() && g.version.physical <= now
    && forall v :: Carries(g, v) ==> v.Ts().WellFormed() && v.Ts().LessOrEqual(g.version)
  }

  /** Importing a fit message keeps the clock dominating, moves it strictly forward, and stores nothing
      but what was stored or carried. */
  lemma ImportStep(s: Store, g: Gossip, walls: ImportWalls, from: int, to: int)
    requires Dominates(s) && s.clock.physical <= from && walls.Between(from, to) && FitGossip(g, from)
    ensures var s' := Imported(s, g, walls);
            && Dominates(s')
            && s'.node == s.node
            && s.clock.Less(s'.clock)
            && s'.clock.physical <= to
            && (forall v :: Holds(s', v) ==> Holds(s, v) || Carries(g, v))
  {
    var s' := Imported(s, g, walls);
    ImportClock(s, g, walls, from, to);
    forall v | Holds(s', v)
      ensures Holds(s, v) || Carries(g, v)
      ensures v.Ts().WellFormed() && v.Ts().LessOrEqual(s'.clock)
    {
      ImportHolds(s, g, walls, v);
      LessIsTotalOrder(v.Ts(), s.clock, s'.clock);
      LessIsTotalOrder(v.Ts(), g.version, s'.clock);
    }
  }

  lemma ImportHolds(s: Store, g: Gossip, walls: ImportWalls, v: Version)
    requires Holds(Imported(s, g, walls), v)
    ensures Holds(s, v) || Carries(g, v)
  {
  }

  lemma ImportClock(s: Store, g: Gossip, walls: ImportWalls, from: int, to: int)
    requires s.clock.WellFormed() && s.clock.physical <= from && walls.Between(from, to) && FitGossip(g, from)
    ensures var clock := Imported(s, g, walls).clock;
            clock.WellFormed() && s.clock.Less(clock) && g.version.Less(clock) && clock.physical <= to
  {
    var c0 := Updated(s.clock, g.version, walls.now);
    UpdatedExactly(s.clock, g.version, walls.now);
    var c3 := LoopsRaise(c0, s, g, walls, from, to);
    assert s.clock.Less(c3) && g.version.Less(c3) by {
      LessIsTotalOrder(s.clock, c0, c3);
      LessIsTotalOrder(g.version, c0, c3);
    }
  }

  lemma LoopsRaise(c0: Timestamp, s: Store, g: Gossip, walls: ImportWalls, from: int, to: int) returns (c3: Timestamp)
    requires c0.WellFormed() && c0.physical <= to && walls.Between(from, to) && FitGossip(g, from)
    ensures c3 == MetaMerged(LocksMerged(SessionsMerged(s.(clock := c0), g.sessions, walls.sessions),
                                         g.locks, walls.locks, walls.lockMerges), g.meta, walls.meta).clock
    ensures c3.WellFormed() && c0.LessOrEqual(c3) && c3.physical <= to
  {
    FitEntries(g, from);
    var c1 := WitnessedAll(c0, SessionTs, s.sessions, g.sessions, walls.sessions);
    WitnessedAllBounds(c0, SessionTs, s.sessions, g.sessions, walls.sessions, to);
    var c2 := WitnessedAll(c1, LockTs, s.locks, g.locks, walls.locks);
    WitnessedAllBounds(c1, LockTs, s.locks, g.locks, walls.locks, to);
    c3 := WitnessedAll(c2, RegisterTs, s.meta, g.meta, walls.meta);
    WitnessedAllBounds(c2, RegisterTs, s.meta, g.meta, walls.meta, to);
  }

  lemma FitEntries(g: Gossip, now: int)
    requires FitGossip(g, now)
    ensures forall k :: k in g.sessions ==> g.sessions[k].ts.WellFormed() && g.sessions[k].ts.physical <= now
    ensures forall k :: k in g.locks ==> g.locks[k].ts.WellFormed() && g.locks[k].ts.physical <= now
    ensures forall k :: k in g.meta ==> g.meta[k].ts.WellFormed() && g.meta[k].ts.physical <= now
  {
    forall k | k in g.sessions ensures g.sessions[k].ts.WellFormed() && g.sessions[k].ts.physical <= now {
      assert Carries(g, SessionVersion(k, g.sessions[k]));
    }
    forall k | k in g.locks ensures g.locks[k].ts.WellFormed() && g.locks[k].ts.physical <= now {
      assert Carries(g, LockVersion(k, g.locks[k]));
    }
    forall k | k in g.meta ensures g.meta[k].ts.WellFormed() && g.meta[k].ts.physical <= now {
      assert Carries(g, MetaVersion(k, g.meta[k]));
    }
  }

  // ---------- What a save leaves ----------

  /** A saved session is stored exactly when its key is new, or what is there is the same session or
      yields to it: a tombstone to a strictly newer timestamp, anything else to a larger rank. */
  lemma SaveStoresExactly(s: Store, session: Session, now: int)
    ensures var stamped := session.(ts := Ticked(s.clock, now), node := s.node);
            Saved(s, session, now).sessions[session.id] == stamped <==>
              || session.id !in s.sessions
              || s.sessions[session.id] == stamped
              || (if s.sessions[session.id].deleted && !session.deleted
                  then s.sessions[session.id].ts.Less(stamped.ts)
                  else SessionRank(s.sessions[session.id]).Below(SessionRank(stamped)))
  {
  }
}
