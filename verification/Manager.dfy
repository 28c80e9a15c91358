/** The storage manager itself: three maps, a clock, and methods that update them in place.

    Each method is one atomic step.  Its contract gives the new state as a function of the old one
    (module Store); what those functions guarantee is proved about them.  The loops over Go maps pick
    their keys in an arbitrary order, so their contracts hold for every order of iteration. */
module Manager {
  import opened Options
  import opened Hlc
  import opened Lww
  import opened Crdt
  import opened Store
  import opened MergeLoops

  class Manager {
    const nodeId: string
    const clock: Clock
    var sessions: map<string, Session>
    var locks: map<string, Lock>
    var meta: map<string, Register>
    var lastGossipVersion: Timestamp

    function State(): Store
      reads this, clock
    {
      Store(nodeId, clock.latest, lastGossipVersion, sessions, locks, meta)
    }

    constructor (nodeId: string, now: int)
      ensures fresh(clock) && clock.nodeId == this.nodeId && State() == Booted(nodeId, now) && Dominates(State())
      ensures this.nodeId == (if nodeId == "" then "unknown" else nodeId) && clock.latest == Timestamp(now, 0)
      ensures sessions == map[] && locks == map[] && meta == map[] && lastGossipVersion == Timestamp(0, 0)
    {
      var id := if nodeId == "" then "unknown" else nodeId;
      this.nodeId := id;
      clock := new Clock(id, now);
      sessions, locks, meta := map[], map[], map[];
      lastGossipVersion := Timestamp(0, 0);
    }

    // ---------- Sessions ----------

    method GetSession(id: string, now: int) returns (found: Option<Session>)
      modifies this
      ensures (State(), found) == Fetched(old(State()), id, now)
      ensures found.Some? ==> id in old(sessions) && found.value == old(sessions)[id] && found.value.VisibleAt(now)
      ensures found.None? ==> id == "" || id !in sessions || sessions[id].deleted
    {
      if id == "" {
        return None;
      }
      if id !in sessions {
        return None;
      }
      var session := sessions[id];
      if session.deleted {
        return None;
      }
      if session.ExpiredAt(now) {
        sessions := sessions - {id};
        return None;
      }
      return Some(session);
    }

    /** Returns the session as stamped; under a dominating clock it is what the map now holds. */
    method SaveSession(session: Session, now: int) returns (stamped: Session)
      modifies this, clock
      ensures State() == Saved(old(State()), session, now)
      ensures stamped == session.(ts := clock.latest, node := nodeId)
      ensures old(Dominates(State())) ==> sessions == old(sessions)[session.id := stamped]
    {
      if Dominates(State()) {
        LocalWritesWin(State(), session, "", "", now);
      }
      var ts := clock.Now(now);
      stamped := session.(ts := ts, node := nodeId);
      if stamped.id !in sessions {
        sessions := sessions[stamped.id := stamped];
      } else {
        var existing := sessions[stamped.id];
        if existing.deleted && !stamped.deleted {
          if existing.ts.Less(stamped.ts) {
            sessions := sessions[stamped.id := MergeSession(existing, stamped)];
          }
          assert State().sessions == Saved(old(State()), session, now).sessions;
          return;
        }
        sessions := sessions[stamped.id := MergeSession(existing, stamped)];
      }
    }

    method CreateSession(id: string, data: seq<bv8>, ttl: int, born: int, first: int, expiry: int, now: int)
      returns (session: Session)
      modifies this, clock
      ensures State() == Created(old(State()), id, data, ttl, born, first, expiry, now)
      ensures old(Dominates(State())) ==> sessions == old(sessions)[id := session]
      ensures session.data == data && session.expiresAt == expiry + ttl && !session.deleted
    {
      if Dominates(State()) {
        CreatedWins(State(), Op.CreateSession(id, data, ttl, born, first, expiry, now));
      }
      var ts := clock.Now(first);
      session := Session(id, [], born, born, born + HOUR, "", ZERO_TIME, ts, nodeId, false);
      session := session.(data := data, expiresAt := expiry + ttl);
      session := SaveSession(session, now);
    }

    method DeleteSession(id: string, now: int)
      modifies this, clock
      ensures State() == Deleted(old(State()), id, now)
      ensures sessions.Keys == old(sessions).Keys
      ensures id in sessions ==> sessions[id].deleted
    {
      if id in sessions {
        var session := sessions[id];
        var ts := clock.Now(now);
        sessions := sessions[id := session.(deleted := true, ts := ts, node := nodeId)];
      }
    }

    // ---------- Locks ----------

    method AcquireLock(key: string, holder: string, ttl: int, born: int, now: int, check: int) returns (ok: bool)
      modifies this, clock
      ensures (State(), ok) == Acquired(old(State()), key, holder, ttl, born, now, check)
      ensures ok <==> key !in old(locks) || old(locks)[key].DeadAt(check)
      ensures ok ==> locks[key].holder == holder && locks[key].expiresAt == born + ttl && !locks[key].deleted
      ensures !ok ==> locks == old(locks)
    {
      var ts := clock.Now(now);
      var newLock := Lock(key, holder, born + ttl, ts, nodeId, false);
      if key !in locks {
        locks := locks[key := newLock];
        return true;
      }
      var existing := locks[key];
      if existing.DeadAt(check) {
        locks := locks[key := newLock];
        return true;
      }
      return false;
    }

    method GetLock(key: string, now: int) returns (found: Option<Lock>)
      ensures found == if key in locks && !locks[key].DeadAt(now) then Some(locks[key]) else None
    {
      if key !in locks {
        return None;
      }
      var lock := locks[key];
      if lock.DeadAt(now) {
        return None;
      }
      return Some(lock);
    }

    method ReleaseLock(key: string, holder: string, check: int, now: int)
      modifies this, clock
      ensures State() == Released(old(State()), key, holder, check, now)
      ensures key in locks && locks[key] != old(locks)[key] ==> old(locks)[key].HeldByAt(holder, check) && locks[key].deleted
    {
      if key !in locks {
        return;
      }
      var lock := locks[key];
      if lock.HeldByAt(holder, check) {
        var ts := clock.Now(now);
        locks := locks[key := lock.(deleted := true, ts := ts, node := nodeId)];
      }
    }

    method IsLockHeld(key: string, check: int, again: int) returns (held: bool)
      ensures held == LockHeld(State(), key, check, again)
    {
      var lock := GetLock(key, check);
      match lock
      case None => return false;
      case Some(l) => return l.HeldAt(again);
    }

    method IsLockHeldBy(key: string, holder: string, check: int, again: int) returns (held: bool)
      ensures held == LockHeldBy(State(), key, holder, check, again)
    {
      var lock := GetLock(key, check);
      match lock
      case None => return false;
      case Some(l) => return l.HeldByAt(holder, again);
    }

    // ---------- Metadata ----------

    method GetMeta(key: string) returns (value: string, ok: bool)
      ensures (value, ok) == MetaGot(State(), key)
      ensures ok <==> value != ""
    {
      if key !in meta {
        return "", false;
      }
      return meta[key].value, meta[key].value != "";
    }

    method SetMeta(key: string, value: string, now: int)
      modifies this, clock
      ensures State() == MetaSet(old(State()), key, value, now)
      ensures old(Dominates(State())) ==> meta == old(meta)[key := Register(value, clock.latest, nodeId)]
    {
      if Dominates(State()) {
        LocalWritesWin(State(), Session("", [], 0, 0, 0, "", 0, clock.latest, "", false), key, value, now);
      }
      var ts := clock.Now(now);
      var newReg := Register(value, ts, nodeId);
      if key in meta {
        meta := meta[key := MergeRegister(meta[key], newReg)];
      } else {
        meta := meta[key := newReg];
      }
    }

    // ---------- Merge loops ----------

    // The keys come in an arbitrary order; the result does not depend on it.

    method MergeSessions(other: map<string, Session>, wall: Wall)
      modifies this, clock
      ensures sessions == MergeMap(SessionRank, old(sessions), other)
      ensures locks == old(locks) && meta == old(meta) && lastGossipVersion == old(lastGossipVersion)
      ensures Ranged(SESSIONS, Progress(old(clock.latest), old(sessions)), other, wall, Progress(clock.latest, sessions))
      ensures old(clock.latest).LessOrEqual(clock.latest)
      ensures old(clock.latest.WellFormed()) && (forall k :: k in other ==> other[k].ts.WellFormed()) ==>
                State() == SessionsMerged(old(State()), other, wall)
    {
      ghost var start := Progress(clock.latest, sessions);
      ghost var order := [];
      var keys := other.Keys;
      while keys != {}
        invariant keys <= other.Keys && !Repeats(order)
        invariant forall k :: k in order <==> k in other && k !in keys
        invariant locks == old(locks) && meta == old(meta) && lastGossipVersion == old(lastGossipVersion)
        invariant Progress(clock.latest, sessions) == MergeInOrder(SESSIONS, start, other, order, wall)
        decreases |keys|
      {
        var id :| id in keys;
        assert (order + [id])[..|order|] == order;
        if id in sessions {
          var existing := sessions[id];
          clock.Witness(other[id].ts, wall.At(id));
          sessions := sessions[id := MergeSession(existing, other[id])];
        } else {
          sessions := sessions[id := other[id]];
        }
        keys, order := keys - {id}, order + [id];
      }
      assert Enumerates(order, other.Keys);
      RangedSessions(start.clock, start.entries, other, wall, clock.latest, sessions);
    }

    method MergeLocks(other: map<string, Lock>, witnessWall: Wall, mergeWall: Wall)
      modifies this, clock
      ensures locks == MergeLockMap(old(locks), other, mergeWall)
      ensures sessions == old(sessions) && meta == old(meta) && lastGossipVersion == old(lastGossipVersion)
      ensures Ranged(Locks(mergeWall), Progress(old(clock.latest), old(locks)), other, witnessWall, Progress(clock.latest, locks))
      ensures old(clock.latest).LessOrEqual(clock.latest)
      ensures old(clock.latest.WellFormed()) && (forall k :: k in other ==> other[k].ts.WellFormed()) ==>
                State() == LocksMerged(old(State()), other, witnessWall, mergeWall)
    {
      ghost var start := Progress(clock.latest, locks);
      ghost var order := [];
      var keys := other.Keys;
      while keys != {}
        invariant keys <= other.Keys && !Repeats(order)
        invariant forall k :: k in order <==> k in other && k !in keys
        invariant sessions == old(sessions) && meta == old(meta) && lastGossipVersion == old(lastGossipVersion)
        invariant Progress(clock.latest, locks) == MergeInOrder(Locks(mergeWall), start, other, order, witnessWall)
        decreases |keys|
      {
        var key :| key in keys;
        assert (order + [key])[..|order|] == order;
        if key in locks {
          var existing := locks[key];
          clock.Witness(other[key].ts, witnessWall.At(key));
          locks := locks[key := MergeLock(existing, other[key], mergeWall.At(key))];
        } else {
          locks := locks[key := other[key]];
        }
        keys, order := keys - {key}, order + [key];
      }
      assert Enumerates(order, other.Keys);
      RangedLocks(start.clock, start.entries, other, witnessWall, mergeWall, clock.latest, locks);
    }

    method MergeMeta(other: map<string, Register>, wall: Wall)
      modifies this, clock
      ensures meta == MergeMap(RegisterRank, old(meta), other)
      ensures sessions == old(sessions) && locks == old(locks) && lastGossipVersion == old(lastGossipVersion)
      ensures Ranged(REGISTERS, Progress(old(clock.latest), old(meta)), other, wall, Progress(clock.latest, meta))
      ensures old(clock.latest).LessOrEqual(clock.latest)
      ensures old(clock.latest.WellFormed()) && (forall k :: k in other ==> other[k].ts.WellFormed()) ==>
                State() == MetaMerged(old(State()), other, wall)
    {
      ghost var start := Progress(clock.latest, meta);
      ghost var order := [];
      var keys := other.Keys;
      while keys != {}
        invariant keys <= other.Keys && !Repeats(order)
        invariant forall k :: k in order <==> k in other && k !in keys
        invariant sessions == old(sessions) && locks == old(locks) && lastGossipVersion == old(lastGossipVersion)
        invariant Progress(clock.latest, meta) == MergeInOrder(REGISTERS, start, other, order, wall)
        decreases |keys|
      {
        var key :| key in keys;
        assert (order + [key])[..|order|] == order;
        if key in meta {
          var existing := meta[key];
          clock.Witness(other[key].ts, wall.At(key));
          meta := meta[key := MergeRegister(existing, other[key])];
        } else {
          meta := meta[key := other[key]];
        }
        keys, order := keys - {key}, order + [key];
      }
      assert Enumerates(order, other.Keys);
      RangedMeta(start.clock, start.entries, other, wall, clock.latest, meta);
    }

    // ---------- Gossip ----------

    method GetStateSnapshot(now: int) returns (snapshot: Gossip)
      modifies this, clock
      ensures (State(), snapshot) == Snapshot(old(State()), now)
    {
      var version := clock.Now(now);
      snapshot := Gossip(sessions, locks, meta, nodeId, version);
      lastGossipVersion := snapshot.version;
    }

    method GetDeltaSince(since: Timestamp, now: int) returns (delta: Gossip)
      modifies this, clock
      ensures (State(), delta) == DeltaSince(old(State()), since, now)
    {
      var version := clock.Now(now);
      delta := Gossip(map id | id in sessions && since.Less(sessions[id].ts) :: sessions[id],
                      map key | key in locks && since.Less(locks[key].ts) :: locks[key],
                      map key | key in meta && since.Less(meta[key].ts) :: meta[key],
                      nodeId, version);
      assert delta.sessions == Newer(SessionTs, sessions, since);
      assert delta.locks == Newer(LockTs, locks, since);
      assert delta.meta == Newer(RegisterTs, meta, since);
    }

    /** A nil snapshot is ignored.  Otherwise the clock is updated and the three loops run in turn; without
        negative logical counters the outcome does not depend on their orders. */
    method ImportStateSnapshot(snapshot: Option<Gossip>, walls: ImportWalls)
      modifies this, clock
      ensures snapshot.None? ==> State() == old(State())
      ensures snapshot.Some? ==> MapsMerged(old(State()), State(), snapshot.value, walls)
      ensures snapshot.Some? ==> ImportRanged(old(State()), State(), snapshot.value, walls)
      ensures snapshot.Some? && old(clock.latest.WellFormed()) && WellFormedGossip(snapshot.value) ==>
                State() == Imported(old(State()), snapshot.value, walls)
    {
      if snapshot.None? {
        return;
      }
      var g := snapshot.value;
      var _ := clock.Update(g.version, walls.now);
      MergeSessions(g.sessions, walls.sessions);
      ghost var clock1 := clock.latest;
      MergeLocks(g.locks, walls.locks, walls.lockMerges);
      ghost var clock2 := clock.latest;
      MergeMeta(g.meta, walls.meta);
      RangedImport(old(State()), State(), g, walls, clock1, clock2);
    }

    /** Applying a delta has the effect of importing it: an empty part is skipped, which is what
        merging it would do. */
    method ApplyDelta(delta: Option<Gossip>, walls: ImportWalls)
      modifies this, clock
      ensures delta.None? ==> State() == old(State())
      ensures delta.Some? ==> MapsMerged(old(State()), State(), delta.value, walls)
      ensures delta.Some? ==> ImportRanged(old(State()), State(), delta.value, walls)
      ensures delta.Some? && old(clock.latest.WellFormed()) && WellFormedGossip(delta.value) ==>
                State() == Imported(old(State()), delta.value, walls)
    {
      if delta.None? {
        return;
      }
      var g := delta.value;
      var _ := clock.Update(g.version, walls.now);
      if |g.sessions| > 0 {
        MergeSessions(g.sessions, walls.sessions);
      } else {
        assert g.sessions == map[];
        RangedOverNothing(SESSIONS, Progress(clock.latest, sessions), walls.sessions);
      }
      ghost var clock1 := clock.latest;
      if |g.locks| > 0 {
        MergeLocks(g.locks, walls.locks, walls.lockMerges);
      } else {
        assert g.locks == map[];
        RangedOverNothing(Locks(walls.lockMerges), Progress(clock.latest, locks), walls.locks);
      }
      ghost var clock2 := clock.latest;
      if |g.meta| > 0 {
        MergeMeta(g.meta, walls.meta);
      } else {
        assert g.meta == map[];
        RangedOverNothing(REGISTERS, Progress(clock.latest, meta), walls.meta);
      }
      RangedImport(old(State()), State(), g, walls, clock1, clock2);
    }

    // ---------- Garbage collection ----------

    method CleanupExpired(now: int, sessionWall: Wall, lockWall: Wall)
      modifies this
      ensures State() == Collected(old(State()), now, sessionWall, lockWall)
    {
      CleanupSessions(now, sessionWall);
      CleanupLocks(now, lockWall);
    }

    method CleanupSessions(now: int, wall: Wall)
      modifies this`sessions
      ensures sessions == KeptSessions(old(sessions), now, wall)
    {
      ghost var sessions0 := sessions;
      var ids := sessions.Keys;
      while ids != {}
        invariant ids <= sessions.Keys
        invariant forall id :: id in sessions <==> id in sessions0 && (id in ids || !Collectable(sessions0[id], now, wall.At(id)))
        invariant forall id :: id in sessions ==> sessions[id] == sessions0[id]
        decreases |ids|
      {
        var id :| id in ids;
        var s := sessions[id];
        if s.ExpiredAt(wall.At(id)) || (s.deleted && now - s.ts.physical > HOUR) {
          sessions := sessions - {id};
        }
        ids := ids - {id};
      }
    }

    method CleanupLocks(now: int, wall: Wall)
      modifies this`locks
      ensures locks == KeptLocks(old(locks), now, wall)
    {
      ghost var locks0 := locks;
      var keys := locks.Keys;
      while keys != {}
        invariant keys <= locks.Keys
        invariant forall key :: key in locks <==> key in locks0 && (key in keys || !CollectableLock(locks0[key], now, wall.At(key)))
        invariant forall key :: key in locks ==> locks[key] == locks0[key]
        decreases |keys|
      {
        var key :| key in keys;
        var l := locks[key];
        if l.DeadAt(wall.At(key)) && now - l.ts.physical > 5 * MINUTE {
          locks := locks - {key};
        }
        keys := keys - {key};
      }
    }
  }

  // ---------- Facts about imports ----------

  ghost predicate WellFormedGossip(g: Gossip)
  {
    g.version.WellFormed() && forall v :: Carries(g, v) ==> v.Ts().WellFormed()
  }

  /** What an import does to the three maps, whatever the stamps it meets. */
  ghost predicate MapsMerged(s: Store, s': Store, g: Gossip, walls: ImportWalls)
  {
    && s'.node == s.node && s'.gossip == s.gossip
    && s'.sessions == MergeMap(SessionRank, s.sessions, g.sessions)
    && s'.locks == MergeLockMap(s.locks, g.locks, walls.lockMerges)
    && s'.meta == MergeMap(RegisterRank, s.meta, g.meta)
  }

  /** The three loops ran one after the other from the updated clock, each in some order, leaving these clocks. */
  ghost predicate RangedInTurn(s: Store, s': Store, g: Gossip, walls: ImportWalls, clock1: Timestamp, clock2: Timestamp)
  {
    && Ranged(SESSIONS, Progress(Updated(s.clock, g.version, walls.now), s.sessions), g.sessions, walls.sessions, Progress(clock1, s'.sessions))
    && Ranged(Locks(walls.lockMerges), Progress(clock1, s.locks), g.locks, walls.locks, Progress(clock2, s'.locks))
    && Ranged(REGISTERS, Progress(clock2, s.meta), g.meta, walls.meta, Progress(s'.clock, s'.meta))
  }

  ghost predicate ImportRanged(s: Store, s': Store, g: Gossip, walls: ImportWalls)
  {
    exists clock1, clock2 :: RangedInTurn(s, s', g, walls, clock1, clock2)
  }

  lemma WellFormedEntries(g: Gossip)
    requires WellFormedGossip(g)
    ensures forall k :: k in g.sessions ==> g.sessions[k].ts.WellFormed()
    ensures forall k :: k in g.locks ==> g.locks[k].ts.WellFormed()
    ensures forall k :: k in g.meta ==> g.meta[k].ts.WellFormed()
  {
    forall k | k in g.sessions ensures g.sessions[k].ts.WellFormed() { assert Carries(g, SessionVersion(k, g.sessions[k])); }
    forall k | k in g.locks ensures g.locks[k].ts.WellFormed() { assert Carries(g, LockVersion(k, g.locks[k])); }
    forall k | k in g.meta ensures g.meta[k].ts.WellFormed() { assert Carries(g, MetaVersion(k, g.meta[k])); }
  }

  lemma RangedSessions(clock: Timestamp, m: map<string, Session>, other: map<string, Session>, wall: Wall, clock': Timestamp, m': map<string, Session>)
    requires Ranged(SESSIONS, Progress(clock, m), other, wall, Progress(clock', m'))
    ensures m' == MergeMap(SessionRank, m, other) && clock.LessOrEqual(clock')
    ensures clock.WellFormed() && (forall k :: k in other ==> other[k].ts.WellFormed()) ==>
              clock' == WitnessedAll(clock, SessionTs, m, other, wall) && clock'.WellFormed()
  {
    var order :| Enumerates(order, other.Keys) && Progress(clock', m') == MergeInOrder(SESSIONS, Progress(clock, m), other, order, wall);
    OrderDoesNotMatter(SESSIONS, Progress(clock, m), other, order, wall);
    SessionEntries(m, other, m');
  }

  lemma RangedLocks(clock: Timestamp, m: map<string, Lock>, other: map<string, Lock>, wall: Wall, mergeWall: Wall, clock': Timestamp, m': map<string, Lock>)
    requires Ranged(Locks(mergeWall), Progress(clock, m), other, wall, Progress(clock', m'))
    ensures m' == MergeLockMap(m, other, mergeWall) && clock.LessOrEqual(clock')
    ensures clock.WellFormed() && (forall k :: k in other ==> other[k].ts.WellFormed()) ==>
              clock' == WitnessedAll(clock, LockTs, m, other, wall) && clock'.WellFormed()
  {
    var order :| Enumerates(order, other.Keys) && Progress(clock', m') == MergeInOrder(Locks(mergeWall), Progress(clock, m), other, order, wall);
    OrderDoesNotMatter(Locks(mergeWall), Progress(clock, m), other, order, wall);
    LockEntries(mergeWall, m, other, m');
  }

  lemma RangedMeta(clock: Timestamp, m: map<string, Register>, other: map<string, Register>, wall: Wall, clock': Timestamp, m': map<string, Register>)
    requires Ranged(REGISTERS, Progress(clock, m), other, wall, Progress(clock', m'))
    ensures m' == MergeMap(RegisterRank, m, other) && clock.LessOrEqual(clock')
    ensures clock.WellFormed() && (forall k :: k in other ==> other[k].ts.WellFormed()) ==>
              clock' == WitnessedAll(clock, RegisterTs, m, other, wall) && clock'.WellFormed()
  {
    var order :| Enumerates(order, other.Keys) && Progress(clock', m') == MergeInOrder(REGISTERS, Progress(clock, m), other, order, wall);
    OrderDoesNotMatter(REGISTERS, Progress(clock, m), other, order, wall);
    RegisterEntries(m, other, m');
  }

  lemma RangedMaps(s: Store, s': Store, g: Gossip, walls: ImportWalls, clock1: Timestamp, clock2: Timestamp)
    requires RangedInTurn(s, s', g, walls, clock1, clock2)
    ensures s'.sessions == MergeMap(SessionRank, s.sessions, g.sessions)
    ensures s'.locks == MergeLockMap(s.locks, g.locks, walls.lockMerges)
    ensures s'.meta == MergeMap(RegisterRank, s.meta, g.meta)
    ensures s.clock.WellFormed() && WellFormedGossip(g) ==> s'.clock == Imported(s, g, walls).clock
  {
    var clock0 := Updated(s.clock, g.version, walls.now);
    if WellFormedGossip(g) { WellFormedEntries(g); }
    RangedSessions(clock0, s.sessions, g.sessions, walls.sessions, clock1, s'.sessions);
    RangedLocks(clock1, s.locks, g.locks, walls.locks, walls.lockMerges, clock2, s'.locks);
    RangedMeta(clock2, s.meta, g.meta, walls.meta, s'.clock, s'.meta);
  }

  /** Whatever their orders, the three loops leave the merged maps and, on well-formed stamps, one clock. */
  lemma RangedImport(s: Store, s': Store, g: Gossip, walls: ImportWalls, clock1: Timestamp, clock2: Timestamp)
    requires s'.node == s.node && s'.gossip == s.gossip && RangedInTurn(s, s', g, walls, clock1, clock2)
    ensures MapsMerged(s, s', g, walls) && ImportRanged(s, s', g, walls)
    ensures s.clock.WellFormed() && WellFormedGossip(g) ==> s' == Imported(s, g, walls)
  {
    RangedMaps(s, s', g, walls, clock1, clock2);
  }
}
