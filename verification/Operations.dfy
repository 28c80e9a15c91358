/** What each operation of the manager does, told from the fields of the entries alone. */
module Operations {
  import opened Options
  import opened Hlc
  import opened Lww
  import opened Crdt
  import opened Store
  import opened DeltaSync

  // ---------- Sessions ----------

  /** A read finds a session up to and including its last instant, unless it is a tombstone; it removes one that
      is past that instant, but never a tombstone. */
  lemma ReadExactly(s: Store, id: string, now: int)
    ensures var (s', found) := Fetched(s, id, now);
            && (found == None <==> id == "" || id !in s.sessions || s.sessions[id].deleted || s.sessions[id].expiresAt < now)
            && (found.Some? ==> found.value == s.sessions[id])
            && (s' != s <==> id != "" && id in s.sessions && !s.sessions[id].deleted && s.sessions[id].expiresAt < now)
            && (s' != s ==> s' == s.(sessions := s.sessions - {id}))
  {
  }

  /** A deletion marks and restamps the session and changes nothing else. */
  lemma DeletionExactly(s: Store, id: string, now: int)
    ensures var s' := Deleted(s, id, now);
            && s'.locks == s.locks && s'.meta == s.meta && s'.gossip == s.gossip && s'.sessions.Keys == s.sessions.Keys
            && (forall k :: k in s.sessions && k != id ==> s'.sessions[k] == s.sessions[k])
            && (id !in s.sessions ==> s' == s)
            && (id in s.sessions ==>
                  var x, y := s.sessions[id], s'.sessions[id];
                  && y.deleted && y.node == s.node && y.ts == s'.clock && s.clock.Less(s'.clock)
                  && (y.id, y.data, y.createdAt, y.updatedAt, y.expiresAt) == (x.id, x.data, x.createdAt, x.updatedAt, x.expiresAt)
                  && (y.lockedBy, y.lockedAt) == (x.lockedBy, x.lockedAt))
  {
  }

  // ---------- Locks ----------

  /** A lock is taken exactly when there is none, or it has been released, or its expiry has passed. */
  lemma AcquisitionExactly(s: Store, key: string, holder: string, ttl: int, born: int, now: int, check: int)
    ensures var (s', ok) := Acquired(s, key, holder, ttl, born, now, check);
            && (ok <==> key !in s.locks || s.locks[key].deleted || s.locks[key].expiresAt < check)
            && s'.sessions == s.sessions && s'.meta == s.meta && s.clock.Less(s'.clock)
            && (!ok ==> s'.locks == s.locks)
            && (ok ==> s'.locks == s.locks[key := Lock(key, holder, born + ttl, s'.clock, s.node, false)])
  {
  }

  /** A release counts exactly when it comes from the holder, before the expiry, of a lock not yet released. */
  lemma ReleaseExactly(s: Store, key: string, holder: string, check: int, now: int)
    ensures var s' := Released(s, key, holder, check, now);
            && (s' != s <==> key in s.locks && s.locks[key].holder == holder && !s.locks[key].deleted && check < s.locks[key].expiresAt)
            && (s' != s ==>
                  && s.clock.Less(s'.clock)
                  && s' == s.(clock := s'.clock,
                              locks := s.locks[key := Lock(s.locks[key].key, holder, s.locks[key].expiresAt, s'.clock, s.node, true)]))
  {
  }

  /** A lock is held strictly before its expiry. */
  lemma HeldExactly(s: Store, key: string, holder: string, check: int, again: int)
    requires check <= again
    ensures LockHeld(s, key, check, again) <==> key in s.locks && !s.locks[key].deleted && again < s.locks[key].expiresAt
    ensures LockHeldBy(s, key, holder, check, again) <==> LockHeld(s, key, check, again) && s.locks[key].holder == holder
  {
  }

  // ---------- Metadata ----------

  lemma MetaReadExactly(s: Store, key: string)
    ensures MetaGot(s, key).1 <==> key in s.meta && s.meta[key].value != ""
    ensures MetaGot(s, key).0 == if key in s.meta then s.meta[key].value else ""
  {
  }

  // ---------- Ticks ----------

  /** How often an operation ticks the clock. */
  function Ticks(s: Store, op: Op): nat
  {
    match op
    case SaveSession(_, _) => 1
    case CreateSession(_, _, _, _, _, _, _) => 2
    case DeleteSession(id, _) => if id in s.sessions then 1 else 0
    case AcquireLock(_, _, _, _, _, _) => 1
    case ReleaseLock(key, holder, check, _) =>
      if key in s.locks && s.locks[key].holder == holder && !s.locks[key].deleted && check < s.locks[key].expiresAt then 1 else 0
    case SetMeta(_, _, _) => 1
    case _ => 0
  }

  /** While the wall clock stands still an operation raises the counter by as many ticks. */
  lemma TicksExactly(s: Store, op: Op, from: int)
    requires Timed(op, from) && EndOf(op, from) <= s.clock.physical
    ensures Step(s, op).0.clock == Timestamp(s.clock.physical, s.clock.logical + Ticks(s, op))
  {
  }

  // ---------- Messages ----------

  /** A snapshot is the whole state; its version is a fresh stamp that the manager remembers. */
  lemma SnapshotExactly(s: Store, now: int)
    ensures var (s', g) := Snapshot(s, now);
            && g.sessions == s.sessions && g.locks == s.locks && g.meta == s.meta && g.node == s.node
            && g.version == s'.clock == s'.gossip && s.clock.Less(g.version) && now <= g.version.physical
            && s'.sessions == s.sessions && s'.locks == s.locks && s'.meta == s.meta && s'.node == s.node
  {
  }

  /** The stamp is strictly later than this one. */
  predicate After(ts: Timestamp, since: Timestamp)
  {
    since.physical < ts.physical || (since.physical == ts.physical && since.logical < ts.logical)
  }

  /** A delta holds just the entries stamped later; the manager does not remember its version. */
  lemma DeltaExactly(s: Store, since: Timestamp, now: int)
    ensures var (s', g) := DeltaSince(s, since, now);
            && (forall k :: k in g.sessions <==> k in s.sessions && After(s.sessions[k].ts, since))
            && (forall k :: k in g.locks <==> k in s.locks && After(s.locks[k].ts, since))
            && (forall k :: k in g.meta <==> k in s.meta && After(s.meta[k].ts, since))
            && (forall v :: Carries(g, v) ==> Holds(s, v))
            && g.node == s.node && g.version == s'.clock && s.clock.Less(g.version) && now <= g.version.physical
            && s' == s.(clock := s'.clock)
  {
  }

  /** A message without entries moves the clock as `Update` does, and changes nothing else. */
  lemma EmptyImportExactly(s: Store, node: string, version: Timestamp, walls: ImportWalls)
    ensures Imported(s, Gossip(map[], map[], map[], node, version), walls) == s.(clock := Updated(s.clock, version, walls.now))
  {
    var c := Updated(s.clock, version, walls.now);
    assert {c} + WitnessStamps(SessionTs, s.sessions, map[], walls.sessions) == {c};
    assert {c} + WitnessStamps(LockTs, s.locks, map[], walls.locks) == {c};
    assert {c} + WitnessStamps(RegisterTs, s.meta, map[], walls.meta) == {c};
    assert MergeMap(SessionRank, s.sessions, map[]) == s.sessions;
    assert MergeLockMap(s.locks, map[], walls.lockMerges) == s.locks;
    assert MergeMap(RegisterRank, s.meta, map[]) == s.meta;
  }

  // ---------- Collection ----------

  /** A session is kept until it expires, and a tombstone for at most an hour more after its deletion. */
  lemma CollectionKeepsExactly(s: Store, id: string, now: int, sessionWall: Wall, lockWall: Wall)
    requires id in s.sessions
    ensures var s' := Collected(s, now, sessionWall, lockWall);
            && (id in s'.sessions <==>
                  && sessionWall.At(id) <= s.sessions[id].expiresAt
                  && (s.sessions[id].deleted ==> now - s.sessions[id].ts.physical <= 3_600_000_000_000))
            && (id in s'.sessions ==> s'.sessions[id] == s.sessions[id])
            && s'.clock == s.clock && s'.meta == s.meta
  {
  }

  /** A lock is kept while in force, and for five minutes after its last stamp. */
  lemma CollectionKeepsLocksExactly(s: Store, key: string, now: int, sessionWall: Wall, lockWall: Wall)
    requires key in s.locks
    ensures var s' := Collected(s, now, sessionWall, lockWall);
            && (key in s'.locks <==>
                  || (!s.locks[key].deleted && lockWall.At(key) <= s.locks[key].expiresAt)
                  || now - s.locks[key].ts.physical <= 300_000_000_000)
            && (key in s'.locks ==> s'.locks[key] == s.locks[key])
  {
  }

  /** The act neither writes the session nor brings in a copy that outranks it; a collection comes within an
      hour of the deletion and before the session would have expired. */
  predicate LeavesTombstone(act: Act, tomb: Session, id: string)
  {
    match act
    case Own(SaveSession(session, _)) => session.id != id
    case Own(CreateSession(other, _, _, _, _, _, _)) => other != id
    case Own(DeleteSession(other, _)) => other != id
    case Own(Collect(now, sessionWall, _, _)) =>
      now - tomb.ts.physical <= 3_600_000_000_000 && sessionWall.At(id) <= tomb.expiresAt
    case Own(_) => true
    case Take(message, _, _) => id in message.sessions ==> !SessionRank(tomb).Below(SessionRank(message.sessions[id]))
  }

  /** In its first hour an unexpired tombstone survives every collection, and all that while it keeps out the
      copies of its session that it outranks: the session stays unreadable. */
  lemma {:induction false} TombstoneLastsAnHour(s: Store, id: string, acts: seq<Act>, read: int)
    requires id in s.sessions && s.sessions[id].deleted
    requires forall act :: act in acts ==> LeavesTombstone(act, s.sessions[id], id)
    ensures var s' := AllActed(s, acts);
            id in s'.sessions && s'.sessions[id] == s.sessions[id] && Fetched(s', id, read) == (s', None)
    decreases |acts|
  {
    if acts != [] {
      assert acts[0] in acts;
      TombstoneStays(s, id, acts[0]);
      TombstoneLastsAnHour(Acted(s, acts[0]), id, acts[1..], read);
    }
  }

  lemma TombstoneStays(s: Store, id: string, act: Act)
    requires id in s.sessions && s.sessions[id].deleted && LeavesTombstone(act, s.sessions[id], id)
    ensures id in Acted(s, act).sessions && Acted(s, act).sessions[id] == s.sessions[id]
  {
    if act.Own? && act.op.Collect? { CollectionKeepsExactly(s, id, act.op.now, act.op.sessionWall, act.op.lockWall); }
  }
}
