/** Incremental gossip: when a delta does as well as the sender's whole state. */
module DeltaSync {
  import opened Hlc
  import opened Lww
  import opened Crdt
  import opened Store
  import opened Growth

  // ---------- What one node goes through ----------

  datatype Act = Own(op: Op) | Take(message: Gossip, walls: ImportWalls, end: int)

  ghost function Acted(s: Store, act: Act): Store
  {
    match act
    case Own(op) => Step(s, op).0
    case Take(message, walls, _) => Imported(s, message, walls)
  }

  function ActEnd(act: Act, wall: int): int
  {
    match act
    case Own(op) => EndOf(op, wall)
    case Take(_, _, end) => end
  }

  /** Readings do not go back, and imported messages are fit. */
  ghost predicate Proper(s: Store, act: Act, wall: int)
  {
    match act
    case Own(op) => Timed(op, wall)
    case Take(message, walls, end) => walls.Between(wall, end) && FitGossip(message, wall)
  }

  ghost predicate AllProper(s: Store, acts: seq<Act>, wall: int)
    decreases |acts|
  {
    acts == [] || (Proper(s, acts[0], wall) && AllProper(Acted(s, acts[0]), acts[1..], ActEnd(acts[0], wall)))
  }

  /** No session is dropped. */
  ghost predicate AllKeep(s: Store, acts: seq<Act>)
    decreases |acts|
  {
    acts == [] || ((acts[0].Own? ==> Keeps(s, acts[0].op)) && AllKeep(Acted(s, acts[0]), acts[1..]))
  }

  ghost function AllActed(s: Store, acts: seq<Act>): Store
    decreases |acts|
  {
    if acts == [] then s else AllActed(Acted(s, acts[0]), acts[1..])
  }

  lemma {:induction false} ActsGrow(s: Store, acts: seq<Act>, wall: int)
    requires Dominates(s) && s.clock.physical <= wall && AllProper(s, acts, wall)
    ensures Covers(RegisterRank, AllActed(s, acts).meta, s.meta)
    ensures AllKeep(s, acts) ==> Covers(SessionRank, AllActed(s, acts).sessions, s.sessions)
    decreases |acts|
  {
    if acts == [] {
      CoversReflexive(SessionRank, s.sessions);
      CoversReflexive(RegisterRank, s.meta);
    } else {
      var s' := Acted(s, acts[0]);
      match acts[0] {
        case Own(op) =>
          LocalStep(s, op);
          LocalStepTime(s, op, wall);
          OpGrows(s, op);
        case Take(message, walls, end) =>
          ImportStep(s, message, walls, wall, end);
          ImportGrows(s, message, walls);
      }
      ActsGrow(s', acts[1..], ActEnd(acts[0], wall));
      CoversTransitive(RegisterRank, AllActed(s, acts).meta, s'.meta, s.meta);
      if AllKeep(s, acts) {
        CoversTransitive(SessionRank, AllActed(s, acts).sessions, s'.sessions, s.sessions);
      }
    }
  }

  // ---------- What only local operations can change ----------

  function LocalRun(s: Store, ops: seq<Op>): Store
    decreases |ops|
  {
    if ops == [] then s else LocalRun(Step(s, ops[0]).0, ops[1..])
  }

  /** After local operations a node's entries are its former ones or stamped above its former clock. */
  lemma {:induction false} LocalRunStamps(s: Store, ops: seq<Op>)
    requires Dominates(s)
    ensures s.clock.LessOrEqual(LocalRun(s, ops).clock)
    ensures forall v :: Holds(LocalRun(s, ops), v) ==> Holds(s, v) || s.clock.Less(v.Ts())
    decreases |ops|
  {
    if ops != [] {
      var s' := Step(s, ops[0]).0;
      LocalStep(s, ops[0]);
      LocalRunStamps(s', ops[1..]);
      LessIsTotalOrder(s.clock, s'.clock, LocalRun(s, ops).clock);
      forall v | Holds(LocalRun(s, ops), v) ensures Holds(s, v) || s.clock.Less(v.Ts()) {
        LessIsTotalOrder(s.clock, s'.clock, v.Ts());
      }
    }
  }

  // ---------- Deltas ----------

  /** Merging part of a map does as well as merging all of it exactly when the rest is already covered. */
  lemma PartSufficesExactly<V(!new)>(rank: V -> Rank, m: map<string, V>, full: map<string, V>, keep: set<string>)
    ensures MergeMap(rank, m, full - keep) == MergeMap(rank, m, full)
       <==> Covers(rank, m, full - (full.Keys - keep))
  {
    var part, rest := full - keep, full - (full.Keys - keep);
    var less, more := MergeMap(rank, m, part), MergeMap(rank, m, full);
    if less == more {
      forall k | k in rest ensures k in m && !rank(m[k]).Below(rank(rest[k])) {
        assert k in more && k !in part;
        assert k in less;
        RankTrichotomy(rank(m[k]), rank(full[k]));
      }
    }
    if Covers(rank, m, rest) {
      assert less.Keys == more.Keys;
      forall k | k in more ensures less[k] == more[k] {
        if k in full && k !in part { assert k in rest; }
      }
    }
  }

  /** The entries a delta leaves out, which are those stamped at or below the version it starts from, are
      covered by the replica. */
  ghost predicate OmittedCovered<V(!new)>(rank: V -> Rank, ts: V -> Timestamp, r: map<string, V>, full: map<string, V>, since: Timestamp)
  {
    forall k :: k in full && ts(full[k]).LessOrEqual(since) ==> k in r && !rank(r[k]).Below(rank(full[k]))
  }

  lemma NewerSufficesExactly<V(!new)>(rank: V -> Rank, ts: V -> Timestamp, r: map<string, V>, full: map<string, V>, since: Timestamp)
    ensures MergeMap(rank, r, Newer(ts, full, since)) == MergeMap(rank, r, full)
       <==> OmittedCovered(rank, ts, r, full, since)
  {
    var omitted := set k | k in full && !since.Less(ts(full[k]));
    var rest := full - (full.Keys - omitted);
    assert Newer(ts, full, since) == full - omitted;
    forall k | k in full ensures ts(full[k]).LessOrEqual(since) <==> k in rest {
      LessIsTotalOrder(ts(full[k]), since, since);
    }
    PartSufficesExactly(rank, r, full, omitted);
  }

  /** On sessions and on metadata a delta does as well as the sender's whole state exactly when the replica
      already covers every entry of the sender that is not stamped above the delta's starting version. */
  lemma DeltaSufficesExactly(sender: Store, since: Timestamp, now: int, replica: Store)
    ensures var delta, full := DeltaSince(sender, since, now).1, Snapshot(sender, now).1;
            && (MergeMap(SessionRank, replica.sessions, delta.sessions) == MergeMap(SessionRank, replica.sessions, full.sessions) <==>
                  OmittedCovered(SessionRank, SessionTs, replica.sessions, sender.sessions, since))
            && (MergeMap(RegisterRank, replica.meta, delta.meta) == MergeMap(RegisterRank, replica.meta, full.meta) <==>
                  OmittedCovered(RegisterRank, RegisterTs, replica.meta, sender.meta, since))
  {
    NewerSufficesExactly(SessionRank, SessionTs, replica.sessions, sender.sessions, since);
    NewerSufficesExactly(RegisterRank, RegisterTs, replica.meta, sender.meta, since);
  }

  /** Merging the other lock at this time changes nothing. */
  predicate Beats(l: Lock, other: Lock, now: int)
  {
    !LockRank(now)(l).Below(LockRank(now)(other))
  }

  lemma BeatsExactly(l: Lock, other: Lock, now: int)
    ensures Beats(l, other, now) <==> MergeLock(l, other, now) == l
  {
    RankTrichotomy(LockRank(now)(l), LockRank(now)(other));
  }

  /** Locks are merged by liveness first, each key at its own reading: for them the replica must hold a lock
      that beats the omitted one at that reading, which a lock merged earlier need not do. */
  lemma LockDeltaSufficesExactly(sender: Store, since: Timestamp, now: int, replica: Store, wall: Wall)
    ensures var delta, full := DeltaSince(sender, since, now).1, Snapshot(sender, now).1;
            MergeLockMap(replica.locks, delta.locks, wall) == MergeLockMap(replica.locks, full.locks, wall) <==>
              forall k :: k in sender.locks && sender.locks[k].ts.LessOrEqual(since) ==>
                k in replica.locks && Beats(replica.locks[k], sender.locks[k], wall.At(k))
  {
    NewerLocksSufficeExactly(replica.locks, sender.locks, since, wall);
  }

  lemma NewerLocksSufficeExactly(r: map<string, Lock>, full: map<string, Lock>, since: Timestamp, wall: Wall)
    ensures MergeLockMap(r, Newer(LockTs, full, since), wall) == MergeLockMap(r, full, wall) <==>
              forall k :: k in full && full[k].ts.LessOrEqual(since) ==> k in r && Beats(r[k], full[k], wall.At(k))
  {
    var less, more := MergeLockMap(r, Newer(LockTs, full, since), wall), MergeLockMap(r, full, wall);
    forall k | k in full
      ensures (k in less && less[k] == more[k]) <==> !full[k].ts.LessOrEqual(since) || (k in r && Beats(r[k], full[k], wall.At(k)))
    {
      LessIsTotalOrder(full[k].ts, since, since);
      if k in r { BeatsExactly(r[k], full[k], wall.At(k)); }
    }
    assert less.Keys <= more.Keys;
    assert less == more <==> forall k :: k in more ==> k in less && less[k] == more[k];
    assert forall k :: k in more && k !in full ==> k in less && less[k] == more[k];
  }

  /** A replica that imported a sender's snapshot gains later as much metadata from the sender's delta since
      that snapshot as from its whole state, provided the sender has only run local operations in between;
      and as many sessions, if the replica has dropped none. */
  lemma DeltaDoesAsWell(sender: Store, taken: int, ops: seq<Op>, sent: int,
                        replica: Store, walls: ImportWalls, start: int, imported: int, acts: seq<Act>)
    requires Dominates(sender) && Dominates(replica)
    requires sender.clock.physical <= taken <= start && replica.clock.physical <= start && walls.Between(start, imported)
    requires AllProper(Imported(replica, Snapshot(sender, taken).1, walls), acts, imported)
    ensures var (sender1, snapshot) := Snapshot(sender, taken);
            var sender2 := LocalRun(sender1, ops);
            var replica2 := AllActed(Imported(replica, snapshot, walls), acts);
            var delta, full := DeltaSince(sender2, snapshot.version, sent).1, Snapshot(sender2, sent).1;
            && MergeMap(RegisterRank, replica2.meta, delta.meta) == MergeMap(RegisterRank, replica2.meta, full.meta)
            && (AllKeep(Imported(replica, snapshot, walls), acts) ==>
                  MergeMap(SessionRank, replica2.sessions, delta.sessions) == MergeMap(SessionRank, replica2.sessions, full.sessions))
  {
    var (sender1, snapshot) := Snapshot(sender, taken);
    SnapshotIsFit(sender, taken, start);
    var sender2 := LocalRun(sender1, ops);
    var replica1 := Imported(replica, snapshot, walls);
    ImportStep(replica, snapshot, walls, start, imported);
    ImportGrows(replica, snapshot, walls);
    ActsGrow(replica1, acts, imported);
    var replica2 := AllActed(replica1, acts);
    if AllKeep(replica1, acts) {
      CoversTransitive(SessionRank, replica2.sessions, replica1.sessions, snapshot.sessions);
    }
    CoversTransitive(RegisterRank, replica2.meta, replica1.meta, snapshot.meta);
    LocalRunStamps(sender1, ops);
    OmittedAreCovered(sender1, sender2, snapshot.version, replica2);
    DeltaSufficesExactly(sender2, snapshot.version, sent, replica2);
  }

  lemma SnapshotIsFit(s: Store, taken: int, now: int)
    requires Dominates(s) && s.clock.physical <= taken <= now
    ensures var (s', g) := Snapshot(s, taken);
            FitGossip(g, now) && Dominates(s') && s'.clock == g.version
  {
    var (s', g) := Snapshot(s, taken);
    forall v | Carries(g, v) ensures v.Ts().WellFormed() && v.Ts().LessOrEqual(g.version) {
      assert Holds(s, v);
      LessIsTotalOrder(v.Ts(), s.clock, g.version);
    }
    forall v | Holds(s', v) ensures v.Ts().WellFormed() && v.Ts().LessOrEqual(s'.clock) {
      assert Carries(g, v);
    }
  }

  lemma OmittedAreCovered(s1: Store, s2: Store, version: Timestamp, r: Store)
    requires forall v :: Holds(s2, v) ==> Holds(s1, v) || version.Less(v.Ts())
    requires Covers(RegisterRank, r.meta, s1.meta)
    ensures OmittedCovered(RegisterRank, RegisterTs, r.meta, s2.meta, version)
    ensures Covers(SessionRank, r.sessions, s1.sessions) ==> OmittedCovered(SessionRank, SessionTs, r.sessions, s2.sessions, version)
  {
    forall id | Covers(SessionRank, r.sessions, s1.sessions) && id in s2.sessions && s2.sessions[id].ts.LessOrEqual(version)
      ensures id in r.sessions && !SessionRank(r.sessions[id]).Below(SessionRank(s2.sessions[id]))
    {
      assert Holds(s2, SessionVersion(id, s2.sessions[id]));
      assert Holds(s1, SessionVersion(id, s2.sessions[id]));
    }
    forall key | key in s2.meta && s2.meta[key].ts.LessOrEqual(version)
      ensures key in r.meta && !RegisterRank(r.meta[key]).Below(RegisterRank(s2.meta[key]))
    {
      assert Holds(s2, MetaVersion(key, s2.meta[key]));
      assert Holds(s1, MetaVersion(key, s2.meta[key]));
    }
  }

  // ---------- Relayed entries are lost ----------

  const QUIET: Wall := Wall(11, map[], 11)
  const RELAYED: Register := Register("x", Timestamp(5, 0), "t")

  /** A sender that relays a third node's entry, stamped before its own snapshot but received after it,
      leaves that entry out of the delta: the replica misses what a full snapshot would have given it. */
  lemma RelayedEntryIsLost()
    ensures var (sender1, snapshot) := Snapshot(Booted("s", 0), 10);
            var replica := Imported(Booted("r", 0), snapshot, ImportWalls(11, QUIET, QUIET, QUIET, QUIET));
            var relayed := Gossip(map[], map[], map["k" := RELAYED], "t", Timestamp(6, 0));
            var sender2 := Imported(sender1, relayed, ImportWalls(11, QUIET, QUIET, QUIET, QUIET));
            var delta, full := DeltaSince(sender2, snapshot.version, 12).1, Snapshot(sender2, 12).1;
            && MergeMap(RegisterRank, replica.meta, delta.meta) == map[]
            && MergeMap(RegisterRank, replica.meta, full.meta) == map["k" := RELAYED]
  {
    var (sender1, snapshot) := Snapshot(Booted("s", 0), 10);
    var walls := ImportWalls(11, QUIET, QUIET, QUIET, QUIET);
    var replica := Imported(Booted("r", 0), snapshot, walls);
    assert replica.meta == map[];
    var sender2 := Imported(sender1, Gossip(map[], map[], map["k" := RELAYED], "t", Timestamp(6, 0)), walls);
    assert sender2.meta == map["k" := RELAYED];
    var delta := DeltaSince(sender2, snapshot.version, 12).1;
    assert delta.meta == map[];
    assert MergeMap(RegisterRank, map[], map["k" := RELAYED]) == map["k" := RELAYED];
  }
}
