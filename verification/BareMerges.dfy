/** The merge methods called by themselves, without the clock update that comes first in an import.  They
    witness only the stamps of keys that were already present. */
module BareMerges {
  import opened Hlc
  import opened Lww
  import opened Crdt
  import opened Store
  import opened MergeLoops

  // ---------- When the clock still dominates ----------

  /** The clock is at or above these entries, and no counter is negative. */
  ghost predicate ClockCovers<V>(ts: V -> Timestamp, clock: Timestamp, m: map<string, V>)
  {
    forall k :: k in m ==> ts(m[k]).WellFormed() && ts(m[k]).LessOrEqual(clock)
  }

  /** No entry stored under a new key is stamped above the clock. */
  ghost predicate NewKeysBelow<V>(ts: V -> Timestamp, clock: Timestamp, m: map<string, V>, other: map<string, V>)
  {
    forall k :: k in other && k !in m ==> ts(other[k]).LessOrEqual(clock)
  }

  ghost predicate Picks<V(!new)>(kind: Kind<V>)
  {
    forall k, a, b :: kind.merge(k, a, b) == a || kind.merge(k, a, b) == b
  }

  /** The clock a merge loop leaves is at or above all entries it leaves exactly when no entry stored under a
      new key is stamped above it. */
  lemma LoopCoversExactly<V(!new)>(kind: Kind<V>, clock: Timestamp, m: map<string, V>, other: map<string, V>, wall: Wall, result: map<string, V>)
    requires Picks(kind) && EntriesMerged(kind, m, other, other.Keys, result)
    requires clock.WellFormed() && ClockCovers(kind.ts, clock, m) && forall k :: k in other ==> kind.ts(other[k]).WellFormed()
    ensures var after := WitnessedAll(clock, kind.ts, m, other, wall);
            && after.WellFormed() && clock.LessOrEqual(after)
            && (ClockCovers(kind.ts, after, result) <==> NewKeysBelow(kind.ts, after, m, other))
            && (forall k :: k in m && k in result ==> kind.ts(result[k]).LessOrEqual(after))
  {
    var stamps := {clock} + WitnessStamps(kind.ts, m, other, wall);
    var after := Maximum(stamps);
    forall k | k in result && k in m ensures kind.ts(result[k]).WellFormed() && kind.ts(result[k]).LessOrEqual(after) {
      LessIsTotalOrder(kind.ts(m[k]), clock, after);
      if k in other {
        var stamp := Max(kind.ts(other[k]), Timestamp(wall.At(k), 0));
        assert stamp in stamps;
        LessIsTotalOrder(kind.ts(other[k]), stamp, after);
      }
    }
  }

  lemma DominatesParts(s: Store)
    ensures Dominates(s) <==>
              && s.clock.WellFormed() && ClockCovers(SessionTs, s.clock, s.sessions)
              && ClockCovers(LockTs, s.clock, s.locks) && ClockCovers(RegisterTs, s.clock, s.meta)
  {
    if Dominates(s) {
      forall k | k in s.sessions ensures s.sessions[k].ts.WellFormed() && s.sessions[k].ts.LessOrEqual(s.clock) {
        assert Holds(s, SessionVersion(k, s.sessions[k]));
      }
      forall k | k in s.locks ensures s.locks[k].ts.WellFormed() && s.locks[k].ts.LessOrEqual(s.clock) {
        assert Holds(s, LockVersion(k, s.locks[k]));
      }
      forall k | k in s.meta ensures s.meta[k].ts.WellFormed() && s.meta[k].ts.LessOrEqual(s.clock) {
        assert Holds(s, MetaVersion(k, s.meta[k]));
      }
    }
  }

  lemma LaterClockCovers<V>(ts: V -> Timestamp, clock: Timestamp, later: Timestamp, m: map<string, V>)
    requires ClockCovers(ts, clock, m) && clock.LessOrEqual(later)
    ensures ClockCovers(ts, later, m)
  {
    forall k | k in m ensures ts(m[k]).LessOrEqual(later) { LessIsTotalOrder(ts(m[k]), clock, later); }
  }

  lemma BareSessionsDominateExactly(s: Store, other: map<string, Session>, wall: Wall)
    requires Dominates(s) && forall k :: k in other ==> other[k].ts.WellFormed()
    ensures var s' := SessionsMerged(s, other, wall);
            Dominates(s') <==> NewKeysBelow(SessionTs, s'.clock, s.sessions, other)
  {
    var s' := SessionsMerged(s, other, wall);
    DominatesParts(s);
    DominatesParts(s');
    LoopCoversExactly(SESSIONS, s.clock, s.sessions, other, wall, s'.sessions);
    LaterClockCovers(LockTs, s.clock, s'.clock, s.locks);
    LaterClockCovers(RegisterTs, s.clock, s'.clock, s.meta);
  }

  lemma BareLocksDominateExactly(s: Store, other: map<string, Lock>, wall: Wall, mergeWall: Wall)
    requires Dominates(s) && forall k :: k in other ==> other[k].ts.WellFormed()
    ensures var s' := LocksMerged(s, other, wall, mergeWall);
            Dominates(s') <==> NewKeysBelow(LockTs, s'.clock, s.locks, other)
  {
    var s' := LocksMerged(s, other, wall, mergeWall);
    DominatesParts(s);
    DominatesParts(s');
    LoopCoversExactly(Locks(mergeWall), s.clock, s.locks, other, wall, s'.locks);
    LaterClockCovers(SessionTs, s.clock, s'.clock, s.sessions);
    LaterClockCovers(RegisterTs, s.clock, s'.clock, s.meta);
  }

  lemma BareMetaDominatesExactly(s: Store, other: map<string, Register>, wall: Wall)
    requires Dominates(s) && forall k :: k in other ==> other[k].ts.WellFormed()
    ensures var s' := MetaMerged(s, other, wall);
            Dominates(s') <==> NewKeysBelow(RegisterTs, s'.clock, s.meta, other)
  {
    var s' := MetaMerged(s, other, wall);
    DominatesParts(s);
    DominatesParts(s');
    LoopCoversExactly(REGISTERS, s.clock, s.meta, other, wall, s'.meta);
    LaterClockCovers(SessionTs, s.clock, s'.clock, s.sessions);
    LaterClockCovers(LockTs, s.clock, s'.clock, s.locks);
  }

  // ---------- When a later local write is lost ----------

  /** What keeps a save out: a tombstone that the tick has not passed, or another entry of no smaller rank. */
  predicate KeepsOut(existing: Session, stamped: Session)
  {
    && existing != stamped
    && if existing.deleted && !stamped.deleted then stamped.ts.LessOrEqual(existing.ts)
       else !SessionRank(existing).Below(SessionRank(stamped))
  }

  /** After merging a session under a new key, the next save of that key is lost exactly when what was merged
      keeps it out.  The save otherwise replaces it. */
  lemma SaveAfterMergeExactly(s: Store, other: map<string, Session>, wall: Wall, session: Session, now: int)
    requires session.id in other && session.id !in s.sessions
    ensures var merged := SessionsMerged(s, other, wall);
            var stamped := session.(ts := Ticked(merged.clock, now), node := s.node);
            && Saved(merged, session, now).sessions[session.id] in {stamped, other[session.id]}
            && (Saved(merged, session, now).sessions[session.id] != stamped <==> KeepsOut(other[session.id], stamped))
  {
    var merged := SessionsMerged(s, other, wall);
    SaveStoresExactly(merged, session, now);
    LessIsTotalOrder(other[session.id].ts, Ticked(merged.clock, now), s.clock);
  }

  lemma SetAfterMergeExactly(s: Store, other: map<string, Register>, wall: Wall, key: string, value: string, now: int)
    requires key in other && key !in s.meta
    ensures var merged := MetaMerged(s, other, wall);
            var reg := Register(value, Ticked(merged.clock, now), s.node);
            && MetaSet(merged, key, value, now).meta[key] in {reg, other[key]}
            && (MetaSet(merged, key, value, now).meta[key] != reg <==>
                  other[key] != reg && !RegisterRank(other[key]).Below(RegisterRank(reg)))
  {
  }

  /** So, from a dominating clock, exactly the saves of newly merged keys are at risk. */
  lemma SaveLostExactly(s: Store, other: map<string, Session>, wall: Wall, session: Session, now: int)
    requires Dominates(s) && forall k :: k in other ==> other[k].ts.WellFormed()
    ensures var merged := SessionsMerged(s, other, wall);
            var stamped := session.(ts := Ticked(merged.clock, now), node := s.node);
            Saved(merged, session, now).sessions[session.id] != stamped <==>
              session.id in other && session.id !in s.sessions && KeepsOut(other[session.id], stamped)
  {
    var merged := SessionsMerged(s, other, wall);
    if session.id in other && session.id !in s.sessions {
      SaveAfterMergeExactly(s, other, wall, session, now);
    } else if session.id in merged.sessions {
      DominatesParts(s);
      LoopCoversExactly(SESSIONS, s.clock, s.sessions, other, wall, merged.sessions);
      LessIsTotalOrder(merged.sessions[session.id].ts, merged.clock, Ticked(merged.clock, now));
      SaveStoresExactly(merged, session, now);
    }
  }

  lemma SetLostExactly(s: Store, other: map<string, Register>, wall: Wall, key: string, value: string, now: int)
    requires Dominates(s) && forall k :: k in other ==> other[k].ts.WellFormed()
    ensures var merged := MetaMerged(s, other, wall);
            var reg := Register(value, Ticked(merged.clock, now), s.node);
            MetaSet(merged, key, value, now).meta[key] != reg <==>
              key in other && key !in s.meta && other[key] != reg && !RegisterRank(other[key]).Below(RegisterRank(reg))
  {
    var merged := MetaMerged(s, other, wall);
    if key in other && key !in s.meta {
      SetAfterMergeExactly(s, other, wall, key, value, now);
    } else if key in merged.meta {
      DominatesParts(s);
      LoopCoversExactly(REGISTERS, s.clock, s.meta, other, wall, merged.meta);
      LessIsTotalOrder(merged.meta[key].ts, merged.clock, Ticked(merged.clock, now));
    }
  }
}
