/** Without garbage collection a replica's sessions and metadata only ever grow in the last-writer-wins
    order: local writes, deletions and imports replace entries by newer ones. */
module Growth {
  import opened Options
  import opened Hlc
  import opened Lww
  import opened Crdt
  import opened Store

  /** The operation drops no entry: it is neither a collection nor the read of an expired session. */
  predicate Keeps(s: Store, op: Op)
  {
    !op.Collect? && (op.GetSession? ==> Fetched(s, op.id, op.now).0 == s)
  }

  ghost predicate Grows(s: Store, s': Store)
  {
    Covers(SessionRank, s'.sessions, s.sessions) && Covers(RegisterRank, s'.meta, s.meta)
  }

  /** A save moves its key strictly up, and the next read returns the session saved unless it was saved
      as a tombstone or has expired. */
  lemma SaveIsNewer(s: Store, session: Session, now: int, read: int)
    requires Dominates(s)
    ensures var s' := Saved(s, session, now);
            && Grows(s, s')
            && (session.id in s.sessions ==>
                  SessionRank(s.sessions[session.id]).Below(SessionRank(s'.sessions[session.id])))
            && Fetched(s', session.id, read).1 ==
                 if session.id != "" && session.VisibleAt(read)
                 then Some(session.(ts := s'.clock, node := s.node)) else None
  {
    LocalWritesWin(s, session, "", "", now);
    if session.id in s.sessions { assert Holds(s, SessionVersion(session.id, s.sessions[session.id])); }
    WriteGrows(SessionRank, s.sessions, session.id, Saved(s, session, now).sessions[session.id]);
    CoversReflexive(RegisterRank, s.meta);
  }

  /** A live save over a tombstone leaves the tombstone exactly when the tick has not passed it; when it
      has, the session is resurrected. */
  lemma TombstoneKeptExactly(s: Store, session: Session, now: int, read: int)
    requires session.id in s.sessions && s.sessions[session.id].deleted && !session.deleted
    ensures var s' := Saved(s, session, now); var tomb := s.sessions[session.id];
            && (s'.sessions == s.sessions <==> Ticked(s.clock, now).LessOrEqual(tomb.ts))
            && (Fetched(s', session.id, read).1.Some? <==>
                  session.id != "" && session.VisibleAt(read) && tomb.ts.Less(Ticked(s.clock, now)))
  {
    LessIsTotalOrder(Ticked(s.clock, now), s.sessions[session.id].ts, s.clock);
    assert Saved(s, session, now).sessions[session.id].deleted <==> Ticked(s.clock, now).LessOrEqual(s.sessions[session.id].ts);
  }

  lemma DeleteIsNewer(s: Store, id: string, now: int, read: int)
    requires Dominates(s)
    ensures var s' := Deleted(s, id, now);
            && Grows(s, s')
            && (id in s.sessions ==> SessionRank(s.sessions[id]).Below(SessionRank(s'.sessions[id])))
            && Fetched(s', id, read).1 == None
  {
    CoversReflexive(RegisterRank, s.meta);
    CoversReflexive(SessionRank, s.sessions);
    if id in s.sessions {
      assert Holds(s, SessionVersion(id, s.sessions[id]));
      WriteGrows(SessionRank, s.sessions, id, Deleted(s, id, now).sessions[id]);
    }
  }

  lemma MetaIsNewer(s: Store, key: string, value: string, now: int)
    requires Dominates(s)
    ensures var s' := MetaSet(s, key, value, now);
            && Grows(s, s')
            && (key in s.meta ==> RegisterRank(s.meta[key]).Below(RegisterRank(s'.meta[key])))
            && MetaGot(s', key) == (value, value != "")
  {
    LocalWritesWin(s, Session("", [], 0, 0, 0, "", 0, s.clock, "", false), key, value, now);
    if key in s.meta { assert Holds(s, MetaVersion(key, s.meta[key])); }
    WriteGrows(RegisterRank, s.meta, key, MetaSet(s, key, value, now).meta[key]);
    CoversReflexive(SessionRank, s.sessions);
  }

  lemma WriteGrows<V(!new)>(rank: V -> Rank, m: map<string, V>, key: string, value: V)
    requires key in m ==> !rank(value).Below(rank(m[key]))
    ensures Covers(rank, m[key := value], m)
  {
    CoversReflexive(rank, m);
  }

  /** No operation loses metadata, and none that drops no session loses anything. */
  lemma OpGrows(s: Store, op: Op)
    requires Dominates(s)
    ensures Covers(RegisterRank, Step(s, op).0.meta, s.meta)
    ensures Keeps(s, op) ==> Grows(s, Step(s, op).0)
  {
    CoversReflexive(SessionRank, s.sessions);
    CoversReflexive(RegisterRank, s.meta);
    match op
    case SaveSession(session, now) => SaveIsNewer(s, session, now, now);
    case CreateSession(id, data, ttl, born, first, expiry, now) =>
      CreatedWins(s, op);
      if id in s.sessions { assert Holds(s, SessionVersion(id, s.sessions[id])); }
      WriteGrows(SessionRank, s.sessions, id, Step(s, op).0.sessions[id]);
    case DeleteSession(id, now) => DeleteIsNewer(s, id, now, now);
    case SetMeta(key, value, now) => MetaIsNewer(s, key, value, now);
    case _ =>
  }

  /** After an import the store covers both what it held and what the message carried. */
  lemma ImportGrows(s: Store, g: Gossip, walls: ImportWalls)
    ensures var s' := Imported(s, g, walls);
            Grows(s, s') && Covers(SessionRank, s'.sessions, g.sessions) && Covers(RegisterRank, s'.meta, g.meta)
  {
    MergeMapIsJoin(SessionRank, s.sessions, g.sessions, s.sessions);
    MergeMapIsJoin(RegisterRank, s.meta, g.meta, s.meta);
  }

  /** Absent collection, a tombstone survives every later sequence of merges that brings only older
      versions of its session, and the session stays unreadable. */
  lemma TombstoneSurvives(s: Store, id: string, now: int, chunks: seq<map<string, Session>>, read: int)
    requires id in s.sessions
    requires var tomb := Deleted(s, id, now).sessions[id];
             forall c :: c in chunks && id in c ==> SessionRank(c[id]).Below(SessionRank(tomb))
    ensures var s' := Deleted(s, id, now);
            var merged := MergeAll(SessionRank, s'.sessions, chunks);
            && id in merged && merged[id] == s'.sessions[id]
            && Fetched(s'.(sessions := merged), id, read).1 == None
  {
    var tombs := Deleted(s, id, now).sessions;
    forall c | c in chunks && id in c ensures !SessionRank(tombs[id]).Below(SessionRank(c[id])) {
      RankTrichotomy(SessionRank(tombs[id]), SessionRank(c[id]));
    }
    EntrySurvives(SessionRank, tombs, chunks, id);
  }
}
