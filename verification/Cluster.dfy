/** Any number of storage managers gossiping over a network that loses, duplicates and reorders
    messages, under one wall clock that never runs backwards. */
module Cluster {
  import opened Options
  import opened Hlc
  import opened Lww
  import opened Crdt
  import opened Store
  import opened Growth

  /** Versions a node has written or been sent. */
  datatype Seen = Seen(sessions: set<(string, Session)>, meta: set<(string, Register)>)

  /** Messages stay in `wire` once sent: each may be delivered never, once or many times, in any order.
      `history` and `seen` only record what happened: all versions ever written, and what reached whom. */
  datatype Cluster = Cluster(nodes: map<string, Store>, wire: set<Gossip>, wall: int,
                             history: set<Version>, seen: map<string, Seen>)

  datatype Action =
    | Local(node: string, op: Op)
    | SendSnapshot(node: string, now: int)
    | SendDelta(node: string, since: Timestamp, now: int)
    | Deliver(node: string, message: Gossip, walls: ImportWalls, end: int)

  ghost predicate Enabled(c: Cluster, a: Action)
  {
    && a.node in c.nodes && a.node in c.seen
    && match a
       case Local(_, op) => Timed(op, c.wall)
       case SendSnapshot(_, now) => c.wall <= now
       case SendDelta(_, _, now) => c.wall <= now
       case Deliver(_, message, walls, end) => message in c.wire && walls.Between(c.wall, end)
  }

  ghost function Noted(seen: Seen, written: Option<Version>): Seen
  {
    match written
    case Some(SessionVersion(id, s)) => seen.(sessions := seen.sessions + {(id, s)})
    case Some(MetaVersion(name, r)) => seen.(meta := seen.meta + {(name, r)})
    case _ => seen
  }

  ghost function Received(seen: Seen, g: Gossip): Seen
  {
    Seen(seen.sessions + g.sessions.Items, seen.meta + g.meta.Items)
  }

  function AsSet(written: Option<Version>): set<Version>
  {
    match written
    case Some(v) => {v}
    case None => {}
  }

  ghost function Apply(c: Cluster, a: Action): Cluster
    requires Enabled(c, a)
  {
    var s := c.nodes[a.node];
    match a
    case Local(n, op) =>
      c.(nodes := c.nodes[n := Step(s, op).0], wall := EndOf(op, c.wall),
         history := c.history + AsSet(Written(s, op)), seen := c.seen[n := Noted(c.seen[n], Written(s, op))])
    case SendSnapshot(n, now) =>
      var (s', g) := Snapshot(s, now);
      c.(nodes := c.nodes[n := s'], wire := c.wire + {g}, wall := now)
    case SendDelta(n, since, now) =>
      var (s', g) := DeltaSince(s, since, now);
      c.(nodes := c.nodes[n := s'], wire := c.wire + {g}, wall := now)
    case Deliver(n, message, walls, end) =>
      c.(nodes := c.nodes[n := Imported(s, message, walls)], wall := end,
         seen := c.seen[n := Received(c.seen[n], message)])
  }

  /** Distinct, non-empty node ids; each node has just been created. */
  ghost predicate Init(c: Cluster)
  {
    && c.wire == {} && c.history == {}
    && c.seen.Keys == c.nodes.Keys
    && forall n :: n in c.nodes ==>
         && n != "" && c.seen[n] == Seen({}, {})
         && c.nodes[n].clock.physical <= c.wall
         && c.nodes[n] == Booted(n, c.nodes[n].clock.physical)
  }

  // ---------- Runs ----------

  ghost predicate Valid(c: Cluster, run: seq<Action>)
    decreases |run|
  {
    run == [] || (Enabled(c, run[0]) && Valid(Apply(c, run[0]), run[1..]))
  }

  ghost function After(c: Cluster, run: seq<Action>): Cluster
    requires Valid(c, run)
    decreases |run|
  {
    if run == [] then c else After(Apply(c, run[0]), run[1..])
  }

  /** Nothing is garbage collected along the run. */
  ghost predicate WithoutCollection(c: Cluster, run: seq<Action>)
    requires Valid(c, run)
    decreases |run|
  {
    run != [] ==>
      && (run[0].Local? ==> Keeps(c.nodes[run[0].node], run[0].op))
      && WithoutCollection(Apply(c, run[0]), run[1..])
  }

  // ---------- The invariant ----------

  ghost predicate NodesOk(c: Cluster)
  {
    && c.seen.Keys == c.nodes.Keys
    && forall n :: n in c.nodes ==>
         && c.nodes[n].node == n && Dominates(c.nodes[n]) && c.nodes[n].clock.physical <= c.wall
         && forall v :: Holds(c.nodes[n], v) ==> v in c.history
  }

  ghost predicate WireOk(c: Cluster)
  {
    forall g :: g in c.wire ==>
      FitGossip(g, c.wall) && forall v :: Carries(g, v) ==> v in c.history
  }

  /** No two different versions share timestamp and node. */
  ghost predicate UniqueStamps(history: set<Version>)
  {
    forall v, w :: v in history && w in history && v.Ts() == w.Ts() && v.Node() == w.Node() ==> v == w
  }

  ghost predicate HistoryOk(c: Cluster)
  {
    && (forall v :: v in c.history ==>
          v.Node() in c.nodes && v.Ts().LessOrEqual(c.nodes[v.Node()].clock))
    && UniqueStamps(c.history)
  }

  ghost predicate Inv(c: Cluster)
  {
    NodesOk(c) && WireOk(c) && HistoryOk(c)
  }

  lemma InitInv(c: Cluster)
    requires Init(c)
    ensures Inv(c)
  {
  }

  /** A node moves its clock forward and writes at most one version, stamped with its new clock. */
  lemma NodeMoves(c: Cluster, n: string, s': Store, written: Option<Version>, wall: int, seen: Seen)
    requires Inv(c) && n in c.nodes
    requires s'.node == n && Dominates(s') && c.nodes[n].clock.LessOrEqual(s'.clock)
    requires c.wall <= wall && s'.clock.physical <= wall
    requires forall v :: Holds(s', v) ==> v in c.history || written == Some(v)
    requires written.Some? ==>
               written.value.Node() == n && written.value.Ts() == s'.clock && c.nodes[n].clock.Less(s'.clock)
    ensures Inv(c.(nodes := c.nodes[n := s'], wall := wall, history := c.history + AsSet(written), seen := c.seen[n := seen]))
  {
    var c' := c.(nodes := c.nodes[n := s'], wall := wall, history := c.history + AsSet(written), seen := c.seen[n := seen]);
    forall v | v in c'.history
      ensures v.Node() in c'.nodes && v.Ts().LessOrEqual(c'.nodes[v.Node()].clock)
    {
      if v in c.history { LessIsTotalOrder(v.Ts(), c.nodes[v.Node()].clock, s'.clock); }
    }
    forall v, w | v in c'.history && w in c'.history && v.Ts() == w.Ts() && v.Node() == w.Node()
      ensures v == w
    {
      assert v in c.history || written == Some(v);
      assert w in c.history || written == Some(w);
      LessIsTotalOrder(v.Ts(), c.nodes[n].clock, s'.clock);
    }
  }

  /** Sending adds a message whose entries the sender holds and whose version it has just drawn. */
  lemma SendOk(c: Cluster, n: string, g: Gossip, now: int)
    requires Inv(c) && n in c.nodes && c.wall <= now
    requires g.version == Ticked(c.nodes[n].clock, now)
    requires forall v :: Carries(g, v) ==> Holds(c.nodes[n], v)
    ensures forall gossip: Timestamp ::
              Inv(c.(nodes := c.nodes[n := c.nodes[n].(clock := g.version, gossip := gossip)], wire := c.wire + {g}, wall := now))
  {
    var s := c.nodes[n];
    forall gossip: Timestamp
      ensures Inv(c.(nodes := c.nodes[n := s.(clock := g.version, gossip := gossip)], wire := c.wire + {g}, wall := now))
    {
      var s' := s.(clock := g.version, gossip := gossip);
      forall v | Holds(s', v)
        ensures v in c.history && v.Ts().WellFormed() && v.Ts().LessOrEqual(s'.clock)
      {
        assert Holds(s, v);
        LessIsTotalOrder(v.Ts(), s.clock, s'.clock);
      }
      NodeMoves(c, n, s', None, now, c.seen[n]);
      forall v | Carries(g, v)
        ensures v in c.history && v.Ts().WellFormed() && v.Ts().LessOrEqual(g.version)
      {
        assert Holds(s', v);
      }
      assert c.seen[n := c.seen[n]] == c.seen;
      assert c.history + {} == c.history;
    }
  }

  /** Every step of every node keeps the invariant. */
  lemma ApplyKeepsInv(c: Cluster, a: Action)
    requires Inv(c) && Enabled(c, a)
    ensures Inv(Apply(c, a))
  {
    var s := c.nodes[a.node];
    match a
    case Local(n, op) =>
      LocalStep(s, op);
      LocalStepTime(s, op, c.wall);
      NodeMoves(c, n, Step(s, op).0, Written(s, op), EndOf(op, c.wall), Noted(c.seen[n], Written(s, op)));
    case SendSnapshot(n, now) =>
      var (s', g) := Snapshot(s, now);
      SendOk(c, n, g, now);
      assert s' == s.(clock := g.version, gossip := g.version);
    case SendDelta(n, since, now) =>
      var (s', g) := DeltaSince(s, since, now);
      SendOk(c, n, g, now);
      assert s' == s.(clock := g.version, gossip := s.gossip);
    case Deliver(n, message, walls, end) =>
      ImportStep(s, message, walls, c.wall, end);
      NodeMoves(c, n, Imported(s, message, walls), None, end, Received(c.seen[n], message));
      assert c.history + {} == c.history;
  }

  lemma {:induction false} RunKeepsInv(c: Cluster, run: seq<Action>)
    requires Inv(c) && Valid(c, run)
    ensures Inv(After(c, run))
    decreases |run|
  {
    if run != [] {
      ApplyKeepsInv(c, run[0]);
      RunKeepsInv(Apply(c, run[0]), run[1..]);
    }
  }

  /** Cluster safety: in every reachable state no stamp is ahead of the wall clock, every clock is at or
      above the stamps its node stores, every message's version is above its entries, and no two different
      versions anywhere share timestamp and node. */
  lemma ClusterSafety(c: Cluster, run: seq<Action>)
    requires Init(c) && Valid(c, run)
    ensures var c' := After(c, run);
            && (forall n, v :: n in c'.nodes && Holds(c'.nodes[n], v) ==>
                  v.Ts().physical <= c'.wall && v.Ts().LessOrEqual(c'.nodes[n].clock))
            && (forall g, v :: g in c'.wire && Carries(g, v) ==>
                  v.Ts().physical <= c'.wall && v.Ts().LessOrEqual(g.version))
            && UniqueStamps(c'.history)
            && (forall n, v :: n in c'.nodes && Holds(c'.nodes[n], v) ==> v in c'.history)
            && (forall g, v :: g in c'.wire && Carries(g, v) ==> v in c'.history)
  {
    InitInv(c);
    RunKeepsInv(c, run);
  }

  // ---------- Strong convergence ----------

  /** A node's metadata, and if asked for its sessions, are the newest of the versions that reached it. */
  ghost predicate IsNewestSeen(s: Store, seen: Seen, sessions: bool)
  {
    IsNewest(RegisterRank, s.meta, seen.meta) && (sessions ==> IsNewest(SessionRank, s.sessions, seen.sessions))
  }

  ghost predicate Recorded(seen: Seen, history: set<Version>)
  {
    && (forall e :: e in seen.sessions ==> SessionVersion(e.0, e.1) in history)
    && (forall e :: e in seen.meta ==> MetaVersion(e.0, e.1) in history)
  }

  ghost predicate HoldsNewest(c: Cluster, sessions: bool)
  {
    && c.seen.Keys == c.nodes.Keys
    && forall n :: n in c.nodes ==> IsNewestSeen(c.nodes[n], c.seen[n], sessions) && Recorded(c.seen[n], c.history)
  }

  lemma InitHoldsNewest(c: Cluster)
    requires Init(c)
    ensures HoldsNewest(c, true)
  {
  }

  lemma LocalKeepsSessions(s: Store, op: Op, seen: Seen)
    requires Dominates(s) && Keeps(s, op) && IsNewest(SessionRank, s.sessions, seen.sessions)
    ensures IsNewest(SessionRank, Step(s, op).0.sessions, Noted(seen, Written(s, op)).sessions)
  {
    var s' := Step(s, op).0;
    OpGrows(s, op);
    match op
    case SaveSession(session, now) =>
      LocalWritesWin(s, session, "", "", now);
      WriteKeepsNewest(SessionRank, s.sessions, seen.sessions, session.id, s'.sessions[session.id]);
    case CreateSession(id, data, ttl, born, first, expiry, now) =>
      CreatedWins(s, op);
      WriteKeepsNewest(SessionRank, s.sessions, seen.sessions, id, s'.sessions[id]);
    case DeleteSession(id, now) =>
      if id in s.sessions {
        WriteKeepsNewest(SessionRank, s.sessions, seen.sessions, id, s'.sessions[id]);
      }
    case _ =>
  }

  lemma LocalKeepsMeta(s: Store, op: Op, seen: Seen)
    requires Dominates(s) && IsNewest(RegisterRank, s.meta, seen.meta)
    ensures IsNewest(RegisterRank, Step(s, op).0.meta, Noted(seen, Written(s, op)).meta)
  {
    if op.SetMeta? {
      OpGrows(s, op);
      LocalWritesWin(s, Session("", [], 0, 0, 0, "", 0, s.clock, "", false), op.key, op.value, op.now);
      WriteKeepsNewest(RegisterRank, s.meta, seen.meta, op.key, Step(s, op).0.meta[op.key]);
    }
  }

  lemma ImportKeepsNewest(s: Store, g: Gossip, walls: ImportWalls, seen: Seen, history: set<Version>, sessions: bool)
    requires IsNewestSeen(s, seen, sessions) && Recorded(seen, history)
    requires forall v :: Carries(g, v) ==> v in history
    ensures IsNewestSeen(Imported(s, g, walls), Received(seen, g), sessions) && Recorded(Received(seen, g), history)
  {
    if sessions { MergeKeepsNewest(SessionRank, s.sessions, seen.sessions, g.sessions); }
    MergeKeepsNewest(RegisterRank, s.meta, seen.meta, g.meta);
    forall e | e in g.sessions.Items ensures SessionVersion(e.0, e.1) in history {
      assert Carries(g, SessionVersion(e.0, e.1));
    }
    forall e | e in g.meta.Items ensures MetaVersion(e.0, e.1) in history {
      assert Carries(g, MetaVersion(e.0, e.1));
    }
  }

  lemma NodeKeepsNewest(c: Cluster, c': Cluster, n: string, sessions: bool)
    requires HoldsNewest(c, sessions) && n in c.nodes && n in c'.nodes && n in c'.seen
    requires c'.nodes == c.nodes[n := c'.nodes[n]] && c'.seen == c.seen[n := c'.seen[n]] && c.history <= c'.history
    requires IsNewestSeen(c'.nodes[n], c'.seen[n], sessions) && Recorded(c'.seen[n], c'.history)
    ensures HoldsNewest(c', sessions)
  {
    forall k | k in c'.nodes ensures IsNewestSeen(c'.nodes[k], c'.seen[k], sessions) && Recorded(c'.seen[k], c'.history) {
      if k != n {
        assert IsNewestSeen(c.nodes[k], c.seen[k], sessions) && Recorded(c.seen[k], c.history);
      }
    }
  }

  lemma LocalRecorded(s: Store, op: Op, seen: Seen, history: set<Version>)
    requires Recorded(seen, history)
    ensures Recorded(Noted(seen, Written(s, op)), history + AsSet(Written(s, op)))
  {
  }

  lemma ApplyKeepsNewest(c: Cluster, a: Action, sessions: bool)
    requires Inv(c) && Enabled(c, a) && HoldsNewest(c, sessions)
    requires sessions && a.Local? ==> Keeps(c.nodes[a.node], a.op)
    ensures HoldsNewest(Apply(c, a), sessions)
  {
    var n := a.node;
    var s, seen := c.nodes[n], c.seen[n];
    assert IsNewestSeen(s, seen, sessions) && Recorded(seen, c.history);
    match a
    case Local(_, op) =>
      LocalKeepsMeta(s, op, seen);
      if sessions { LocalKeepsSessions(s, op, seen); }
      LocalRecorded(s, op, seen, c.history);
      NodeKeepsNewest(c, Apply(c, a), n, sessions);
    case SendSnapshot(_, _) =>
      NodeKeepsNewest(c, Apply(c, a), n, sessions);
    case SendDelta(_, _, _) =>
      NodeKeepsNewest(c, Apply(c, a), n, sessions);
    case Deliver(_, message, walls, _) =>
      ImportKeepsNewest(s, message, walls, seen, c.history, sessions);
      NodeKeepsNewest(c, Apply(c, a), n, sessions);
  }

  lemma {:induction false} RunKeepsNewest(c: Cluster, run: seq<Action>, sessions: bool)
    requires Inv(c) && HoldsNewest(c, sessions) && Valid(c, run)
    requires sessions ==> WithoutCollection(c, run)
    ensures HoldsNewest(After(c, run), sessions)
    decreases |run|
  {
    if run != [] {
      ApplyKeepsInv(c, run[0]);
      ApplyKeepsNewest(c, run[0], sessions);
      RunKeepsNewest(Apply(c, run[0]), run[1..], sessions);
    }
  }

  /** Strong convergence: along every run, any two nodes that the same versions have reached hold the same
      metadata - the newest version of each key - whatever the order, the duplication and the grouping into
      snapshots and deltas in which those versions travelled.  The same holds for sessions along every run
      in which none is dropped. */
  lemma StrongConvergence(c: Cluster, run: seq<Action>, m: string, n: string)
    requires Init(c) && Valid(c, run)
    requires m in After(c, run).nodes && n in After(c, run).nodes
    ensures var c' := After(c, run);
            c'.seen.Keys == c'.nodes.Keys && HoldsNewest(c', false) && (WithoutCollection(c, run) ==> HoldsNewest(c', true))
    ensures var c' := After(c, run);
            && (c'.seen[m].meta == c'.seen[n].meta ==> c'.nodes[m].meta == c'.nodes[n].meta)
            && (WithoutCollection(c, run) && c'.seen[m].sessions == c'.seen[n].sessions ==> c'.nodes[m].sessions == c'.nodes[n].sessions)
  {
    InitInv(c);
    InitHoldsNewest(c);
    RunKeepsInv(c, run);
    RunKeepsNewest(c, run, false);
    SeenDeterminesMeta(After(c, run), m, n);
    if WithoutCollection(c, run) {
      RunKeepsNewest(c, run, true);
      SeenDeterminesSessions(After(c, run), m, n);
    }
  }

  lemma SeenDeterminesSessions(c: Cluster, m: string, n: string)
    requires HoldsNewest(c, true) && UniqueStamps(c.history) && m in c.nodes && n in c.nodes
    ensures c.seen[m].sessions == c.seen[n].sessions ==> c.nodes[m].sessions == c.nodes[n].sessions
  {
    SessionsDistinct(c.seen[m], c.history);
    if c.seen[m].sessions == c.seen[n].sessions {
      NewestIsUnique(SessionRank, c.nodes[m].sessions, c.nodes[n].sessions, c.seen[m].sessions);
    }
  }

  lemma SeenDeterminesMeta(c: Cluster, m: string, n: string)
    requires HoldsNewest(c, false) && UniqueStamps(c.history) && m in c.nodes && n in c.nodes
    ensures c.seen[m].meta == c.seen[n].meta ==> c.nodes[m].meta == c.nodes[n].meta
  {
    MetaDistinct(c.seen[m], c.history);
    if c.seen[m].meta == c.seen[n].meta {
      NewestIsUnique(RegisterRank, c.nodes[m].meta, c.nodes[n].meta, c.seen[m].meta);
    }
  }

  lemma SessionsDistinct(seen: Seen, history: set<Version>)
    requires Recorded(seen, history) && UniqueStamps(history)
    ensures Distinct(SessionRank, seen.sessions)
  {
    forall k, v, w | (k, v) in seen.sessions && (k, w) in seen.sessions && SessionRank(v) == SessionRank(w)
      ensures v == w
    {
      assert SessionVersion((k, v).0, (k, v).1) in history && SessionVersion((k, w).0, (k, w).1) in history;
      assert SessionVersion(k, v) == SessionVersion(k, w);
    }
  }

  lemma MetaDistinct(seen: Seen, history: set<Version>)
    requires Recorded(seen, history) && UniqueStamps(history)
    ensures Distinct(RegisterRank, seen.meta)
  {
    forall k, v, w | (k, v) in seen.meta && (k, w) in seen.meta && RegisterRank(v) == RegisterRank(w)
      ensures v == w
    {
      assert MetaVersion((k, v).0, (k, v).1) in history && MetaVersion((k, w).0, (k, w).1) in history;
      assert MetaVersion(k, v) == MetaVersion(k, w);
    }
  }
}
