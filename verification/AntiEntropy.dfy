/** Anti-entropy: once writes and collection have stopped, exchanging full snapshots makes all stores equal. */
module AntiEntropy {
  import opened Lww
  import opened Crdt
  import opened Store
  import opened Cluster
  import opened Growth

  // ---------- Maps that know of some of the initial maps ----------

  ghost function AllItems<V>(starts: map<string, map<string, V>>): set<(string, V)>
  {
    set n, k | n in starts && k in starts[n] :: (k, starts[n][k])
  }

  /** Every one of these items is covered by what some node started with. */
  ghost predicate Outdated<V(!new)>(rank: V -> Rank, starts: map<string, map<string, V>>, items: set<(string, V)>)
  {
    forall k, v :: (k, v) in items ==> CoveredSomewhere(rank, starts, k, v)
  }

  ghost predicate CoveredSomewhere<V(!new)>(rank: V -> Rank, starts: map<string, map<string, V>>, k: string, v: V)
  {
    exists n :: n in starts && k in starts[n] && !rank(starts[n][k]).Below(rank(v))
  }

  /** m holds only entries some node started with, or late ones, and covers what each of `heard` started with. */
  ghost predicate KnowsOf<V(!new)>(rank: V -> Rank, starts: map<string, map<string, V>>, late: set<(string, V)>,
                                   heard: set<string>, m: map<string, V>)
  {
    && (forall k :: k in m ==> (k, m[k]) in AllItems(starts) + late)
    && (forall n :: n in heard && n in starts ==> Covers(rank, m, starts[n]))
  }

  lemma MergeKnowsOfBoth<V(!new)>(rank: V -> Rank, starts: map<string, map<string, V>>, late: set<(string, V)>,
                                  heard1: set<string>, m1: map<string, V>, heard2: set<string>, m2: map<string, V>)
    requires KnowsOf(rank, starts, late, heard1, m1) && KnowsOf(rank, starts, late, heard2, m2)
    ensures KnowsOf(rank, starts, late, heard1 + heard2, MergeMap(rank, m1, m2))
  {
    var m := MergeMap(rank, m1, m2);
    MergeMapIsJoin(rank, m1, m2, m);
    forall n | n in heard1 + heard2 && n in starts ensures Covers(rank, m, starts[n]) {
      if n in heard1 {
        CoversTransitive(rank, m, m1, starts[n]);
      } else {
        CoversTransitive(rank, m, m2, starts[n]);
      }
    }
  }

  lemma KnowsItself<V(!new)>(rank: V -> Rank, starts: map<string, map<string, V>>, late: set<(string, V)>, n: string)
    requires n in starts
    ensures KnowsOf(rank, starts, late, {n}, starts[n])
  {
    CoversReflexive(rank, starts[n]);
  }

  /** Having heard of every node is holding the join of all the initial maps: outdated items that arrive
      late change nothing. */
  lemma KnowingAllIsNewest<V(!new)>(rank: V -> Rank, starts: map<string, map<string, V>>, late: set<(string, V)>,
                                    heard: set<string>, m: map<string, V>)
    requires KnowsOf(rank, starts, late, heard, m) && starts.Keys <= heard
    requires Outdated(rank, starts, late) && Distinct(rank, AllItems(starts) + late)
    ensures IsNewest(rank, m, AllItems(starts))
  {
    forall k, v | (k, v) in AllItems(starts) ensures k in m && !rank(m[k]).Below(rank(v)) {
      var n :| n in starts && k in starts[n] && v == starts[n][k];
      assert Covers(rank, m, starts[n]);
    }
    forall k | k in m ensures (k, m[k]) in AllItems(starts) {
      if (k, m[k]) !in AllItems(starts) {
        assert CoveredSomewhere(rank, starts, k, m[k]);
        var n :| n in starts && k in starts[n] && !rank(starts[n][k]).Below(rank(m[k]));
        assert Covers(rank, m, starts[n]) && (k, starts[n][k]) in AllItems(starts);
        RankTrichotomy(rank(m[k]), rank(starts[n][k]));
      }
    }
  }

  // ---------- The quiet network ----------

  /** A message remembers which nodes its sender had heard of; `heard` and these sets only record. */
  datatype Letter = Letter(snapshot: Gossip, heard: set<string>)
  datatype Net = Net(nodes: map<string, Store>, heard: map<string, set<string>>, wire: set<Letter>)

  datatype Exchange = Send(node: string, now: int) | Import(node: string, letter: Letter, walls: ImportWalls)

  /** Writes have stopped; the messages of `late`, sent before, may still arrive. */
  ghost function Quiet(nodes: map<string, Store>, late: set<Gossip>): Net
  {
    Net(nodes, map n | n in nodes :: {n}, set g | g in late :: Letter(g, {}))
  }

  ghost predicate Possible(net: Net, x: Exchange)
  {
    x.node in net.nodes && x.node in net.heard && (x.Import? ==> x.letter in net.wire)
  }

  ghost function Exchanged(net: Net, x: Exchange): Net
    requires Possible(net, x)
  {
    var s := net.nodes[x.node];
    match x
    case Send(n, now) =>
      var (s', g) := Snapshot(s, now);
      net.(nodes := net.nodes[n := s'], wire := net.wire + {Letter(g, net.heard[n])})
    case Import(n, letter, walls) =>
      net.(nodes := net.nodes[n := Imported(s, letter.snapshot, walls)],
           heard := net.heard[n := net.heard[n] + letter.heard])
  }

  ghost predicate AllPossible(net: Net, xs: seq<Exchange>)
    decreases |xs|
  {
    xs == [] || (Possible(net, xs[0]) && AllPossible(Exchanged(net, xs[0]), xs[1..]))
  }

  ghost function AllExchanged(net: Net, xs: seq<Exchange>): Net
    requires AllPossible(net, xs)
    decreases |xs|
  {
    if xs == [] then net else AllExchanged(Exchanged(net, xs[0]), xs[1..])
  }

  /** All lock merges of the import happen at time t. */
  ghost predicate MergesLocksAt(x: Exchange, t: int)
  {
    x.Import? ==> forall k :: x.walls.lockMerges.At(k) == t
  }

  function SessionsOf(nodes: map<string, Store>): map<string, map<string, Session>>
  {
    map n | n in nodes :: nodes[n].sessions
  }

  function LocksOf(nodes: map<string, Store>): map<string, map<string, Lock>>
  {
    map n | n in nodes :: nodes[n].locks
  }

  function MetaOf(nodes: map<string, Store>): map<string, map<string, Register>>
  {
    map n | n in nodes :: nodes[n].meta
  }

  ghost function SessionItems(gs: set<Gossip>): set<(string, Session)>
  {
    set g, k | g in gs && k in g.sessions :: (k, g.sessions[k])
  }

  ghost function LockItems(gs: set<Gossip>): set<(string, Lock)>
  {
    set g, k | g in gs && k in g.locks :: (k, g.locks[k])
  }

  ghost function MetaItems(gs: set<Gossip>): set<(string, Register)>
  {
    set g, k | g in gs && k in g.meta :: (k, g.meta[k])
  }

  /** What everything in the network started from; `t` is the time of all lock merges, if that is fixed.
      `sessions` tells whether nothing newer than a node holds is known to be under way for sessions too. */
  datatype Origin = Origin(starts: map<string, Store>, late: set<Gossip>, sessions: bool, t: int, fixed: bool)

  ghost predicate Knows(o: Origin, heard: set<string>, sessions: map<string, Session>, locks: map<string, Lock>, meta: map<string, Register>)
  {
    && KnowsOf(SessionRank, SessionsOf(o.starts), SessionItems(o.late), heard, sessions)
    && KnowsOf(RegisterRank, MetaOf(o.starts), MetaItems(o.late), heard, meta)
    && (o.fixed ==> KnowsOf(LockRank(o.t), LocksOf(o.starts), LockItems(o.late), heard, locks))
  }

  ghost predicate Spread(o: Origin, net: Net)
  {
    && net.nodes.Keys == o.starts.Keys == net.heard.Keys
    && (forall n :: n in net.nodes ==> StoreKnows(o, net.heard[n], net.nodes[n]))
    && (forall l :: l in net.wire ==> LetterKnows(o, l))
  }

  ghost predicate StoreKnows(o: Origin, heard: set<string>, s: Store)
  {
    Knows(o, heard, s.sessions, s.locks, s.meta)
  }

  ghost predicate LetterKnows(o: Origin, l: Letter)
  {
    Knows(o, l.heard, l.snapshot.sessions, l.snapshot.locks, l.snapshot.meta)
  }

  lemma LateKnows(o: Origin, g: Gossip)
    requires g in o.late
    ensures LetterKnows(o, Letter(g, {}))
  {
    assert forall k :: k in g.sessions ==> (k, g.sessions[k]) in SessionItems(o.late);
    assert forall k :: k in g.locks ==> (k, g.locks[k]) in LockItems(o.late);
    assert forall k :: k in g.meta ==> (k, g.meta[k]) in MetaItems(o.late);
  }

  lemma QuietSpread(o: Origin)
    ensures Spread(o, Quiet(o.starts, o.late))
  {
    forall n | n in o.starts ensures StoreKnows(o, {n}, o.starts[n]) {
      KnowsItself(SessionRank, SessionsOf(o.starts), SessionItems(o.late), n);
      KnowsItself(RegisterRank, MetaOf(o.starts), MetaItems(o.late), n);
      KnowsItself(LockRank(o.t), LocksOf(o.starts), LockItems(o.late), n);
    }
    forall g | g in o.late ensures LetterKnows(o, Letter(g, {})) { LateKnows(o, g); }
  }

  lemma ImportKnows(o: Origin, s: Store, heard: set<string>, letter: Letter, walls: ImportWalls)
    requires StoreKnows(o, heard, s) && LetterKnows(o, letter)
    requires o.fixed ==> forall k :: walls.lockMerges.At(k) == o.t
    ensures StoreKnows(o, heard + letter.heard, Imported(s, letter.snapshot, walls))
  {
    var g := letter.snapshot;
    MergeKnowsOfBoth(SessionRank, SessionsOf(o.starts), SessionItems(o.late), heard, s.sessions, letter.heard, g.sessions);
    MergeKnowsOfBoth(RegisterRank, MetaOf(o.starts), MetaItems(o.late), heard, s.meta, letter.heard, g.meta);
    if o.fixed {
      MergeKnowsOfBoth(LockRank(o.t), LocksOf(o.starts), LockItems(o.late), heard, s.locks, letter.heard, g.locks);
      LockMapAtFixedTime(s.locks, g.locks, walls.lockMerges, o.t);
    }
  }

  lemma LockMapAtFixedTime(m: map<string, Lock>, other: map<string, Lock>, wall: Wall, t: int)
    requires forall k :: wall.At(k) == t
    ensures MergeLockMap(m, other, wall) == MergeMap(LockRank(t), m, other)
  {
    assert MergeLockMap(m, other, wall).Keys == MergeMap(LockRank(t), m, other).Keys;
  }

  lemma ExchangeSpreads(o: Origin, net: Net, x: Exchange)
    requires Spread(o, net) && Possible(net, x) && (o.fixed ==> MergesLocksAt(x, o.t))
    ensures Spread(o, Exchanged(net, x))
  {
    match x
    case Send(n, now) => SendSpreads(o, net, n, now);
    case Import(n, letter, walls) => ImportSpreads(o, net, n, letter, walls);
  }

  lemma ImportSpreads(o: Origin, net: Net, n: string, letter: Letter, walls: ImportWalls)
    requires Spread(o, net) && Possible(net, Import(n, letter, walls))
    requires o.fixed ==> forall k :: walls.lockMerges.At(k) == o.t
    ensures Spread(o, Exchanged(net, Import(n, letter, walls)))
  {
    var s', heard := Imported(net.nodes[n], letter.snapshot, walls), net.heard[n] + letter.heard;
    assert StoreKnows(o, heard, s') by {
      assert StoreKnows(o, net.heard[n], net.nodes[n]) && LetterKnows(o, letter);
      ImportKnows(o, net.nodes[n], net.heard[n], letter, walls);
    }
    SpreadAfter(o, net, n, s', heard, {});
    assert net.wire + {} == net.wire;
  }

  lemma SendSpreads(o: Origin, net: Net, n: string, now: int)
    requires Spread(o, net) && Possible(net, Send(n, now))
    ensures Spread(o, Exchanged(net, Send(n, now)))
  {
    var (s', g) := Snapshot(net.nodes[n], now);
    assert StoreKnows(o, net.heard[n], net.nodes[n]);
    SpreadAfter(o, net, n, s', net.heard[n], {Letter(g, net.heard[n])});
    assert net.heard[n := net.heard[n]] == net.heard;
  }

  lemma SpreadAfter(o: Origin, net: Net, n: string, s: Store, heard: set<string>, sent: set<Letter>)
    requires Spread(o, net) && n in net.nodes
    requires StoreKnows(o, heard, s) && forall l :: l in sent ==> LetterKnows(o, l)
    ensures Spread(o, Net(net.nodes[n := s], net.heard[n := heard], net.wire + sent))
  {
  }

  lemma {:induction false} ExchangesSpread(o: Origin, net: Net, xs: seq<Exchange>)
    requires Spread(o, net) && AllPossible(net, xs)
    requires o.fixed ==> forall x :: x in xs ==> MergesLocksAt(x, o.t)
    ensures Spread(o, AllExchanged(net, xs))
    decreases |xs|
  {
    if xs != [] {
      assert xs[0] in xs;
      ExchangeSpreads(o, net, xs[0]);
      ExchangesSpread(o, Exchanged(net, xs[0]), xs[1..]);
    }
  }

  // ---------- Convergence ----------

  ghost predicate AllOutdated(o: Origin)
  {
    && (o.sessions ==> Outdated(SessionRank, SessionsOf(o.starts), SessionItems(o.late)))
    && Outdated(RegisterRank, MetaOf(o.starts), MetaItems(o.late))
    && (o.fixed ==> Outdated(LockRank(o.t), LocksOf(o.starts), LockItems(o.late)))
  }

  ghost predicate HoldsJoin(o: Origin, s: Store)
  {
    && (o.sessions ==> IsNewest(SessionRank, s.sessions, AllItems(SessionsOf(o.starts))))
    && IsNewest(RegisterRank, s.meta, AllItems(MetaOf(o.starts)))
    && (o.fixed ==> IsNewest(LockRank(o.t), s.locks, AllItems(LocksOf(o.starts))))
  }

  /** Once writes and collection have stopped in any reachable state of the cluster, every node that has
      heard of all others - by importing a snapshot of each, directly or relayed, in any order and any
      number of times - holds the newest version of every key held anywhere at that point, even if messages
      sent before, with nothing newer in them, arrive in between.  So all such nodes hold the same metadata
      and sessions, and the same locks when lock merges happen at one time.  Newer sessions under way do not
      disturb the metadata. */
  lemma AntiEntropyConverges(c: Cluster, o: Origin, xs: seq<Exchange>, m: string, n: string)
    requires Inv(c) && o.starts == c.nodes && o.late <= c.wire && AllOutdated(o)
    requires AllPossible(Quiet(o.starts, o.late), xs)
    requires o.fixed ==> forall x :: x in xs ==> MergesLocksAt(x, o.t)
    requires var net := AllExchanged(Quiet(o.starts, o.late), xs);
             m in net.nodes && n in net.nodes && m in net.heard && n in net.heard && net.heard[m] == net.heard[n] == c.nodes.Keys
    ensures var net := AllExchanged(Quiet(o.starts, o.late), xs);
            && HoldsJoin(o, net.nodes[m])
            && (o.sessions ==> net.nodes[m].sessions == net.nodes[n].sessions)
            && net.nodes[m].meta == net.nodes[n].meta
            && (o.fixed ==> net.nodes[m].locks == net.nodes[n].locks)
  {
    var net := AllExchanged(Quiet(o.starts, o.late), xs);
    QuietSpread(o);
    ExchangesSpread(o, Quiet(o.starts, o.late), xs);
    ItemsDistinct(c, o);
    assert StoreKnows(o, net.heard[m], net.nodes[m]) && StoreKnows(o, net.heard[n], net.nodes[n]);
    KnowsJoin(o, net.heard[m], net.nodes[m]);
    KnowsJoin(o, net.heard[n], net.nodes[n]);
    if o.sessions {
      NewestIsUnique(SessionRank, net.nodes[m].sessions, net.nodes[n].sessions, AllItems(SessionsOf(o.starts)));
    }
    NewestIsUnique(RegisterRank, net.nodes[m].meta, net.nodes[n].meta, AllItems(MetaOf(o.starts)));
    if o.fixed {
      NewestIsUnique(LockRank(o.t), net.nodes[m].locks, net.nodes[n].locks, AllItems(LocksOf(o.starts)));
    }
  }

  ghost predicate ItemsAreDistinct(o: Origin)
  {
    && Distinct(SessionRank, AllItems(SessionsOf(o.starts)) + SessionItems(o.late))
    && Distinct(RegisterRank, AllItems(MetaOf(o.starts)) + MetaItems(o.late))
    && Distinct(LockRank(o.t), AllItems(LocksOf(o.starts)) + LockItems(o.late))
  }

  lemma KnowsJoin(o: Origin, heard: set<string>, s: Store)
    requires StoreKnows(o, heard, s) && o.starts.Keys == heard && AllOutdated(o) && ItemsAreDistinct(o)
    ensures HoldsJoin(o, s)
  {
    if o.sessions { KnowingAllIsNewest(SessionRank, SessionsOf(o.starts), SessionItems(o.late), heard, s.sessions); }
    KnowingAllIsNewest(RegisterRank, MetaOf(o.starts), MetaItems(o.late), heard, s.meta);
    if o.fixed { KnowingAllIsNewest(LockRank(o.t), LocksOf(o.starts), LockItems(o.late), heard, s.locks); }
  }

  /** No two different versions held or under way in a reachable state of the cluster have the same rank. */
  lemma ItemsDistinct(c: Cluster, o: Origin)
    requires Inv(c) && o.starts == c.nodes && o.late <= c.wire
    ensures ItemsAreDistinct(o)
  {
    forall k, v | (k, v) in AllItems(SessionsOf(o.starts)) + SessionItems(o.late) ensures SessionVersion(k, v) in c.history {
      SessionRecorded(c, o, k, v);
    }
    forall k, v | (k, v) in AllItems(MetaOf(o.starts)) + MetaItems(o.late) ensures MetaVersion(k, v) in c.history {
      MetaRecorded(c, o, k, v);
    }
    forall k, v | (k, v) in AllItems(LocksOf(o.starts)) + LockItems(o.late) ensures LockVersion(k, v) in c.history {
      LockRecorded(c, o, k, v);
    }
  }

  lemma SessionRecorded(c: Cluster, o: Origin, k: string, v: Session)
    requires Inv(c) && o.starts == c.nodes && o.late <= c.wire && (k, v) in AllItems(SessionsOf(o.starts)) + SessionItems(o.late)
    ensures SessionVersion(k, v) in c.history
  {
    if (k, v) in AllItems(SessionsOf(o.starts)) {
      var n :| n in c.nodes && k in c.nodes[n].sessions && v == c.nodes[n].sessions[k];
      assert Holds(c.nodes[n], SessionVersion(k, v));
    } else {
      var g :| g in o.late && k in g.sessions && v == g.sessions[k];
      assert Carries(g, SessionVersion(k, v));
    }
  }

  lemma MetaRecorded(c: Cluster, o: Origin, k: string, v: Register)
    requires Inv(c) && o.starts == c.nodes && o.late <= c.wire && (k, v) in AllItems(MetaOf(o.starts)) + MetaItems(o.late)
    ensures MetaVersion(k, v) in c.history
  {
    if (k, v) in AllItems(MetaOf(o.starts)) {
      var n :| n in c.nodes && k in c.nodes[n].meta && v == c.nodes[n].meta[k];
      assert Holds(c.nodes[n], MetaVersion(k, v));
    } else {
      var g :| g in o.late && k in g.meta && v == g.meta[k];
      assert Carries(g, MetaVersion(k, v));
    }
  }

  lemma LockRecorded(c: Cluster, o: Origin, k: string, v: Lock)
    requires Inv(c) && o.starts == c.nodes && o.late <= c.wire && (k, v) in AllItems(LocksOf(o.starts)) + LockItems(o.late)
    ensures LockVersion(k, v) in c.history
  {
    if (k, v) in AllItems(LocksOf(o.starts)) {
      var n :| n in c.nodes && k in c.nodes[n].locks && v == c.nodes[n].locks[k];
      assert Holds(c.nodes[n], LockVersion(k, v));
    } else {
      var g :| g in o.late && k in g.locks && v == g.locks[k];
      assert Carries(g, LockVersion(k, v));
    }
  }

  // ---------- Messages under way are outdated ----------

  /** What a message carries is covered by some node: its metadata, and if asked for its sessions. */
  ghost predicate NodeCovers(s: Store, g: Gossip, sessions: bool)
  {
    Covers(RegisterRank, s.meta, g.meta) && (sessions ==> Covers(SessionRank, s.sessions, g.sessions))
  }

  ghost predicate SomeNodeCovers(nodes: map<string, Store>, g: Gossip, sessions: bool)
  {
    exists n :: n in nodes && NodeCovers(nodes[n], g, sessions)
  }

  ghost predicate WireCovered(c: Cluster, sessions: bool)
  {
    forall g :: g in c.wire ==> SomeNodeCovers(c.nodes, g, sessions)
  }

  /** The node's metadata, and if asked for its sessions, have only grown. */
  ghost predicate HasGrown(s: Store, s': Store, sessions: bool)
  {
    Covers(RegisterRank, s'.meta, s.meta) && (sessions ==> Covers(SessionRank, s'.sessions, s.sessions))
  }

  lemma GrowingStillCovers(nodes: map<string, Store>, n: string, s': Store, g: Gossip, sessions: bool)
    requires SomeNodeCovers(nodes, g, sessions) && n in nodes && HasGrown(nodes[n], s', sessions)
    ensures SomeNodeCovers(nodes[n := s'], g, sessions)
  {
    var k :| k in nodes && NodeCovers(nodes[k], g, sessions);
    if k == n {
      CoversTransitive(RegisterRank, s'.meta, nodes[n].meta, g.meta);
      if sessions { CoversTransitive(SessionRank, s'.sessions, nodes[n].sessions, g.sessions); }
    }
    assert k in nodes[n := s'] && NodeCovers(nodes[n := s'][k], g, sessions);
  }

  lemma SentIsCovered(nodes: map<string, Store>, n: string, g: Gossip)
    requires n in nodes
    requires forall k :: k in g.sessions ==> k in nodes[n].sessions && g.sessions[k] == nodes[n].sessions[k]
    requires forall k :: k in g.meta ==> k in nodes[n].meta && g.meta[k] == nodes[n].meta[k]
    ensures SomeNodeCovers(nodes, g, true) && SomeNodeCovers(nodes, g, false)
  {
    CoversReflexive(SessionRank, nodes[n].sessions);
    CoversReflexive(RegisterRank, nodes[n].meta);
    assert NodeCovers(nodes[n], g, true) && NodeCovers(nodes[n], g, false);
  }

  lemma ActionGrows(c: Cluster, a: Action, sessions: bool)
    requires Inv(c) && Enabled(c, a) && (sessions && a.Local? ==> Keeps(c.nodes[a.node], a.op))
    ensures var c' := Apply(c, a);
            c'.nodes == c.nodes[a.node := c'.nodes[a.node]] && HasGrown(c.nodes[a.node], c'.nodes[a.node], sessions)
  {
    var s := c.nodes[a.node];
    CoversReflexive(SessionRank, s.sessions);
    CoversReflexive(RegisterRank, s.meta);
    match a
    case Local(_, op) => OpGrows(s, op);
    case Deliver(_, message, walls, _) => ImportGrows(s, message, walls);
    case _ =>
  }

  lemma ActionKeepsCovered(c: Cluster, a: Action, sessions: bool)
    requires Inv(c) && Enabled(c, a) && WireCovered(c, sessions) && (sessions && a.Local? ==> Keeps(c.nodes[a.node], a.op))
    ensures WireCovered(Apply(c, a), sessions)
  {
    var c' := Apply(c, a);
    ActionGrows(c, a, sessions);
    forall g | g in c'.wire ensures SomeNodeCovers(c'.nodes, g, sessions) {
      if g in c.wire {
        GrowingStillCovers(c.nodes, a.node, c'.nodes[a.node], g, sessions);
      } else {
        SentIsCovered(c'.nodes, a.node, g);
      }
    }
  }

  lemma {:induction false} RunKeepsCovered(c: Cluster, run: seq<Action>, sessions: bool)
    requires Inv(c) && WireCovered(c, sessions) && Valid(c, run) && (sessions ==> WithoutCollection(c, run))
    ensures Inv(After(c, run)) && WireCovered(After(c, run), sessions)
    decreases |run|
  {
    if run != [] {
      ApplyKeepsInv(c, run[0]);
      ActionKeepsCovered(c, run[0], sessions);
      RunKeepsCovered(Apply(c, run[0]), run[1..], sessions);
    }
  }

  lemma CoveredIsOutdated(o: Origin, sessions: bool)
    requires forall g :: g in o.late ==> SomeNodeCovers(o.starts, g, sessions)
    ensures Outdated(RegisterRank, MetaOf(o.starts), MetaItems(o.late))
    ensures sessions ==> Outdated(SessionRank, SessionsOf(o.starts), SessionItems(o.late))
  {
    forall k, v | (k, v) in MetaItems(o.late) ensures CoveredSomewhere(RegisterRank, MetaOf(o.starts), k, v) {
      var g :| g in o.late && k in g.meta && v == g.meta[k];
      assert SomeNodeCovers(o.starts, g, sessions);
      var n :| n in o.starts && NodeCovers(o.starts[n], g, sessions);
      assert n in MetaOf(o.starts);
    }
    forall k, v | sessions && (k, v) in SessionItems(o.late) ensures CoveredSomewhere(SessionRank, SessionsOf(o.starts), k, v) {
      var g :| g in o.late && k in g.sessions && v == g.sessions[k];
      assert SomeNodeCovers(o.starts, g, sessions);
      var n :| n in o.starts && NodeCovers(o.starts[n], g, sessions);
      assert n in SessionsOf(o.starts);
    }
  }

  /** After any run, no message still under way carries newer metadata than some node holds, and after a run
      in which no session is dropped, none carries newer sessions.  So `AntiEntropyConverges` applies with
      every message of the run allowed to arrive late. */
  lemma LateMessagesAreOutdated(c: Cluster, run: seq<Action>, o: Origin)
    requires Init(c) && Valid(c, run)
    requires o.starts == After(c, run).nodes && o.late == After(c, run).wire
    ensures Inv(After(c, run)) && Outdated(RegisterRank, MetaOf(o.starts), MetaItems(o.late))
    ensures WithoutCollection(c, run) ==> Outdated(SessionRank, SessionsOf(o.starts), SessionItems(o.late))
    ensures !o.fixed && (o.sessions ==> WithoutCollection(c, run)) ==> AllOutdated(o)
  {
    InitInv(c);
    RunKeepsCovered(c, run, false);
    CoveredIsOutdated(o, false);
    if WithoutCollection(c, run) {
      RunKeepsCovered(c, run, true);
      CoveredIsOutdated(o, true);
    }
  }
}
