/** The loops that merge an incoming Go map into a stored one, for every order in which the incoming
    keys may be visited. */
module MergeLoops {
  import opened Hlc
  import opened Lww
  import opened Crdt
  import opened Store

  datatype Progress<V> = Progress(clock: Timestamp, entries: map<string, V>)

  /** How two entries of a key are merged, and where an entry's timestamp is. */
  datatype Kind<!V> = Kind(merge: (string, V, V) -> V, ts: V -> Timestamp)

  const SESSIONS: Kind<Session> := Kind((id: string, s: Session, other: Session) => MergeSession(s, other), SessionTs)
  const REGISTERS: Kind<Register> := Kind((key: string, r: Register, other: Register) => MergeRegister(r, other), RegisterTs)

  /** Each pair of locks is merged at its own reading of the wall clock. */
  function Locks(wall: Wall): Kind<Lock>
  {
    Kind((key: string, l: Lock, other: Lock) => MergeLock(l, other, wall.At(key)), LockTs)
  }

  /** One iteration: an absent key is stored as it comes, a present one is witnessed and merged. */
  function MergeOne<V>(kind: Kind<V>, p: Progress<V>, key: string, entry: V, wall: Wall): Progress<V>
  {
    if key in p.entries then
      Progress(Witnessed(p.clock, kind.ts(entry), wall.At(key)), p.entries[key := kind.merge(key, p.entries[key], entry)])
    else
      p.(entries := p.entries[key := entry])
  }

  function MergeInOrder<V>(kind: Kind<V>, p: Progress<V>, other: map<string, V>, order: seq<string>, wall: Wall): Progress<V>
    requires forall k :: k in order ==> k in other
  {
    if order == [] then p
    else
      var last := |order| - 1;
      MergeOne(kind, MergeInOrder(kind, p, other, order[..last], wall), order[last], other[order[last]], wall)
  }

  ghost function Visited(order: seq<string>): set<string>
  {
    set k | k in order
  }

  ghost predicate Repeats(order: seq<string>)
  {
    exists i, j :: 0 <= i < j < |order| && order[i] == order[j]
  }

  /** An order in which a Go map with these keys may be ranged over. */
  ghost predicate Enumerates(order: seq<string>, keys: set<string>)
  {
    !Repeats(order) && forall k :: k in order <==> k in keys
  }

  /** q is what the loop leaves for some order in which the keys may come. */
  ghost predicate Ranged<V>(kind: Kind<V>, p: Progress<V>, other: map<string, V>, wall: Wall, q: Progress<V>)
  {
    exists order :: Enumerates(order, other.Keys) && q == MergeInOrder(kind, p, other, order, wall)
  }

  lemma RangedOverNothing<V>(kind: Kind<V>, p: Progress<V>, wall: Wall)
    ensures Ranged(kind, p, map[], wall, p)
  {
    var none: seq<string> := [];
    var empty: map<string, V> := map[];
    assert Enumerates(none, empty.Keys) && p == MergeInOrder(kind, p, empty, none, wall);
  }

  /** The stored map after merging some of the keys of `other`. */
  ghost predicate EntriesMerged<V>(kind: Kind<V>, m: map<string, V>, other: map<string, V>, keys: set<string>, result: map<string, V>)
    requires keys <= other.Keys
  {
    && result.Keys == m.Keys + keys
    && forall k :: k in result ==>
         result[k] == if k !in keys then m[k] else if k in m then kind.merge(k, m[k], other[k]) else other[k]
  }

  /** The clock after witnessing some keys: it is its start or one of the stamps, and below none. */
  ghost predicate ClockMerged<V>(kind: Kind<V>, p: Progress<V>, other: map<string, V>, keys: set<string>, wall: Wall, clock: Timestamp)
    requires keys <= other.Keys
  {
    && p.clock.LessOrEqual(clock)
    && (forall k :: k in keys && k in p.entries ==> Stamp(kind, other[k], k, wall).LessOrEqual(clock))
    && (clock == p.clock || exists k :: k in keys && k in p.entries && clock == Stamp(kind, other[k], k, wall))
  }

  function Stamp<V>(kind: Kind<V>, entry: V, key: string, wall: Wall): Timestamp
  {
    Max(kind.ts(entry), Timestamp(wall.At(key), 0))
  }

  lemma LastIsNew(order: seq<string>)
    requires order != [] && !Repeats(order)
    ensures var init := order[..|order| - 1];
            !Repeats(init) && order[|order| - 1] !in init && Visited(order) == Visited(init) + {order[|order| - 1]}
  {
    var init := order[..|order| - 1];
    assert order == init + [order[|order| - 1]];
  }

  lemma EntriesMergedOneMore<V>(kind: Kind<V>, m: map<string, V>, other: map<string, V>, done: set<string>, key: string,
                                p: Progress<V>, wall: Wall)
    requires done <= other.Keys && key in other && key !in done
    requires EntriesMerged(kind, m, other, done, p.entries)
    ensures EntriesMerged(kind, m, other, done + {key}, MergeOne(kind, p, key, other[key], wall).entries)
    ensures p.clock.LessOrEqual(MergeOne(kind, p, key, other[key], wall).clock)
    ensures key !in m ==> MergeOne(kind, p, key, other[key], wall).clock == p.clock
    ensures key in m ==> MergeOne(kind, p, key, other[key], wall).clock == Witnessed(p.clock, kind.ts(other[key]), wall.At(key))
  {
  }

  lemma {:induction false} EntriesInOrder<V>(kind: Kind<V>, p: Progress<V>, other: map<string, V>, order: seq<string>, wall: Wall)
    requires !Repeats(order) && forall k :: k in order ==> k in other
    ensures EntriesMerged(kind, p.entries, other, Visited(order), MergeInOrder(kind, p, other, order, wall).entries)
    ensures p.clock.LessOrEqual(MergeInOrder(kind, p, other, order, wall).clock)
  {
    if order != [] {
      var init, key := order[..|order| - 1], order[|order| - 1];
      LastIsNew(order);
      EntriesInOrder(kind, p, other, init, wall);
      var before := MergeInOrder(kind, p, other, init, wall);
      EntriesMergedOneMore(kind, p.entries, other, Visited(init), key, before, wall);
      LessIsTotalOrder(p.clock, before.clock, MergeInOrder(kind, p, other, order, wall).clock);
    }
  }

  lemma {:induction false} ClockInOrder<V>(kind: Kind<V>, p: Progress<V>, other: map<string, V>, order: seq<string>, wall: Wall)
    requires !Repeats(order) && forall k :: k in order ==> k in other
    requires p.clock.WellFormed() && forall k :: k in other ==> kind.ts(other[k]).WellFormed()
    ensures var clock := MergeInOrder(kind, p, other, order, wall).clock;
            clock.WellFormed() && ClockMerged(kind, p, other, Visited(order), wall, clock)
  {
    if order != [] {
      var init, key := order[..|order| - 1], order[|order| - 1];
      LastIsNew(order);
      ClockInOrder(kind, p, other, init, wall);
      EntriesInOrder(kind, p, other, init, wall);
      var before := MergeInOrder(kind, p, other, init, wall);
      EntriesMergedOneMore(kind, p.entries, other, Visited(init), key, before, wall);
      if key in p.entries {
        ClockMergedOneMore(kind, p, other, Visited(init), key, wall, before.clock);
      }
    }
  }

  lemma ClockMergedOneMore<V>(kind: Kind<V>, p: Progress<V>, other: map<string, V>, done: set<string>, key: string, wall: Wall, before: Timestamp)
    requires done <= other.Keys && key in other && key in p.entries
    requires before.WellFormed() && kind.ts(other[key]).WellFormed()
    requires ClockMerged(kind, p, other, done, wall, before)
    ensures ClockMerged(kind, p, other, done + {key}, wall, Witnessed(before, kind.ts(other[key]), wall.At(key)))
  {
    var after := Witnessed(before, kind.ts(other[key]), wall.At(key));
    WitnessedIsJoin(before, kind.ts(other[key]), wall.At(key));
    assert after == Max(before, Stamp(kind, other[key], key, wall));
    LessIsTotalOrder(p.clock, before, after);
    forall k | k in done && k in p.entries ensures Stamp(kind, other[k], k, wall).LessOrEqual(after) {
      LessIsTotalOrder(Stamp(kind, other[k], k, wall), before, after);
    }
  }

  lemma ClockMergedIsMaximum<V>(kind: Kind<V>, p: Progress<V>, other: map<string, V>, wall: Wall, clock: Timestamp)
    requires ClockMerged(kind, p, other, other.Keys, wall, clock)
    ensures clock == WitnessedAll(p.clock, kind.ts, p.entries, other, wall)
  {
    var s := {p.clock} + WitnessStamps(kind.ts, p.entries, other, wall);
    forall u | u in s ensures u.LessOrEqual(clock) {
    }
    MaximumIs(clock, s);
  }

  /** Whatever order the keys come in, the loop leaves the same map, each key merged once, and - on
      well-formed stamps - the same clock: the maximum of the old clock, the stamps of the keys that were
      already present, and the wall clock as read when each of those was witnessed. */
  lemma OrderDoesNotMatter<V>(kind: Kind<V>, p: Progress<V>, other: map<string, V>, order: seq<string>, wall: Wall)
    requires Enumerates(order, other.Keys)
    ensures var r := MergeInOrder(kind, p, other, order, wall);
            && EntriesMerged(kind, p.entries, other, other.Keys, r.entries)
            && p.clock.LessOrEqual(r.clock)
            && (p.clock.WellFormed() && (forall k :: k in other ==> kind.ts(other[k]).WellFormed()) ==>
                  r.clock == WitnessedAll(p.clock, kind.ts, p.entries, other, wall))
  {
    assert Visited(order) == other.Keys;
    EntriesInOrder(kind, p, other, order, wall);
    if p.clock.WellFormed() && forall k :: k in other ==> kind.ts(other[k]).WellFormed() {
      ClockInOrder(kind, p, other, order, wall);
      ClockMergedIsMaximum(kind, p, other, wall, MergeInOrder(kind, p, other, order, wall).clock);
    }
  }

  // ---------- When the order does matter ----------

  predicate Present<V>(p: Progress<V>, other: map<string, V>, k: string)
  {
    k in other && k in p.entries
  }

  /** The clock is its start or a received stamp, or was set from the wall clock on witnessing an older stamp. */
  ghost predicate Origin<V>(kind: Kind<V>, p: Progress<V>, other: map<string, V>, done: set<string>, wall: Wall, clock: Timestamp)
  {
    || clock == p.clock
    || (exists k :: k in done && Present(p, other, k) && clock == kind.ts(other[k]))
    || (exists k :: k in done && Present(p, other, k) && clock == Timestamp(wall.At(k), 0)
                    && kind.ts(other[k]).physical < wall.At(k) && p.clock.physical < wall.At(k))
  }

  /** What holds of the clock after witnessing some keys, whatever the counters. */
  ghost predicate ClockBetween<V>(kind: Kind<V>, p: Progress<V>, other: map<string, V>, done: set<string>, wall: Wall, clock: Timestamp)
  {
    && p.clock.LessOrEqual(clock)
    && (forall k :: k in done && Present(p, other, k) ==>
          kind.ts(other[k]).LessOrEqual(clock) && wall.At(k) <= clock.physical)
    && Origin(kind, p, other, done, wall, clock)
  }

  /** Visiting one more key. */
  lemma VisitedNext<V>(kind: Kind<V>, p: Progress<V>, other: map<string, V>, order: seq<string>, wall: Wall)
    requires order != [] && !Repeats(order) && forall k :: k in order ==> k in other
    ensures var init, key := order[..|order| - 1], order[|order| - 1];
            var before, after := MergeInOrder(kind, p, other, init, wall).clock, MergeInOrder(kind, p, other, order, wall).clock;
            && !Repeats(init) && Visited(order) == Visited(init) + {key}
            && after == if key in p.entries then Witnessed(before, kind.ts(other[key]), wall.At(key)) else before
  {
    var init, key := order[..|order| - 1], order[|order| - 1];
    LastIsNew(order);
    EntriesInOrder(kind, p, other, init, wall);
    EntriesMergedOneMore(kind, p.entries, other, Visited(init), key, MergeInOrder(kind, p, other, init, wall), wall);
  }

  lemma {:induction false} ClockStaysBetween<V>(kind: Kind<V>, p: Progress<V>, other: map<string, V>, order: seq<string>, wall: Wall)
    requires !Repeats(order) && forall k :: k in order ==> k in other
    ensures ClockBetween(kind, p, other, Visited(order), wall, MergeInOrder(kind, p, other, order, wall).clock)
  {
    if order != [] {
      var init, key := order[..|order| - 1], order[|order| - 1];
      VisitedNext(kind, p, other, order, wall);
      ClockStaysBetween(kind, p, other, init, wall);
      if key in p.entries {
        BetweenOneMore(kind, p, other, Visited(init), key, wall, MergeInOrder(kind, p, other, init, wall).clock);
      }
    }
  }

  lemma BetweenOneMore<V>(kind: Kind<V>, p: Progress<V>, other: map<string, V>, done: set<string>, key: string, wall: Wall, before: Timestamp)
    requires Present(p, other, key) && ClockBetween(kind, p, other, done, wall, before)
    ensures ClockBetween(kind, p, other, done + {key}, wall, Witnessed(before, kind.ts(other[key]), wall.At(key)))
  {
    var received, after := kind.ts(other[key]), Witnessed(before, kind.ts(other[key]), wall.At(key));
    assert before.LessOrEqual(after) && received.LessOrEqual(after) && wall.At(key) <= after.physical;
    LessIsTotalOrder(p.clock, before, after);
    forall k | k in done && Present(p, other, k) ensures kind.ts(other[k]).LessOrEqual(after) {
      LessIsTotalOrder(kind.ts(other[k]), before, after);
    }
    assert Origin(kind, p, other, done + {key}, wall, after) by {
      assert after == before || after == received || (after == Timestamp(wall.At(key), 0) && received.physical < wall.At(key) && p.clock.physical < wall.At(key));
      assert Origin(kind, p, other, done, wall, before);
    }
  }

  /** Key a brings the newest stamp, with a negative counter like all others of that instant, which the clock
      had not reached; and key b, with an older stamp, is witnessed at that very instant. */
  predicate TiesWith<V>(kind: Kind<V>, p: Progress<V>, other: map<string, V>, wall: Wall, a: string, b: string)
  {
    && Present(p, other, a) && Present(p, other, b)
    && var top := wall.At(b);
       && p.clock.physical < top && kind.ts(other[a]).physical == top && kind.ts(other[b]).physical < top
       && forall k :: k in other && k in p.entries ==>
            && kind.ts(other[k]).physical <= top && wall.At(k) <= top
            && (kind.ts(other[k]).physical == top ==> kind.ts(other[k]).logical < 0)
  }

  ghost predicate NegativeTie<V>(kind: Kind<V>, p: Progress<V>, other: map<string, V>, wall: Wall)
  {
    exists a, b :: TiesWith(kind, p, other, wall, a, b)
  }

  lemma LowerClockMeansTie<V>(kind: Kind<V>, p: Progress<V>, other: map<string, V>, wall: Wall, low: Timestamp, high: Timestamp)
    requires ClockBetween(kind, p, other, other.Keys, wall, low) && ClockBetween(kind, p, other, other.Keys, wall, high)
    requires low.Less(high)
    ensures NegativeTie(kind, p, other, wall)
  {
    LessIsTotalOrder(low, high, low);
    assert high != p.clock;
    assert !exists k :: Present(p, other, k) && high == kind.ts(other[k]);
    var b :| b in other.Keys && Present(p, other, b) && high == Timestamp(wall.At(b), 0)
             && kind.ts(other[b]).physical < wall.At(b) && p.clock.physical < wall.At(b);
    assert low.physical == high.physical && low.logical < 0;
    var a :| a in other.Keys && Present(p, other, a) && low == kind.ts(other[a]);
    assert TiesWith(kind, p, other, wall, a, b);
  }

  lemma {:induction false} EnumerationExists(keys: set<string>) returns (order: seq<string>)
    ensures Enumerates(order, keys)
    decreases |keys|
  {
    order := [];
    if keys != {} {
      var k :| k in keys;
      order := EnumerationExists(keys - {k});
      order := order + [k];
    }
  }

  lemma EnumerationFrom(first: string, keys: set<string>) returns (order: seq<string>)
    requires first in keys
    ensures Enumerates(order, keys) && order != [] && order[0] == first
  {
    var rest := EnumerationExists(keys - {first});
    order := [first] + rest;
    forall i, j | 0 <= i < j < |order| ensures order[i] != order[j] {
      assert order[j] == rest[j - 1] && order[j] in rest;
      if i > 0 { assert rest[i - 1] != rest[j - 1]; }
    }
  }

  /** With b first the clock is set from the wall clock, and never falls again. */
  lemma {:induction false} WallFirst<V>(kind: Kind<V>, p: Progress<V>, other: map<string, V>, order: seq<string>, wall: Wall, a: string, b: string)
    requires TiesWith(kind, p, other, wall, a, b)
    requires !Repeats(order) && (forall k :: k in order ==> k in other) && order != [] && order[0] == b
    ensures Timestamp(wall.At(b), 0).LessOrEqual(MergeInOrder(kind, p, other, order, wall).clock)
  {
    var init := order[..|order| - 1];
    VisitedNext(kind, p, other, order, wall);
    if init == [] {
      assert MergeInOrder(kind, p, other, init, wall) == p;
    } else {
      WallFirst(kind, p, other, init, wall, a, b);
      LessIsTotalOrder(Timestamp(wall.At(b), 0), MergeInOrder(kind, p, other, init, wall).clock, MergeInOrder(kind, p, other, order, wall).clock);
    }
  }

  /** With a first the clock is at that instant already, so the wall clock is never taken. */
  lemma {:induction false} StampFirst<V>(kind: Kind<V>, p: Progress<V>, other: map<string, V>, order: seq<string>, wall: Wall, a: string, b: string)
    requires TiesWith(kind, p, other, wall, a, b)
    requires !Repeats(order) && (forall k :: k in order ==> k in other) && order != [] && order[0] == a
    ensures var clock := MergeInOrder(kind, p, other, order, wall).clock;
            clock.physical == wall.At(b) && clock.logical < 0
  {
    var init := order[..|order| - 1];
    VisitedNext(kind, p, other, order, wall);
    if init == [] {
      assert MergeInOrder(kind, p, other, init, wall) == p;
    } else {
      StampFirst(kind, p, other, init, wall, a, b);
    }
  }

  ghost predicate SameClock<V>(kind: Kind<V>, p: Progress<V>, other: map<string, V>, wall: Wall)
  {
    forall order1, order2 :: Enumerates(order1, other.Keys) && Enumerates(order2, other.Keys) ==>
      MergeInOrder(kind, p, other, order1, wall).clock == MergeInOrder(kind, p, other, order2, wall).clock
  }

  /** For any stamps, negative counters included: the final clock is the same for every order of the keys
      exactly when no negative counter ties with the wall clock. */
  lemma SameClockExactly<V>(kind: Kind<V>, p: Progress<V>, other: map<string, V>, wall: Wall)
    ensures SameClock(kind, p, other, wall) <==> !NegativeTie(kind, p, other, wall)
  {
    if NegativeTie(kind, p, other, wall) {
      var a, b :| TiesWith(kind, p, other, wall, a, b);
      var order1 := EnumerationFrom(a, other.Keys);
      var order2 := EnumerationFrom(b, other.Keys);
      StampFirst(kind, p, other, order1, wall, a, b);
      WallFirst(kind, p, other, order2, wall, a, b);
    } else {
      forall order1, order2 | Enumerates(order1, other.Keys) && Enumerates(order2, other.Keys)
        ensures MergeInOrder(kind, p, other, order1, wall).clock == MergeInOrder(kind, p, other, order2, wall).clock
      {
        assert Visited(order1) == other.Keys == Visited(order2);
        ClockStaysBetween(kind, p, other, order1, wall);
        ClockStaysBetween(kind, p, other, order2, wall);
        var c1, c2 := MergeInOrder(kind, p, other, order1, wall).clock, MergeInOrder(kind, p, other, order2, wall).clock;
        LessIsTotalOrder(c1, c2, c1);
        if c1.Less(c2) { LowerClockMeansTie(kind, p, other, wall, c1, c2); }
        if c2.Less(c1) { LowerClockMeansTie(kind, p, other, wall, c2, c1); }
      }
    }
  }

  /** Without well-formed stamps the order does matter: a negative counter received at the wall clock's
      own nanosecond is kept or lost depending on which key came first. */
  lemma OrderMattersForNegativeCounters()
    ensures var old1 := Register("", Timestamp(0, 0), "n");
            var p := Progress(Timestamp(0, 0), map["a" := old1, "b" := old1]);
            var other := map["a" := Register("x", Timestamp(5, -3), "m"), "b" := Register("y", Timestamp(1, 0), "m")];
            var wall := Wall(5, map[], 5);
            && MergeInOrder(REGISTERS, p, other, ["a", "b"], wall).clock == Timestamp(5, -3)
            && MergeInOrder(REGISTERS, p, other, ["b", "a"], wall).clock == Timestamp(5, 0)
  {
    var old1 := Register("", Timestamp(0, 0), "n");
    var p := Progress(Timestamp(0, 0), map["a" := old1, "b" := old1]);
    var other := map["a" := Register("x", Timestamp(5, -3), "m"), "b" := Register("y", Timestamp(1, 0), "m")];
    var wall := Wall(5, map[], 5);
    assert ["a", "b"][..1] == ["a"] && ["a"][..0] == [] && ["b", "a"][..1] == ["b"] && ["b"][..0] == [];
    assert MergeInOrder(REGISTERS, p, other, ["a"], wall) == MergeOne(REGISTERS, p, "a", other["a"], wall);
    assert MergeInOrder(REGISTERS, p, other, ["b"], wall) == MergeOne(REGISTERS, p, "b", other["b"], wall);
  }

  // ---------- The three loops ----------

  lemma SessionEntries(m: map<string, Session>, other: map<string, Session>, result: map<string, Session>)
    requires EntriesMerged(SESSIONS, m, other, other.Keys, result)
    ensures result == MergeMap(SessionRank, m, other)
  {
    assert result.Keys == MergeMap(SessionRank, m, other).Keys;
  }

  lemma RegisterEntries(m: map<string, Register>, other: map<string, Register>, result: map<string, Register>)
    requires EntriesMerged(REGISTERS, m, other, other.Keys, result)
    ensures result == MergeMap(RegisterRank, m, other)
  {
    assert result.Keys == MergeMap(RegisterRank, m, other).Keys;
  }

  lemma LockEntries(wall: Wall, m: map<string, Lock>, other: map<string, Lock>, result: map<string, Lock>)
    requires EntriesMerged(Locks(wall), m, other, other.Keys, result)
    ensures result == MergeLockMap(m, other, wall)
  {
    assert result.Keys == MergeLockMap(m, other, wall).Keys;
  }
}
