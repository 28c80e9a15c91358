/** Last-writer-wins maps over any kind of entry, given the rank its merge compares.

    A merge keeps the entry of the larger rank and, between equal ranks, the left one. */
module Lww {
  import opened Hlc
  import TextOrder

  /** `live` ranks unexpired locks above expired ones; entries that do not expire are all live. */
  datatype Rank = Rank(live: bool, ts: Timestamp, node: string) {
    predicate Below(other: Rank)
    {
      if live != other.live then other.live
      else if ts != other.ts then ts.Less(other.ts)
      else TextOrder.Below(node, other.node)
    }
  }

  lemma RankTrichotomy(a: Rank, b: Rank)
    ensures a.Below(b) || a == b || b.Below(a)
    ensures !(a.Below(b) && b.Below(a))
    ensures !a.Below(a)
  {
    TextOrder.Trichotomy(a.node, b.node);
    TextOrder.Trichotomy(a.node, a.node);
    LessIsTotalOrder(a.ts, b.ts, a.ts);
  }

  /** Not being below is transitive, and so is being below. */
  lemma RankTransitive(a: Rank, b: Rank, c: Rank)
    ensures a.Below(b) && b.Below(c) ==> a.Below(c)
    ensures a.Below(b) && !c.Below(b) ==> a.Below(c)
    ensures !b.Below(a) && b.Below(c) ==> a.Below(c)
    ensures !b.Below(a) && !c.Below(b) ==> !c.Below(a)
  {
    RankTrichotomy(a, b);
    RankTrichotomy(b, c);
    RankTrichotomy(a, c);
    if a.Below(b) && b.Below(c) { RankChain(a, b, c); }
    if c.Below(a) && a.Below(b) { RankChain(c, a, b); }
    if b.Below(c) && c.Below(a) { RankChain(b, c, a); }
  }

  lemma RankChain(a: Rank, b: Rank, c: Rank)
    requires a.Below(b) && b.Below(c)
    ensures a.Below(c)
  {
    LessIsTotalOrder(a.ts, b.ts, c.ts);
    if TextOrder.Below(a.node, b.node) && TextOrder.Below(b.node, c.node) {
      TextOrder.Transitive(a.node, b.node, c.node);
    }
  }

  function Merge<V(!new)>(rank: V -> Rank, a: V, b: V): V
  {
    if rank(a).Below(rank(b)) then b else a
  }

  function MergeMap<V(!new)>(rank: V -> Rank, m: map<string, V>, other: map<string, V>): map<string, V>
  {
    map k | k in m.Keys + other.Keys ::
      if k !in m then other[k] else if k !in other then m[k] else Merge(rank, m[k], other[k])
  }

  // ---------- Laws of a single merge ----------

  lemma MergeLaws<V(!new)>(rank: V -> Rank, a: V, b: V, c: V)
    ensures Merge(rank, a, a) == a
    ensures Merge(rank, a, b) == Merge(rank, b, a) <==> a == b || rank(a) != rank(b)
    ensures Merge(rank, Merge(rank, a, b), c) == Merge(rank, a, Merge(rank, b, c))
  {
    RankTrichotomy(rank(a), rank(b));
    RankTransitive(rank(a), rank(b), rank(c));
    RankTransitive(rank(c), rank(b), rank(a));
  }

  // ---------- The order on maps ----------

  /** Every entry of `other` is in m, or something at least as new is. */
  ghost predicate Covers<V(!new)>(rank: V -> Rank, m: map<string, V>, other: map<string, V>)
  {
    forall k :: k in other ==> k in m && !rank(m[k]).Below(rank(other[k]))
  }

  lemma CoversReflexive<V(!new)>(rank: V -> Rank, m: map<string, V>)
    ensures Covers(rank, m, m)
  {
    forall k | k in m { RankTrichotomy(rank(m[k]), rank(m[k])); }
  }

  lemma CoversTransitive<V(!new)>(rank: V -> Rank, a: map<string, V>, b: map<string, V>, c: map<string, V>)
    requires Covers(rank, a, b) && Covers(rank, b, c)
    ensures Covers(rank, a, c)
  {
    forall k | k in c { RankTransitive(rank(c[k]), rank(b[k]), rank(a[k])); }
  }

  /** Merging is the least upper bound, and changes nothing exactly when there is nothing newer. */
  lemma MergeMapIsJoin<V(!new)>(rank: V -> Rank, m: map<string, V>, other: map<string, V>, bound: map<string, V>)
    ensures Covers(rank, MergeMap(rank, m, other), m)
    ensures Covers(rank, MergeMap(rank, m, other), other)
    ensures Covers(rank, bound, m) && Covers(rank, bound, other) ==> Covers(rank, bound, MergeMap(rank, m, other))
    ensures Covers(rank, m, other) <==> MergeMap(rank, m, other) == m
  {
    var r := MergeMap(rank, m, other);
    forall k | k in r
      ensures k in m ==> !rank(r[k]).Below(rank(m[k]))
      ensures k in other ==> !rank(r[k]).Below(rank(other[k]))
      ensures k in m && k in other && !rank(m[k]).Below(rank(other[k])) ==> r[k] == m[k]
    {
      RankTrichotomy(rank(r[k]), rank(r[k]));
      if k in m && k in other { RankTrichotomy(rank(m[k]), rank(other[k])); }
    }
    if MergeMap(rank, m, other) == m {
      forall k | k in other ensures k in m && !rank(m[k]).Below(rank(other[k])) {
        assert k in MergeMap(rank, m, other);
      }
    }
  }

  lemma MergeMapAssociative<V(!new)>(rank: V -> Rank, a: map<string, V>, b: map<string, V>, c: map<string, V>)
    ensures MergeMap(rank, MergeMap(rank, a, b), c) == MergeMap(rank, a, MergeMap(rank, b, c))
  {
    var left, right := MergeMap(rank, MergeMap(rank, a, b), c), MergeMap(rank, a, MergeMap(rank, b, c));
    forall k | k in left.Keys ensures left[k] == right[k] {
      if k in a && k in b && k in c { MergeLaws(rank, a[k], b[k], c[k]); }
    }
  }

  // ---------- A map as the newest of a set of versions ----------

  /** m holds, for each key of `seen`, a version of `seen` that no other one exceeds. */
  ghost predicate IsNewest<V(!new)>(rank: V -> Rank, m: map<string, V>, seen: set<(string, V)>)
  {
    && (forall k :: k in m ==> (k, m[k]) in seen)
    && (forall k, v :: (k, v) in seen ==> k in m && !rank(m[k]).Below(rank(v)))
  }

  /** No two different versions of a key have the same rank. */
  ghost predicate Distinct<V(!new)>(rank: V -> Rank, seen: set<(string, V)>)
  {
    forall k, v, w :: (k, v) in seen && (k, w) in seen && rank(v) == rank(w) ==> v == w
  }

  lemma NewestIsUnique<V(!new)>(rank: V -> Rank, m1: map<string, V>, m2: map<string, V>, seen: set<(string, V)>)
    requires IsNewest(rank, m1, seen) && IsNewest(rank, m2, seen) && Distinct(rank, seen)
    ensures m1 == m2
  {
    forall k | k in m1
      ensures k in m2 && m1[k] == m2[k]
    {
      assert (k, m1[k]) in seen;
      assert (k, m2[k]) in seen;
      RankTrichotomy(rank(m1[k]), rank(m2[k]));
    }
    forall k | k in m2 ensures k in m1 { assert (k, m2[k]) in seen; }
    assert m1.Keys == m2.Keys;
  }

  lemma MergeKeepsNewest<V(!new)>(rank: V -> Rank, m: map<string, V>, seen: set<(string, V)>, other: map<string, V>)
    requires IsNewest(rank, m, seen)
    ensures IsNewest(rank, MergeMap(rank, m, other), seen + other.Items)
  {
    var all := seen + other.Items;
    var r := MergeMap(rank, m, other);
    forall k | k in r ensures (k, r[k]) in all {
      if k in other { assert (k, other[k]) in other.Items; }
    }
    forall k, v | (k, v) in all ensures k in r && !rank(r[k]).Below(rank(v)) {
      if (k, v) in seen {
        if k in other { RankTransitive(rank(v), rank(m[k]), rank(other[k])); RankTrichotomy(rank(m[k]), rank(other[k])); }
      } else {
        assert k in other && v == other[k];
        RankTrichotomy(rank(v), rank(v));
      }
    }
  }

  lemma WriteKeepsNewest<V(!new)>(rank: V -> Rank, m: map<string, V>, seen: set<(string, V)>, key: string, value: V)
    requires IsNewest(rank, m, seen)
    requires key in m ==> !rank(value).Below(rank(m[key]))
    ensures IsNewest(rank, m[key := value], seen + {(key, value)})
  {
    RankTrichotomy(rank(value), rank(value));
    forall v | (key, v) in seen ensures !rank(value).Below(rank(v)) {
      RankTransitive(rank(v), rank(m[key]), rank(value));
    }
  }

  // ---------- Any sequence of merges ----------

  function MergeAll<V(!new)>(rank: V -> Rank, m: map<string, V>, chunks: seq<map<string, V>>): map<string, V>
  {
    if chunks == [] then m else MergeMap(rank, MergeAll(rank, m, chunks[..|chunks| - 1]), chunks[|chunks| - 1])
  }

  ghost function ItemsOf<V(!new)>(m: map<string, V>, chunks: seq<map<string, V>>): set<(string, V)>
  {
    if chunks == [] then m.Items else ItemsOf(m, chunks[..|chunks| - 1]) + chunks[|chunks| - 1].Items
  }

  lemma {:induction false} MergeAllIsNewest<V(!new)>(rank: V -> Rank, m: map<string, V>, chunks: seq<map<string, V>>)
    ensures IsNewest(rank, MergeAll(rank, m, chunks), ItemsOf(m, chunks))
  {
    if chunks == [] {
      forall k, v | (k, v) in m.Items ensures k in m && !rank(m[k]).Below(rank(v)) {
        RankTrichotomy(rank(v), rank(v));
      }
    } else {
      var init := chunks[..|chunks| - 1];
      MergeAllIsNewest(rank, m, init);
      MergeKeepsNewest(rank, MergeAll(rank, m, init), ItemsOf(m, init), chunks[|chunks| - 1]);
    }
  }

  /** Replicas that were handed the same versions hold the same map, whatever the order, the
      duplication and the grouping of the deliveries. */
  lemma SameVersionsSameMap<V(!new)>(rank: V -> Rank, m1: map<string, V>, chunks1: seq<map<string, V>>,
                               m2: map<string, V>, chunks2: seq<map<string, V>>)
    requires ItemsOf(m1, chunks1) == ItemsOf(m2, chunks2)
    requires Distinct(rank, ItemsOf(m1, chunks1))
    ensures MergeAll(rank, m1, chunks1) == MergeAll(rank, m2, chunks2)
  {
    MergeAllIsNewest(rank, m1, chunks1);
    MergeAllIsNewest(rank, m2, chunks2);
    NewestIsUnique(rank, MergeAll(rank, m1, chunks1), MergeAll(rank, m2, chunks2), ItemsOf(m1, chunks1));
  }

  /** An entry outlives every later sequence of merges in which nothing newer arrives for its key. */
  lemma {:induction false} EntrySurvives<V(!new)>(rank: V -> Rank, m: map<string, V>, chunks: seq<map<string, V>>, key: string)
    requires key in m
    requires forall c :: c in chunks && key in c ==> !rank(m[key]).Below(rank(c[key]))
    ensures key in MergeAll(rank, m, chunks) && MergeAll(rank, m, chunks)[key] == m[key]
  {
    if chunks != [] {
      EntrySurvives(rank, m, chunks[..|chunks| - 1], key);
      assert chunks[|chunks| - 1] in chunks;
    }
  }
}
