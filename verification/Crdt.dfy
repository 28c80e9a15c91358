/** The three replicated entries - sessions, locks and metadata registers - and their merges.

    Entries are values: a message carries copies, never references to the sender's entries.
    Times are nanoseconds since the Unix epoch. */
module Crdt {
  import opened Hlc
  import opened Lww
  import TextOrder

  const SECOND: int := 1_000_000_000
  const MINUTE: int := 60 * SECOND
  const HOUR: int := 60 * MINUTE

  /** The zero time of Go's time package, the first instant of year 1. */
  const ZERO_TIME: int := -62_135_596_800 * SECOND

  datatype Session = Session(id: string, data: seq<bv8>, createdAt: int, updatedAt: int, expiresAt: int,
                             lockedBy: string, lockedAt: int, ts: Timestamp, node: string, deleted: bool) {
    predicate ExpiredAt(now: int)
    {
      now > expiresAt
    }

    predicate VisibleAt(now: int)
    {
      !deleted && !ExpiredAt(now)
    }
  }

  datatype Lock = Lock(key: string, holder: string, expiresAt: int, ts: Timestamp, node: string, deleted: bool) {
    /** Released, or past its expiry. */
    predicate DeadAt(now: int)
    {
      deleted || now > expiresAt
    }

    /** At the very instant of expiry a lock is neither held nor dead. */
    predicate HeldAt(now: int)
    {
      !deleted && now < expiresAt
    }

    predicate HeldByAt(who: string, now: int)
    {
      holder == who && HeldAt(now)
    }
  }

  datatype Register = Register(value: string, ts: Timestamp, node: string)

  /** A full snapshot or a delta: both carry the same fields. */
  datatype Gossip = Gossip(sessions: map<string, Session>, locks: map<string, Lock>, meta: map<string, Register>,
                           node: string, version: Timestamp)

  // ---------- Merges ----------

  function MergeSession(s: Session, other: Session): Session
  {
    if s.ts.Less(other.ts) then other
    else if s.ts.Equal(other.ts) && TextOrder.Below(s.node, other.node) then other
    else s
  }

  function MergeLock(l: Lock, other: Lock, now: int): Lock
  {
    var lExpired := now > l.expiresAt;
    var otherExpired := now > other.expiresAt;
    if lExpired && !otherExpired then other
    else if !lExpired && otherExpired then l
    else if l.ts.Less(other.ts) then other
    else if l.ts.Equal(other.ts) && TextOrder.Below(l.node, other.node) then other
    else l
  }

  function MergeRegister(r: Register, other: Register): Register
  {
    if r.ts.Less(other.ts) then other
    else if r.ts.Equal(other.ts) && TextOrder.Below(r.node, other.node) then other
    else r
  }

  // ---------- The rank each merge maximises ----------

  function SessionRank(s: Session): Rank { Rank(true, s.ts, s.node) }

  function RegisterRank(r: Register): Rank { Rank(true, r.ts, r.node) }

  /** Locks ranked by stamp alone. */
  function StampRank(l: Lock): Rank { Rank(true, l.ts, l.node) }

  function LockRank(now: int): Lock -> Rank
  {
    (l: Lock) => Rank(now <= l.expiresAt, l.ts, l.node)
  }

  lemma MergesMaximiseRank(s1: Session, s2: Session, r1: Register, r2: Register, l1: Lock, l2: Lock, now: int)
    ensures MergeSession(s1, s2) == Merge(SessionRank, s1, s2)
    ensures MergeRegister(r1, r2) == Merge(RegisterRank, r1, r2)
    ensures MergeLock(l1, l2, now) == Merge(LockRank(now), l1, l2)
  {
  }

  /** The second stamp is later; or the stamps are equal and the second node's id comes later as a text. */
  ghost predicate Outdone(ts: Timestamp, node: string, otherTs: Timestamp, otherNode: string)
  {
    || ts.physical < otherTs.physical
    || (ts.physical == otherTs.physical && ts.logical < otherTs.logical)
    || (ts == otherTs && TextOrder.ComesBefore(node, otherNode))
  }

  /** Which entry each merge keeps: of two locks, the one that has not expired if the other has; otherwise, and
      for sessions and registers always, the later one, and on equal stamps that of the larger node id. */
  lemma MergesExactly(s1: Session, s2: Session, r1: Register, r2: Register, l1: Lock, l2: Lock, now: int)
    ensures MergeSession(s1, s2) == if Outdone(s1.ts, s1.node, s2.ts, s2.node) then s2 else s1
    ensures MergeRegister(r1, r2) == if Outdone(r1.ts, r1.node, r2.ts, r2.node) then r2 else r1
    ensures l1.expiresAt < now <= l2.expiresAt ==> MergeLock(l1, l2, now) == l2
    ensures l2.expiresAt < now <= l1.expiresAt ==> MergeLock(l1, l2, now) == l1
    ensures (l1.expiresAt < now <==> l2.expiresAt < now) ==>
              MergeLock(l1, l2, now) == if Outdone(l1.ts, l1.node, l2.ts, l2.node) then l2 else l1
  {
    TextOrder.BelowExactly(s1.node, s2.node);
    TextOrder.BelowExactly(r1.node, r2.node);
    TextOrder.BelowExactly(l1.node, l2.node);
  }

  /** Two sessions stamped alike on two nodes: the second node's is kept, on either side of the merge. */
  lemma TieGoesToLargerNode(s: Session, ts: Timestamp)
    ensures var a, b := s.(ts := ts, node := "node-a"), s.(ts := ts, node := "node-b");
            MergeSession(a, b) == b && MergeSession(b, a) == b
  {
    assert "node-a"[..5] == "node-b"[..5];
    assert TextOrder.SmallerAt("node-a", "node-b", 5);
    TextOrder.BelowExactly("node-a", "node-b");
    TextOrder.Trichotomy("node-a", "node-b");
  }

  // ---------- When merging locks does not depend on the time ----------

  /** The newer of two locks wins whenever they are merged, on either side, exactly when it does not
      expire first. */
  lemma NewerLockWinsExactly(older: Lock, newer: Lock)
    requires StampRank(older).Below(StampRank(newer))
    ensures (forall now :: MergeLock(older, newer, now) == newer && MergeLock(newer, older, now) == newer)
       <==> older.expiresAt <= newer.expiresAt
  {
    RankTrichotomy(StampRank(older), StampRank(newer));
    if older.expiresAt > newer.expiresAt {
      assert MergeLock(older, newer, newer.expiresAt + 1) == older;
    } else {
      forall now ensures MergeLock(older, newer, now) == newer && MergeLock(newer, older, now) == newer {
      }
    }
  }

  /** Two locks merged at two times give two results, so lock merging is not last-writer-wins in general. */
  lemma LockMergeDependsOnTime()
    ensures var older := Lock("k", "a", 100, Timestamp(1, 0), "n", false);
            var newer := Lock("k", "a", 10, Timestamp(2, 0), "n", true);
            && MergeLock(newer, older, 5) == newer
            && MergeLock(newer, older, 50) == older
            && older.HeldAt(50)
  {
  }

  /** Versions of one lock in which no newer stamp expires earlier and no stamp is used twice. */
  ghost predicate Aligned(versions: set<Lock>)
  {
    && (forall a, b :: a in versions && b in versions && StampRank(a).Below(StampRank(b)) ==> a.expiresAt <= b.expiresAt)
    && (forall a, b :: a in versions && b in versions && StampRank(a) == StampRank(b) ==> a == b)
  }

  /** Merging a sequence of locks into l, the i-th one at time times[i]. */
  function MergeLocksAt(l: Lock, others: seq<Lock>, times: seq<int>): Lock
    requires |others| == |times|
  {
    if others == [] then l
    else
      var last := |others| - 1;
      MergeLock(MergeLocksAt(l, others[..last], times[..last]), others[last], times[last])
  }

  /** Among l and the others, `latest` is one whose stamp none exceeds. */
  ghost predicate IsLatest(latest: Lock, l: Lock, others: seq<Lock>)
  {
    && (latest == l || latest in others)
    && !StampRank(latest).Below(StampRank(l))
    && forall v :: v in others ==> !StampRank(latest).Below(StampRank(v))
  }

  lemma AlignedMergeIsLww(versions: set<Lock>, a: Lock, b: Lock, now: int)
    requires Aligned(versions) && a in versions && b in versions
    ensures MergeLock(a, b, now) == Merge(StampRank, a, b)
  {
    RankTrichotomy(StampRank(a), StampRank(b));
  }

  /** On aligned versions any sequence of merges, each at its own time, yields the latest version. */
  lemma {:induction false} AlignedMergesAreLww(versions: set<Lock>, l: Lock, others: seq<Lock>, times: seq<int>)
    requires |others| == |times| && Aligned(versions)
    requires l in versions && forall v :: v in others ==> v in versions
    ensures IsLatest(MergeLocksAt(l, others, times), l, others)
  {
    if others == [] {
      RankTrichotomy(StampRank(l), StampRank(l));
    } else {
      var init, last := others[..|others| - 1], others[|others| - 1];
      AlignedMergesAreLww(versions, l, init, times[..|others| - 1]);
      var before := MergeLocksAt(l, init, times[..|others| - 1]);
      assert others == init + [last];
      AlignedMergeIsLww(versions, before, last, times[|others| - 1]);
      LatestOfOneMore(before, l, init, last);
    }
  }

  lemma LatestOfOneMore(before: Lock, l: Lock, init: seq<Lock>, last: Lock)
    requires IsLatest(before, l, init)
    ensures IsLatest(Merge(StampRank, before, last), l, init + [last])
  {
    var after := Merge(StampRank, before, last);
    RankTrichotomy(StampRank(before), StampRank(last));
    RankTrichotomy(StampRank(last), StampRank(last));
    forall v | v == l || v in init ensures !StampRank(after).Below(StampRank(v)) {
      RankTransitive(StampRank(v), StampRank(before), StampRank(after));
    }
  }

  /** A released lock that is the latest version is never revived by a stale copy, whatever the
      order and the times of the merges. */
  lemma ReleasedStaysReleased(versions: set<Lock>, l: Lock, others: seq<Lock>, times: seq<int>, released: Lock)
    requires |others| == |times| && Aligned(versions)
    requires l in versions && forall v :: v in others ==> v in versions
    requires released.deleted && IsLatest(released, l, others)
    ensures MergeLocksAt(l, others, times) == released
  {
    AlignedMergesAreLww(versions, l, others, times);
    RankTrichotomy(StampRank(MergeLocksAt(l, others, times)), StampRank(released));
  }
}
