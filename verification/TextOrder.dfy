/** Go's ordering of strings, which breaks ties between equal timestamps. */
module TextOrder {

  /** Lexicographic order, a proper prefix first.  Dafny's own `<` on strings is the prefix order. */
  predicate Below(a: string, b: string)
  {
    if b == [] then false
    else if a == [] then true
    else a[0] < b[0] || (a[0] == b[0] && Below(a[1..], b[1..]))
  }

  lemma {:induction false} Trichotomy(a: string, b: string)
    ensures Below(a, b) || a == b || Below(b, a)
    ensures !(Below(a, b) && Below(b, a))
    ensures a == b ==> !Below(a, b)
  {
    if a != [] && b != [] {
      Trichotomy(a[1..], b[1..]);
      if a[0] == b[0] && a[1..] == b[1..] {
        assert a == [a[0]] + a[1..] == [b[0]] + b[1..] == b;
      }
    }
  }

  lemma {:induction false} Transitive(a: string, b: string, c: string)
    requires Below(a, b) && Below(b, c)
    ensures Below(a, c)
  {
    if a != [] && b[0] == a[0] && c[0] == b[0] {
      Transitive(a[1..], b[1..], c[1..]);
    }
  }

  /** The texts agree up to position i, and a has the smaller character there. */
  predicate SmallerAt(a: string, b: string, i: nat)
  {
    i < |a| && i < |b| && a[..i] == b[..i] && a[i] < b[i]
  }

  /** a is a proper prefix of b, or has the smaller character where they first differ. */
  ghost predicate ComesBefore(a: string, b: string)
  {
    (|a| < |b| && a == b[..|a|]) || exists i: nat :: SmallerAt(a, b, i)
  }

  lemma PrefixTail(a: string, b: string, i: nat)
    requires a != [] && b != [] && i < |a| && i < |b|
    ensures a[..i + 1] == b[..i + 1] <==> a[0] == b[0] && a[1..][..i] == b[1..][..i]
  {
    assert a[..i + 1] == [a[0]] + a[1..][..i];
    assert b[..i + 1] == [b[0]] + b[1..][..i];
    assert a[..i + 1][0] == a[0] && a[..i + 1][1..] == a[1..][..i];
    assert b[..i + 1][0] == b[0] && b[..i + 1][1..] == b[1..][..i];
  }

  lemma SmallerTail(a: string, b: string, i: nat)
    requires a != [] && b != []
    ensures SmallerAt(a, b, i + 1) <==> a[0] == b[0] && SmallerAt(a[1..], b[1..], i)
    ensures SmallerAt(a, b, 0) <==> a[0] < b[0]
  {
    if i < |a| && i < |b| { PrefixTail(a, b, i); }
    assert a[..0] == b[..0];
  }

  lemma ComesBeforeTail(a: string, b: string)
    requires a != [] && b != []
    ensures ComesBefore(a, b) <==> a[0] < b[0] || (a[0] == b[0] && ComesBefore(a[1..], b[1..]))
  {
    assert |a| < |b| ==> (a == b[..|a|] <==> a[0] == b[0] && a[1..] == b[1..][..|a| - 1]) by {
      if |a| < |b| { PrefixTail(a, b, |a| - 1); assert a[..|a|] == a && a[1..][..|a| - 1] == a[1..]; }
    }
    SmallerTail(a, b, 0);
    if i: nat :| SmallerAt(a, b, i) {
      if i > 0 { SmallerTail(a, b, i - 1); }
    }
    if i: nat :| SmallerAt(a[1..], b[1..], i) {
      SmallerTail(a, b, i);
    }
  }

  lemma {:induction false} BelowExactly(a: string, b: string)
    ensures Below(a, b) <==> ComesBefore(a, b)
  {
    if a != [] && b != [] {
      BelowExactly(a[1..], b[1..]);
      ComesBeforeTail(a, b);
    }
  }
}
