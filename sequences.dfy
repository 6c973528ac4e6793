/** Facts about sequences shared by the reordering operations: distinctness,
    index lists, and the list obtained by reading a sequence at given positions. */
module Sequences {

  /** No element occurs twice. */
  predicate NoDup<T(==)>(s: seq<T>) {
    forall i, j :: 0 <= i < j < |s| ==> s[i] != s[j]
  }

  /** Every entry of `order` is a valid position in a list of length `n`. */
  predicate AllBelow(order: seq<int>, n: int) {
    forall i :: 0 <= i < |order| ==> 0 <= order[i] < n
  }

  /** The positions 0, 1, ..., n-1 in ascending order. */
  function Iota(n: nat): seq<int> {
    seq(n, i => i)
  }

  /** `order` lists each of 0, 1, ..., n-1 exactly once, in some order. */
  predicate IsIndexPermutation(order: seq<int>, n: nat) {
    multiset(order) == multiset(Iota(n))
  }

  /** The list obtained by reading `s` at each position of `order` in turn. */
  function Gathered<T>(s: seq<T>, order: seq<int>): seq<T>
    requires AllBelow(order, |s|)
  {
    seq(|order|, i requires 0 <= i < |order| => s[order[i]])
  }

  /** An index permutation has the right length and only valid positions. */
  lemma PermutationIsValidOrder(order: seq<int>, n: nat)
    requires IsIndexPermutation(order, n)
    ensures |order| == n && AllBelow(order, n)
  {
    assert |order| == |multiset(order)| == |multiset(Iota(n))| == |Iota(n)|;
    forall i | 0 <= i < |order| ensures 0 <= order[i] < n {
      assert order[i] in multiset(Iota(n));
    }
  }

  lemma GatheredAppend<T>(s: seq<T>, a: seq<int>, b: seq<int>)
    requires AllBelow(a, |s|) && AllBelow(b, |s|)
    ensures AllBelow(a + b, |s|)
    ensures Gathered(s, a + b) == Gathered(s, a) + Gathered(s, b)
  {
  }

  /** Reading `s` at two rearrangements of the same positions gives two
      rearrangements of the same records. */
  lemma {:induction false} GatheredRearranged<T>(s: seq<T>, a: seq<int>, b: seq<int>)
    requires AllBelow(a, |s|) && AllBelow(b, |s|)
    requires multiset(a) == multiset(b)
    ensures multiset(Gathered(s, a)) == multiset(Gathered(s, b))
    decreases |a|
  {
    if a == [] {
      assert |b| == |multiset(b)| == 0;
    } else {
      var j := MatchFirst(a, b);
      BelowAround(b, |s|, j);
      var left, right := b[..j], b[j + 1..];
      GatheredAppend(s, left, right);
      GatheredRearranged(s, a[1..], left + right);
      GatheredAppend(s, [a[0]], a[1..]);
      assert a == [a[0]] + a[1..];
      GatheredAppend(s, left, [b[j]]);
      GatheredAppend(s, left + [b[j]], right);
    }
  }

  /** The first entry of `a` stands somewhere in its rearrangement `b`, and
      what remains of both are rearrangements of each other. */
  lemma MatchFirst<T>(a: seq<T>, b: seq<T>) returns (j: nat)
    requires a != [] && multiset(a) == multiset(b)
    ensures j < |b| && b[j] == a[0]
    ensures multiset(a[1..]) == multiset(b[..j] + b[j + 1..])
  {
    assert a[0] in multiset(b);
    j :| 0 <= j < |b| && b[j] == a[0];
    assert a == [a[0]] + a[1..];
    assert b == b[..j] + [b[j]] + b[j + 1..];
    assert multiset(b) == multiset(b[..j]) + multiset{a[0]} + multiset(b[j + 1..]);
    assert multiset(a) == multiset{a[0]} + multiset(a[1..]);
    assert multiset(b[..j] + b[j + 1..]) == multiset(b[..j]) + multiset(b[j + 1..]);
    forall y ensures multiset(a[1..])[y] == multiset(b[..j] + b[j + 1..])[y] {
      assert multiset(a)[y] == multiset(b)[y];
    }
  }

  lemma BelowAround(order: seq<int>, n: int, j: nat)
    requires AllBelow(order, n) && j < |order|
    ensures AllBelow(order[..j], n) && AllBelow(order[j + 1..], n)
    ensures order == order[..j] + [order[j]] + order[j + 1..]
  {
  }

  /** Where position `k` of a concatenation falls. */
  lemma ConcatAt<T>(a: seq<T>, b: seq<T>, k: nat)
    requires k < |a + b|
    ensures (a + b)[k] == if k < |a| then a[k] else b[k - |a|]
  {
  }

  /** Reading `s` along an index permutation rearranges `s`: every record is
      kept, none is repeated. */
  lemma GatheredPermutation<T>(s: seq<T>, order: seq<int>)
    requires IsIndexPermutation(order, |s|)
    ensures AllBelow(order, |s|) && |Gathered(s, order)| == |s|
    ensures multiset(Gathered(s, order)) == multiset(s)
  {
    PermutationIsValidOrder(order, |s|);
    GatheredRearranged(s, order, Iota(|s|));
    assert Gathered(s, Iota(|s|)) == s;
  }

  /** In a sequence without duplicates, every value occurs at most once. */
  lemma {:induction false} CountInDistinct<T>(s: seq<T>, x: T)
    requires NoDup(s)
    ensures multiset(s)[x] == if x in s then 1 else 0
  {
    if s != [] {
      assert s == [s[0]] + s[1..];
      assert NoDup(s[1..]);
      CountInDistinct(s[1..], x);
    }
  }

  /** Two equal entries at different positions are counted twice. */
  lemma CountOfRepeat<T>(s: seq<T>, i: nat, j: nat)
    requires i < j < |s|
    ensures s[i] == s[j] ==> multiset(s)[s[i]] >= 2
  {
    assert s == s[..j] + s[j..];
    assert s[..j][i] == s[i];
    assert s[j..][0] == s[j];
  }

  /** A rearrangement of a sequence without duplicates has none. */
  lemma NoDupRearranged<T>(a: seq<T>, b: seq<T>)
    requires multiset(a) == multiset(b) && NoDup(b)
    ensures NoDup(a)
  {
    forall i, j | 0 <= i < j < |a| ensures a[i] != a[j] {
      CountOfRepeat(a, i, j);
      CountInDistinct(b, a[i]);
    }
  }

  /** Two duplicate-free sequences with the same elements are rearrangements
      of each other. */
  lemma SameElementsRearranged<T>(a: seq<T>, b: seq<T>)
    requires NoDup(a) && NoDup(b)
    requires forall x :: x in a <==> x in b
    ensures multiset(a) == multiset(b)
  {
    forall x ensures multiset(a)[x] == multiset(b)[x] {
      CountInDistinct(a, x);
      CountInDistinct(b, x);
    }
  }
}
