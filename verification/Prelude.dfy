/** Shared result types and a few facts about finite sets and sequences. */
module Prelude {
  datatype Option<+T> = None | Some(value: T)

  datatype Result<+T, +E> = Ok(value: T) | Err(error: E)

  /** No element occurs twice: what `len(xs) == len(set(xs))` checks. */
  ghost predicate NoRepeats<T>(xs: seq<T>) {
    forall i, j :: 0 <= i < j < |xs| ==> xs[i] != xs[j]
  }

  /** `counter.get(key, 0)` */
  function Get<K>(counter: map<K, nat>, key: K): nat {
    if key in counter then counter[key] else 0
  }

  function Smaller(a: nat, b: nat): nat { if a <= b then a else b }

  lemma RemoveAt<T>(s: seq<T>, j: nat)
    requires j < |s|
    ensures multiset(s[..j] + s[j + 1..]) == multiset(s) - multiset{s[j]}
  {
    assert s == s[..j] + [s[j]] + s[j + 1..];
  }

  lemma {:induction false} NoRepeatsOnce<T>(s: seq<T>, x: T)
    requires NoRepeats(s)
    ensures multiset(s)[x] == if x in s then 1 else 0
  {
    if s != [] {
      var n := |s| - 1;
      NoRepeatsOnce(s[..n], x);
      assert s == s[..n] + [s[n]];
    }
  }

  lemma SameElements<T>(a: seq<T>, b: seq<T>)
    requires NoRepeats(a) && NoRepeats(b)
    requires forall x :: x in a <==> x in b
    ensures multiset(a) == multiset(b)
  {
    forall x ensures multiset(a)[x] == multiset(b)[x] {
      NoRepeatsOnce(a, x);
      NoRepeatsOnce(b, x);
    }
  }

  lemma PermutedMembers<T>(a: seq<T>, b: seq<T>)
    requires multiset(a) == multiset(b)
    ensures forall x :: x in a <==> x in b
  {
    forall x ensures x in a <==> x in b {
      assert x in multiset(a) <==> x in multiset(b);
    }
  }

  /** `len(set(xs)) == len(xs)` */
  lemma {:induction false} SizeOfSet<T>(xs: seq<T>)
    ensures |set x | x in xs| <= |xs|
    ensures |set x | x in xs| == |xs| <==> NoRepeats(xs)
  {
    if xs != [] {
      var n := |xs| - 1;
      SizeOfSet(xs[..n]);
      var before := set x | x in xs[..n];
      assert xs == xs[..n] + [xs[n]];
      assert (set x | x in xs) == before + {xs[n]};
      if xs[n] in xs[..n] {
        assert before + {xs[n]} == before;
      }
    }
  }

  /** Any finite set can be listed. */
  lemma {:induction false} ListOf<T>(s: set<T>) returns (q: seq<T>)
    ensures NoRepeats(q) && forall x :: x in q <==> x in s
    decreases |s|
  {
    q := [];
    if s != {} {
      var x :| x in s;
      q := ListOf(s - {x});
      q := q + [x];
    }
  }

  ghost predicate Pairwise<T(!new)>(s: seq<T>, apart: (T, T) -> bool) {
    forall i, j :: 0 <= i < j < |s| ==> apart(s[i], s[j])
  }

  /** A symmetric relation holds between all pairs of a sequence in any order of it. */
  lemma {:induction false} PairwisePermuted<T(!new)>(a: seq<T>, b: seq<T>, apart: (T, T) -> bool)
    requires forall x, y :: apart(x, y) ==> apart(y, x)
    requires multiset(a) == multiset(b) && Pairwise(a, apart)
    ensures Pairwise(b, apart)
    decreases |a|
  {
    if a == [] {
      assert |multiset(b)| == 0;
    } else {
      var n := |a| - 1;
      assert a == a[..n] + [a[n]];
      assert a[n] in multiset(b);
      var k :| 0 <= k < |b| && b[k] == a[n];
      var rest := b[..k] + b[k + 1..];
      RemoveAt(b, k);
      PairwisePermuted(a[..n], rest, apart);
      PermutedMembers(a[..n], rest);
      LastApart(a, apart);
      hide Pairwise;
      PairwiseInsert(b, k, apart);
    }
  }

  lemma LastApart<T(!new)>(a: seq<T>, apart: (T, T) -> bool)
    requires forall x, y :: apart(x, y) ==> apart(y, x)
    requires a != [] && Pairwise(a, apart)
    ensures var n := |a| - 1; forall y :: y in a[..n] ==> apart(y, a[n]) && apart(a[n], y)
  {}

  lemma PairwiseInsert<T(!new)>(b: seq<T>, k: nat, apart: (T, T) -> bool)
    requires k < |b| && Pairwise(b[..k] + b[k + 1..], apart)
    requires forall y :: y in b[..k] + b[k + 1..] ==> apart(y, b[k]) && apart(b[k], y)
    ensures Pairwise(b, apart)
  {
    var rest := b[..k] + b[k + 1..];
    forall i, j | 0 <= i < j < |b| ensures apart(b[i], b[j]) {
      assert i != k ==> b[i] == rest[if i < k then i else i - 1];
      assert j != k ==> b[j] == rest[if j < k then j else j - 1];
      assert i != k && j != k ==>
          apart(rest[if i < k then i else i - 1], rest[if j < k then j else j - 1]);
    }
  }

  // ----- sums do not depend on the order

  function SumNats(xs: seq<nat>): nat {
    if xs == [] then 0 else SumNats(xs[..|xs| - 1]) + xs[|xs| - 1]
  }

  ghost function SumBy<T>(s: seq<T>, weight: T -> nat): nat {
    if s == [] then 0 else SumBy(s[..|s| - 1], weight) + weight(s[|s| - 1])
  }

  lemma {:induction false} SumByConcat<T>(a: seq<T>, b: seq<T>, weight: T -> nat)
    ensures SumBy(a + b, weight) == SumBy(a, weight) + SumBy(b, weight)
  {
    if b == [] {
      assert a + b == a;
    } else {
      SumByConcat(a, b[..|b| - 1], weight);
      assert (a + b)[..|a + b| - 1] == a + b[..|b| - 1];
    }
  }

  lemma SumByOne<T>(x: T, weight: T -> nat)
    ensures SumBy([x], weight) == weight(x)
  {
    assert [x][..0] == [];
  }

  lemma SumByMiddle<T>(a: seq<T>, x: T, b: seq<T>, weight: T -> nat)
    ensures SumBy(a + [x] + b, weight) == SumBy(a + b, weight) + weight(x)
  {
    SumByOne(x, weight);
    hide SumBy;
    SumByConcat(a, b, weight);
    SumByConcat(a, [x], weight);
    SumByConcat(a + [x], b, weight);
  }

  lemma SumByWithout<T>(s: seq<T>, j: nat, weight: T -> nat)
    requires j < |s|
    ensures SumBy(s, weight) == SumBy(s[..j] + s[j + 1..], weight) + weight(s[j])
  {
    hide SumBy;
    assert s == s[..j] + [s[j]] + s[j + 1..];
    SumByMiddle(s[..j], s[j], s[j + 1..], weight);
  }

  lemma {:induction false} SumByPermuted<T>(a: seq<T>, b: seq<T>, weight: T -> nat)
    requires multiset(a) == multiset(b)
    ensures SumBy(a, weight) == SumBy(b, weight)
    decreases |a|
  {
    if a == [] {
      assert |multiset(b)| == 0;
    } else {
      var n := |a| - 1;
      assert a == a[..n] + [a[n]];
      assert a[n] in multiset(b);
      var j :| 0 <= j < |b| && b[j] == a[n];
      RemoveAt(b, j);
      SumByPermuted(a[..n], b[..j] + b[j + 1..], weight);
      SumByWithout(b, j, weight);
    }
  }

  ghost function Itself(): nat -> nat { (x: nat) => x }

  lemma {:induction false} SumNatsBy(xs: seq<nat>)
    ensures SumNats(xs) == SumBy(xs, Itself())
  {
    if xs != [] { SumNatsBy(xs[..|xs| - 1]); }
  }

  lemma SumNatsPermuted(a: seq<nat>, b: seq<nat>)
    requires multiset(a) == multiset(b)
    ensures SumNats(a) == SumNats(b)
  {
    SumNatsBy(a);
    SumNatsBy(b);
    SumByPermuted(a, b, Itself());
  }

  lemma SumNatsAppend(s: seq<nat>, x: nat)
    ensures SumNats(s + [x]) == SumNats(s) + x
  {
    assert (s + [x])[..|s|] == s;
  }
}
