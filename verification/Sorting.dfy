/** Python's `sorted` with a numeric key: insertion keeps the order of equal keys. */
module Sorting {
  import opened Prelude

  ghost predicate Ordered<T>(s: seq<T>, key: T -> real) {
    forall i, j :: 0 <= i < j < |s| ==> key(s[i]) <= key(s[j])
  }

  function Insert<T>(x: T, sorted: seq<T>, key: T -> real): (r: seq<T>)
    ensures multiset(r) == multiset(sorted) + multiset{x}
  {
    if sorted == [] then [x]
    else
      var n := |sorted| - 1;
      assert sorted == sorted[..n] + [sorted[n]];
      if key(sorted[n]) <= key(x) then sorted + [x] else Insert(x, sorted[..n], key) + [sorted[n]]
  }

  lemma {:induction false} InsertOrders<T>(x: T, sorted: seq<T>, key: T -> real)
    requires Ordered(sorted, key)
    ensures Ordered(Insert(x, sorted, key), key)
  {
    if sorted != [] {
      var n := |sorted| - 1;
      InsertOrders(x, sorted[..n], key);
      if key(x) < key(sorted[n]) {
        AppendLargest(Insert(x, sorted[..n], key), sorted[..n], x, sorted[n], key);
      }
    }
  }

  lemma AppendLargest<T>(r: seq<T>, s: seq<T>, x: T, last: T, key: T -> real)
    requires Ordered(r, key) && multiset(r) == multiset(s) + multiset{x}
    requires key(x) <= key(last) && forall i :: 0 <= i < |s| ==> key(s[i]) <= key(last)
    ensures Ordered(r + [last], key)
  {
    forall i | 0 <= i < |r| ensures key(r[i]) <= key(last) {
      assert r[i] in multiset(r);
    }
  }

  function SortBy<T>(s: seq<T>, key: T -> real): (r: seq<T>)
    ensures multiset(r) == multiset(s) && Ordered(r, key)
  {
    if s == [] then []
    else
      var n := |s| - 1;
      assert s == s[..n] + [s[n]];
      InsertOrders(s[n], SortBy(s[..n], key), key);
      Insert(s[n], SortBy(s[..n], key), key)
  }

  // ----- with different keys there is one order

  ghost predicate DistinctKeys<T>(s: seq<T>, key: T -> real) {
    forall x, y :: x in s && y in s && key(x) == key(y) ==> x == y
  }

  lemma {:induction false} OrderedUnique<T>(s: seq<T>, t: seq<T>, key: T -> real)
    requires Ordered(s, key) && Ordered(t, key) && multiset(s) == multiset(t) && DistinctKeys(s, key)
    ensures s == t
  {
    SameLength(s, t);
    if s != [] {
      LastIsLargest(s, t, key);
      LastIsLargest(t, s, key);
      SameLast(s, t, key);
      OrderedInit(s, key);
      OrderedInit(t, key);
      hide *;
      OrderedUnique(s[..|s| - 1], t[..|t| - 1], key);
      assert s == s[..|s| - 1] + [s[|s| - 1]];
      assert t == t[..|t| - 1] + [t[|t| - 1]];
    }
  }

  lemma SameLength<T>(s: seq<T>, t: seq<T>)
    requires multiset(s) == multiset(t)
    ensures |s| == |t|
  {
    assert |multiset(s)| == |multiset(t)|;
  }

  lemma SameLast<T>(s: seq<T>, t: seq<T>, key: T -> real)
    requires multiset(s) == multiset(t) && DistinctKeys(s, key) && s != [] && t != []
    requires key(s[|s| - 1]) == key(t[|t| - 1])
    ensures s[|s| - 1] == t[|t| - 1]
    ensures multiset(s[..|s| - 1]) == multiset(t[..|t| - 1])
  {
    PermutedMembers(s, t);
    DropLast(s);
    DropLast(t);
  }

  lemma LastIsLargest<T>(s: seq<T>, t: seq<T>, key: T -> real)
    requires Ordered(s, key) && multiset(s) == multiset(t) && s != [] && t != []
    ensures key(t[|t| - 1]) <= key(s[|s| - 1])
  {
    assert t[|t| - 1] in multiset(t);
    assert t[|t| - 1] in s;
  }

  lemma DropLast<T>(s: seq<T>)
    requires s != []
    ensures multiset(s[..|s| - 1]) == multiset(s) - multiset{s[|s| - 1]}
  {
    assert s == s[..|s| - 1] + [s[|s| - 1]];
  }

  lemma OrderedInit<T>(s: seq<T>, key: T -> real)
    requires s != []
    ensures Ordered(s, key) ==> Ordered(s[..|s| - 1], key)
    ensures DistinctKeys(s, key) ==> DistinctKeys(s[..|s| - 1], key)
  {}
}
