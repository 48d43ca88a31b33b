/** Counting facts about finite sets. */
module Finite {
  ghost predicate InjectiveOn<A, B>(f: A -> B, a: set<A>) {
    forall x, y :: x in a && y in a && f(x) == f(y) ==> x == y
  }

  ghost function Image<A, B>(f: A -> B, a: set<A>): set<B> {
    set x | x in a :: f(x)
  }

  lemma {:induction false} ImageSize<A, B>(f: A -> B, a: set<A>)
    requires InjectiveOn(f, a)
    ensures |Image(f, a)| == |a|
    decreases |a|
  {
    if a != {} {
      var x :| x in a;
      var rest := a - {x};
      ImageSize(f, rest);
      assert Image(f, a) == Image(f, rest) + {f(x)};
    }
  }

  lemma SubsetSize<T>(x: set<T>, s: set<T>)
    requires x <= s
    ensures |x| <= |s|
    ensures |s - x| == |s| - |x|
    ensures |x| == |s| ==> x == s
  {
    assert s == x + (s - x);
  }

  /** An injection of a finite set into itself reaches every element. */
  lemma InjectionReaches<T>(f: T -> T, a: set<T>, y: T) returns (x: T)
    requires InjectiveOn(f, a) && y in a
    requires forall x :: x in a ==> f(x) in a
    ensures x in a && f(x) == y
  {
    ImageSize(f, a);
    SubsetSize(Image(f, a), a);
    assert y in Image(f, a);
    x :| x in a && f(x) == y;
  }

  function Below(n: nat): set<nat> {
    if n == 0 then {} else Below(n - 1) + {n - 1}
  }

  lemma {:induction false} BelowMembers(n: nat)
    ensures forall i :: i in Below(n) <==> 0 <= i < n
    ensures |Below(n)| == n
  {
    if n > 0 {
      BelowMembers(n - 1);
    }
  }

  ghost function Fiber<T, K>(all: set<T>, key: T -> K, k: K): set<T> {
    set x | x in all && key(x) == k
  }

  /** A finite set cut by `key` into classes of one size. */
  lemma {:induction false} EqualFibers<T, K>(all: set<T>, key: T -> K, size: nat)
    requires forall x :: x in all ==> |Fiber(all, key, key(x))| == size
    ensures |all| == |Image(key, all)| * size
    decreases |all|
  {
    if all != {} {
      var x :| x in all;
      var k := key(x);
      var fiber := Fiber(all, key, k);
      RemoveFiber(all, key, k);
      FiberImage(all, key, x);
      assert |fiber| == size;
      hide Fiber, Image;
      SubsetSize(fiber, all);
      EqualFibers(all - fiber, key, size);
      assert |Image(key, all - fiber) + {k}| == |Image(key, all - fiber)| + 1;
      NextMultiple(|Image(key, all - fiber)|, size);
    }
  }

  lemma NextMultiple(n: nat, size: nat)
    ensures (n + 1) * size == n * size + size
  {}

  lemma FiberImage<T, K>(all: set<T>, key: T -> K, x: T)
    requires x in all
    ensures var fiber := Fiber(all, key, key(x));
            && x in fiber && fiber <= all
            && key(x) !in Image(key, all - fiber)
            && Image(key, all) == Image(key, all - fiber) + {key(x)}
  {
    var fiber := Fiber(all, key, key(x));
    forall k ensures k in Image(key, all) <==> k in Image(key, all - fiber) || k == key(x) {
      if k in Image(key, all) {
        var y :| y in all && key(y) == k;
        assert y in fiber || y in all - fiber;
      }
    }
  }

  lemma RemoveFiber<T, K>(all: set<T>, key: T -> K, k: K)
    ensures var rest := all - Fiber(all, key, k);
            forall y :: y in rest ==> Fiber(rest, key, key(y)) == Fiber(all, key, key(y))
  {}

  // ----- positions of a sequence

  /** Where in the sequence the predicate holds. */
  ghost function Where<T>(s: seq<T>, p: T -> bool): set<nat> {
    set i: nat | i < |s| && p(s[i])
  }

  lemma WhereNext<T>(s: seq<T>, x: T, p: T -> bool)
    ensures |Where(s + [x], p)| == |Where(s, p)| + (if p(x) then 1 else 0)
  {
    assert Where(s + [x], p) == Where(s, p) + (if p(x) then {|s|} else {});
  }

  // ----- finite sets of numbers, in order

  function MinOf(s: set<nat>): (m: nat)
    requires s != {}
    ensures m in s && forall x :: x in s ==> m <= x
  {
    MinExists(s);
    var m :| m in s && forall x :: x in s ==> m <= x;
    m
  }

  lemma {:induction false} MinExists(s: set<nat>)
    requires s != {}
    ensures exists m :: m in s && forall x :: x in s ==> m <= x
    decreases |s|
  {
    var m := LeastBelow(s, 0);
  }

  lemma {:induction false} LeastBelow(s: set<nat>, low: nat) returns (m: nat)
    requires s != {} && forall x :: x in s ==> low <= x
    ensures m in s && forall x :: x in s ==> m <= x
    decreases (var x: nat :| x in s; x) - low
  {
    if low in s { return low; }
    m := LeastBelow(s, low + 1);
  }

  ghost predicate StrictlyIncreasing(s: seq<nat>) {
    forall i, j :: 0 <= i < j < |s| ==> s[i] < s[j]
  }

  function Ascending(s: set<nat>): (r: seq<nat>)
    ensures StrictlyIncreasing(r)
    ensures forall x :: x in r <==> x in s
    ensures |r| == |s|
    decreases |s|
  {
    if s == {} then []
    else
      var m := MinOf(s);
      var rest := Ascending(s - {m});
      assert forall j :: 0 <= j < |rest| ==> rest[j] in rest;
      [m] + rest
  }
}
