/** Permutations as tuples and the breadth-first closure `generated` of
    scripts/validate_graduate_algebra.py. */
module Permutations {
  import opened Finite

  predicate Bijective(p: seq<nat>) {
    && (forall i :: 0 <= i < |p| ==> p[i] < |p|)
    && forall i, j :: 0 <= i < |p| && 0 <= j < |p| && p[i] == p[j] ==> i == j
  }

  /** A permutation of 0, ..., |p| - 1 as the tuple of its images. */
  type Perm = p: seq<nat> | Bijective(p) witness []

  function Identity(n: nat): (p: Perm)
    ensures |p| == n && forall i :: 0 <= i < n ==> p[i] == i
  {
    seq(n, i requires i >= 0 => i)
  }

  function Compose(a: Perm, b: Perm): (c: Perm)
    requires |a| == |b|
    ensures |c| == |b|
    ensures forall i :: 0 <= i < |b| ==> b[i] < |a| && c[i] == a[b[i]]
  {
    seq(|b|, i requires 0 <= i < |b| && b[i] < |a| => a[b[i]])
  }

  /** First position of `x`, as `tuple.index` finds it. */
  function IndexOf(a: seq<nat>, x: nat): (i: nat)
    requires x in a
    ensures i < |a| && a[i] == x
  {
    if a[0] == x then 0 else 1 + IndexOf(a[1..], x)
  }

  function Entry(p: seq<nat>): nat -> nat {
    (i: nat) => if i < |p| then p[i] else i
  }

  /** An injection of the first n numbers into themselves misses none of them. */
  lemma PermIsOnto(p: Perm, x: nat)
    requires x < |p|
    ensures x in p
  {
    EntryInjective(p);
    BelowMembers(|p|);
    var i := InjectionReaches(Entry(p), Below(|p|), x);
  }

  lemma EntryInjective(p: Perm)
    ensures InjectiveOn(Entry(p), Below(|p|))
    ensures forall i :: i in Below(|p|) ==> Entry(p)(i) in Below(|p|)
  {
    BelowMembers(|p|);
  }

  lemma AllOccur(p: Perm)
    ensures forall x: nat :: x < |p| ==> x in p
  {
    forall x: nat | x < |p| ensures x in p { PermIsOnto(p, x); }
  }

  function Inverse(a: Perm): (b: Perm)
    ensures |b| == |a|
    ensures forall x :: 0 <= x < |a| ==> b[x] < |a| && a[b[x]] == x
    ensures forall x :: 0 <= x < |a| ==> a[x] < |a| && b[a[x]] == x
  {
    AllOccur(a);
    seq(|a|, x requires 0 <= x < |a| && x in a => IndexOf(a, x))
  }

  lemma InverseCancels(a: Perm)
    ensures Compose(a, Inverse(a)) == Identity(|a|) == Compose(Inverse(a), a)
  {}

  lemma ComposeIdentity(a: Perm)
    ensures Compose(a, Identity(|a|)) == a == Compose(Identity(|a|), a)
  {}

  lemma ComposeAssociative(a: Perm, b: Perm, c: Perm)
    requires |a| == |b| == |c|
    ensures Compose(Compose(a, b), c) == Compose(a, Compose(b, c))
  {}

  // ----- groups

  ghost predicate Perms(n: nat, s: set<Perm>) {
    forall p :: p in s ==> |p| == n
  }

  ghost predicate Closed(n: nat, s: set<Perm>)
    requires Perms(n, s)
  {
    forall a, b {:trigger Compose(a, b)} :: a in s && b in s ==> Compose(a, b) in s
  }

  ghost predicate IsGroup(n: nat, s: set<Perm>) {
    && Perms(n, s)
    && Identity(n) in s
    && Closed(n, s)
    && forall a {:trigger Inverse(a)} :: a in s ==> Inverse(a) in s
  }

  function LeftMultiply(a: Perm): Perm -> Perm {
    (x: Perm) => if |x| == |a| then Compose(a, x) else x
  }

  lemma CancelLeft(a: Perm, x: Perm, y: Perm)
    requires |a| == |x| == |y| && Compose(a, x) == Compose(a, y)
    ensures x == y
  {
    forall i | 0 <= i < |a| ensures x[i] == y[i] {
      assert Compose(a, x)[i] == Compose(a, y)[i];
    }
  }

  lemma LeftMultiplyInjective(n: nat, a: Perm, s: set<Perm>)
    requires |a| == n && Perms(n, s)
    ensures InjectiveOn(LeftMultiply(a), s)
  {
    hide Bijective;
    forall x, y | x in s && y in s && LeftMultiply(a)(x) == LeftMultiply(a)(y) ensures x == y {
      CancelLeft(a, x, y);
    }
  }

  /** Finiteness makes closure under composition enough for a group. */
  lemma ClosedIsGroup(n: nat, s: set<Perm>)
    requires Perms(n, s) && Identity(n) in s && Closed(n, s)
    ensures IsGroup(n, s)
  {
    hide Bijective;
    forall a | a in s ensures Inverse(a) in s {
      var b := LeftDivide(n, s, a, Identity(n));
      InverseCancels(a);
      CancelLeft(a, b, Inverse(a));
    }
  }

  /** In a finite closed set every equation a * b == c has a solution. */
  lemma LeftDivide(n: nat, s: set<Perm>, a: Perm, c: Perm) returns (b: Perm)
    requires Perms(n, s) && Closed(n, s) && a in s && c in s
    ensures b in s && Compose(a, b) == c
  {
    hide Bijective;
    LeftMultiplyInjective(n, a, s);
    b := InjectionReaches(LeftMultiply(a), s, c);
  }

  // ----- the closure of a set of generators

  /** Contains the identity and is closed under multiplying by a generator on the right. */
  ghost predicate RightClosed(n: nat, generators: set<Perm>, s: set<Perm>) {
    && Perms(n, s) && Perms(n, generators)
    && Identity(n) in s
    && forall x, g {:trigger Compose(x, g)} :: x in s && g in generators ==> Compose(x, g) in s
  }

  ghost predicate LeastRightClosed(n: nat, generators: set<Perm>, found: set<Perm>) {
    forall s :: RightClosed(n, generators, s) ==> found <= s
  }

  ghost predicate Expanded(generators: set<Perm>, x: Perm, n: nat, found: set<Perm>)
    requires |x| == n && Perms(n, generators)
  {
    forall g :: g in generators ==> Compose(x, g) in found
  }

  /** All tuples of length k over the first n numbers: a finite bound on what can be found. */
  ghost function Tuples(n: nat, k: nat): set<seq<nat>> {
    if k == 0 then {[]} else set t, x | t in Tuples(n, k - 1) && x in Below(n) :: t + [x]
  }

  lemma {:induction false} TuplesContain(n: nat, k: nat, p: seq<nat>)
    requires |p| == k && forall i :: 0 <= i < k ==> p[i] < n
    ensures p in Tuples(n, k)
  {
    if k > 0 {
      TuplesContain(n, k - 1, p[..k - 1]);
      BelowMembers(n);
      assert p == p[..k - 1] + [p[k - 1]];
    }
  }

  /** What a search may still find. */
  ghost function Unfound(n: nat, found: set<Perm>): set<seq<nat>> {
    set p | p in Tuples(n, n) && !(Bijective(p) && p in found)
  }

  lemma FewerLeft(n: nat, found: set<Perm>, p: Perm)
    requires |p| == n && p !in found
    ensures |Unfound(n, found + {p})| < |Unfound(n, found)|
  {
    TuplesContain(n, n, p);
    assert Unfound(n, found + {p}) == Unfound(n, found) - {p};
    assert p in Unfound(n, found);
  }

  /** The search so far: whatever is neither queued nor in `busy` has been multiplied by every
      generator, and nothing was found that a right-closed set could do without. */
  ghost predicate Searching(n: nat, generators: set<Perm>, found: set<Perm>, queue: seq<Perm>, busy: set<Perm>) {
    && Perms(n, found) && Perms(n, generators) && Identity(n) in found
    && (forall x :: x in queue ==> x in found)
    && (forall x :: x in found && x !in queue && x !in busy ==> Expanded(generators, x, n, found))
    && LeastRightClosed(n, generators, found)
  }

  /** `found` is the subgroup generated by `generators`: the least group containing them. */
  ghost predicate IsGenerated(n: nat, generators: set<Perm>, found: set<Perm>) {
    && IsGroup(n, found) && generators <= found
    && forall s :: IsGroup(n, s) && generators <= s ==> found <= s
  }

  method Generated(ghost n: nat, generators: set<Perm>) returns (found: set<Perm>)
    requires generators != {} && Perms(n, generators)
    ensures IsGenerated(n, generators, found)
  {
    hide Searching, IsGenerated, Unfound, Bijective;
    var first :| first in generators;
    var identity := Identity(|first|);
    found := {identity};
    var queue := [identity];
    StartSearch(n, generators);
    while queue != []
      invariant Searching(n, generators, found, queue, {})
      decreases |Unfound(n, found)|, |queue|
    {
      var current := queue[0];
      ghost var before, waiting := found, |queue|;
      TakeNext(n, generators, found, queue);
      queue := queue[1..];
      var remaining := generators;
      while remaining != {}
        invariant remaining <= generators
        invariant Searching(n, generators, found, queue, {current})
        invariant current in found && |current| == n
        invariant forall g :: g in generators && g !in remaining ==> Compose(current, g) in found
        invariant if found == before then |queue| < waiting
          else |Unfound(n, found)| < |Unfound(n, before)|
        decreases |remaining|
      {
        var g :| g in remaining;
        remaining := remaining - {g};
        var product := Compose(current, g);
        if product !in found {
          FewerLeft(n, found, product);
          FoundProduct(n, generators, found, queue, current, g);
          found := found + {product};
          queue := queue + [product];
        }
      }
      Finished(n, generators, found, queue, current);
    }
    SearchDone(n, generators, found);
  }

  lemma SearchDone(n: nat, generators: set<Perm>, found: set<Perm>)
    requires Searching(n, generators, found, [], {})
    ensures IsGenerated(n, generators, found)
  {
    ExpandedIsGroup(n, generators, found);
    GroupsAreRightClosed(n, generators, found);
  }

  lemma StartSearch(n: nat, generators: set<Perm>)
    requires Perms(n, generators)
    ensures Searching(n, generators, {Identity(n)}, [Identity(n)], {})
  {}

  lemma TakeNext(n: nat, generators: set<Perm>, found: set<Perm>, queue: seq<Perm>)
    requires queue != [] && Searching(n, generators, found, queue, {})
    ensures Searching(n, generators, found, queue[1..], {queue[0]})
    ensures queue[0] in found && |queue[0]| == n
  {
    assert queue == [queue[0]] + queue[1..];
  }

  lemma FoundProduct(
      n: nat, generators: set<Perm>, found: set<Perm>, queue: seq<Perm>, current: Perm, g: Perm)
    requires Searching(n, generators, found, queue, {current})
    requires current in found && |current| == |g| == n && g in generators
    ensures var product := Compose(current, g);
            Searching(n, generators, found + {product}, queue + [product], {current})
  {
    hide Bijective;
    var product := Compose(current, g);
    forall s | RightClosed(n, generators, s) ensures found + {product} <= s {
      assert found <= s;
    }
    forall x | x in found + {product} && x !in queue + [product] && x !in {current}
      ensures Expanded(generators, x, n, found + {product})
    {
      assert x in found && x !in queue by {
        assert product in queue + [product];
        assert forall y :: y in queue ==> y in queue + [product];
      }
      assert Expanded(generators, x, n, found);
    }
  }

  lemma Finished(n: nat, generators: set<Perm>, found: set<Perm>, queue: seq<Perm>, current: Perm)
    requires Searching(n, generators, found, queue, {current})
    requires current in found && |current| == n
    requires forall g :: g in generators ==> Compose(current, g) in found
    ensures Searching(n, generators, found, queue, {})
  {
    assert Expanded(generators, current, n, found);
  }

  /** A least set expanded by all generators is closed under composition, so it is a group. */
  lemma ExpandedIsGroup(n: nat, generators: set<Perm>, found: set<Perm>)
    requires Perms(n, found) && Perms(n, generators) && Identity(n) in found
    requires forall x :: x in found ==> Expanded(generators, x, n, found)
    requires LeastRightClosed(n, generators, found)
    ensures IsGroup(n, found)
  {
    forall a, b | a in found && b in found ensures Compose(a, b) in found {
      var s: set<Perm> := set x | x in found && Compose(a, x) in found;
      ComposeIdentity(a);
      forall x, g | x in s && g in generators ensures Compose(x, g) in s {
        assert Expanded(generators, x, n, found);
        assert Expanded(generators, Compose(a, x), n, found);
        ComposeAssociative(a, x, g);
      }
      assert RightClosed(n, generators, s);
      assert found <= s;
      assert b in s;
    }
    ClosedIsGroup(n, found);
  }

  lemma GroupsAreRightClosed(n: nat, generators: set<Perm>, found: set<Perm>)
    requires Perms(n, generators) && Identity(n) in found && Perms(n, found)
    requires forall x :: x in found ==> Expanded(generators, x, n, found)
    requires LeastRightClosed(n, generators, found)
    ensures generators <= found
    ensures forall s :: IsGroup(n, s) && generators <= s ==> found <= s
  {
    forall g | g in generators ensures g in found {
      assert Expanded(generators, Identity(n), n, found);
      ComposeIdentity(g);
    }
    forall s | IsGroup(n, s) && generators <= s ensures found <= s {
      assert RightClosed(n, generators, s);
    }
  }
}
