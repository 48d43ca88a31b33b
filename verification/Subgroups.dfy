/** Cosets and Lagrange's theorem: what makes the integer divisions of group orders exact. */
module Subgroups {
  import opened Finite
  import opened Permutations

  ghost predicate Subgroup(n: nat, h: set<Perm>, g: set<Perm>) {
    IsGroup(n, h) && IsGroup(n, g) && h <= g
  }

  // ----- Lagrange

  ghost function LeftCoset(a: Perm, h: set<Perm>): set<Perm> {
    Image(LeftMultiply(a), h)
  }

  ghost function CosetBy(h: set<Perm>): Perm -> set<Perm> {
    a => LeftCoset(a, h)
  }

  ghost function Cosets(g: set<Perm>, h: set<Perm>): set<set<Perm>> {
    Image(CosetBy(h), g)
  }

  /** `b` lies in the coset of `a` exactly when inverse(a) * b lies in the subgroup. */
  lemma CosetMember(n: nat, h: set<Perm>, a: Perm, b: Perm)
    requires IsGroup(n, h) && |a| == n && |b| == n
    ensures b in LeftCoset(a, h) <==> Compose(Inverse(a), b) in h
  {
    hide Bijective;
    var c := Compose(Inverse(a), b);
    InverseCancels(a);
    ComposeAssociative(a, Inverse(a), b);
    ComposeIdentity(b);
    if c in h {
      assert LeftMultiply(a)(c) == b;
    }
    if b in LeftCoset(a, h) {
      var x :| x in h && LeftMultiply(a)(x) == b;
      ComposeAssociative(Inverse(a), a, x);
      ComposeIdentity(x);
    }
  }

  lemma CosetPerms(n: nat, h: set<Perm>, a: Perm)
    requires Perms(n, h) && |a| == n
    ensures Perms(n, LeftCoset(a, h))
  {
    hide Bijective;
    forall b | b in LeftCoset(a, h) ensures |b| == n {
      var x :| x in h && LeftMultiply(a)(x) == b;
    }
  }

  lemma QuotientChain(a: Perm, b: Perm, x: Perm)
    requires |a| == |b| == |x|
    ensures Compose(Compose(Inverse(a), b), Compose(Inverse(b), x)) == Compose(Inverse(a), x)
  {}

  lemma CosetShift(n: nat, h: set<Perm>, a: Perm, b: Perm, x: Perm)
    requires IsGroup(n, h) && |a| == n && |b| == n && b in LeftCoset(a, h)
    ensures x in LeftCoset(b, h) <==> x in LeftCoset(a, h)
  {
    hide Bijective, LeftCoset;
    CosetPerms(n, h, a);
    CosetPerms(n, h, b);
    if |x| == n {
      CosetMember(n, h, a, b);
      CosetMember(n, h, a, x);
      CosetMember(n, h, b, x);
      QuotientChain(a, b, x);
      QuotientChain(b, a, x);
      InverseOfQuotient(a, b);
    }
  }

  lemma InverseOfQuotient(a: Perm, b: Perm)
    requires |a| == |b|
    ensures Inverse(Compose(Inverse(a), b)) == Compose(Inverse(b), a)
  {
    var c, d := Compose(Inverse(a), b), Compose(Inverse(b), a);
    assert Compose(c, d) == Identity(|a|);
    InverseCancels(c);
    CancelLeft(c, d, Inverse(c));
  }

  /** The elements with the coset of `a` are exactly the members of that coset. */
  lemma CosetIsFiber(n: nat, g: set<Perm>, h: set<Perm>, a: Perm)
    requires Subgroup(n, h, g) && a in g
    ensures Fiber(g, CosetBy(h), CosetBy(h)(a)) == LeftCoset(a, h)
  {
    hide Bijective;
    forall b ensures b in LeftCoset(a, h) <==> b in g && CosetBy(h)(b) == CosetBy(h)(a) {
      if b in LeftCoset(a, h) {
        var x :| x in h && LeftMultiply(a)(x) == b;
        assert b == Compose(a, x);
        forall y ensures y in LeftCoset(b, h) <==> y in LeftCoset(a, h) { CosetShift(n, h, a, b, y); }
      } else if b in g {
        CosetMember(n, h, b, b);
        InverseCancels(b);
        assert b in CosetBy(h)(b);
      }
    }
  }

  lemma CosetSize(n: nat, h: set<Perm>, a: Perm)
    requires Perms(n, h) && |a| == n
    ensures |LeftCoset(a, h)| == |h|
  {
    LeftMultiplyInjective(n, a, h);
    ImageSize(LeftMultiply(a), h);
  }

  /** Lagrange: the order of a subgroup divides the order of the group, and the quotient is the
      number of left cosets. */
  lemma Lagrange(n: nat, g: set<Perm>, h: set<Perm>)
    requires Subgroup(n, h, g)
    ensures |h| > 0
    ensures |g| == |Cosets(g, h)| * |h|
    ensures |g| % |h| == 0 && |g| / |h| == |Cosets(g, h)|
  {
    hide Bijective;
    forall a | a in g ensures |Fiber(g, CosetBy(h), CosetBy(h)(a))| == |h| {
      CosetIsFiber(n, g, h, a);
      CosetSize(n, h, a);
    }
    EqualFibers(g, CosetBy(h), |h|);
    assert Identity(n) in h;
    DivideExactly(|g|, |Cosets(g, h)|, |h|);
  }

  lemma DivideExactly(x: nat, q: nat, d: nat)
    requires x == q * d && d > 0
    ensures x % d == 0 && x / d == q
  {
    QuotientBounds(q - x / d, x % d, d);
  }

  lemma QuotientBounds(e: int, r: nat, d: nat)
    requires e * d == r && r < d
    ensures e == 0
  {}

  // ----- subgroups that `facts` counts

  lemma IntersectionIsSubgroup(n: nat, g: set<Perm>, h: set<Perm>, k: set<Perm>)
    requires Subgroup(n, h, g) && Subgroup(n, k, g)
    ensures Subgroup(n, h * k, g)
  {}

  predicate Fixes(p: Perm, points: seq<nat>) {
    forall x :: x in points && x < |p| ==> p[x] == x
  }

  function PointwiseStabilizer(k: set<Perm>, points: seq<nat>): set<Perm> {
    set p | p in k && Fixes(p, points)
  }

  lemma StabilizerIsSubgroup(n: nat, k: set<Perm>, points: seq<nat>)
    requires IsGroup(n, k)
    ensures Subgroup(n, PointwiseStabilizer(k, points), k)
  {
    hide Bijective;
    var s := PointwiseStabilizer(k, points);
    forall a, b | a in s && b in s ensures Compose(a, b) in s {
      assert Compose(a, b) in k;
    }
    ClosedIsGroup(n, s);
  }

  // ----- the action on some points

  /** What a permutation does to the listed points. */
  function Restriction(p: Perm, points: seq<nat>): (r: seq<nat>)
    ensures |r| == |points| && forall i :: 0 <= i < |r| ==> r[i] == Entry(p)(points[i])
  {
    seq(|points|, i requires 0 <= i < |points| => if points[i] < |p| then p[points[i]] else points[i])
  }

  function RestrictTo(points: seq<nat>): Perm -> seq<nat> {
    (p: Perm) => Restriction(p, points)
  }

  /** The distinct permutations the group makes of the listed points. */
  ghost function ActionOn(k: set<Perm>, points: seq<nat>): set<seq<nat>> {
    Image(RestrictTo(points), k)
  }

  lemma RestrictionsAgree(p: Perm, q: Perm, points: seq<nat>)
    requires |p| == |q|
    ensures RestrictTo(points)(p) == RestrictTo(points)(q) <==> Fixes(Compose(Inverse(p), q), points)
  {
    hide Bijective;
    var a, b := RestrictTo(points)(p), RestrictTo(points)(q);
    forall i | 0 <= i < |points|
      ensures a[i] == b[i] <==> (points[i] < |p| ==> Compose(Inverse(p), q)[points[i]] == points[i])
    {
      if points[i] < |p| { SamePreimage(p, q, points[i]); }
    }
    if Fixes(Compose(Inverse(p), q), points) {
      assert forall i :: 0 <= i < |points| ==> points[i] in points;
      assert a == b;
    }
  }

  lemma SamePreimage(p: Perm, q: Perm, x: nat)
    requires |p| == |q| && x < |p|
    ensures p[x] == q[x] <==> Compose(Inverse(p), q)[x] == x
  {}

  /** The elements that act on the points as `a` does are the coset of `a` by the stabiliser. */
  lemma ActionFiber(n: nat, k: set<Perm>, points: seq<nat>, a: Perm)
    requires IsGroup(n, k) && a in k
    ensures Fiber(k, RestrictTo(points), RestrictTo(points)(a)) == LeftCoset(a, PointwiseStabilizer(k, points))
  {
    hide Bijective, Fixes, RestrictTo, LeftCoset;
    var s := PointwiseStabilizer(k, points);
    StabilizerIsSubgroup(n, k, points);
    CosetPerms(n, s, a);
    CosetWithin(n, k, s, a);
    forall b ensures b in LeftCoset(a, s) <==> b in k && RestrictTo(points)(b) == RestrictTo(points)(a) {
      if b in k {
        CosetMember(n, s, a, b);
        RestrictionsAgree(a, b, points);
        assert Compose(Inverse(a), b) in k;
      }
    }
  }

  lemma CosetWithin(n: nat, g: set<Perm>, h: set<Perm>, a: Perm)
    requires Subgroup(n, h, g) && a in g
    ensures LeftCoset(a, h) <= g
  {
    hide Bijective;
    forall b | b in LeftCoset(a, h) ensures b in g {
      var x :| x in h && LeftMultiply(a)(x) == b;
      assert Compose(a, x) in g;
    }
  }

  /** Dividing by the order of the pointwise stabiliser gives the order of the action. */
  lemma ActionOrder(n: nat, k: set<Perm>, points: seq<nat>)
    requires IsGroup(n, k)
    ensures var s := PointwiseStabilizer(k, points);
            |s| > 0 && |k| == |ActionOn(k, points)| * |s| && |k| / |s| == |ActionOn(k, points)|
  {
    hide Bijective, Fixes, RestrictTo, LeftCoset, Fiber;
    var s := PointwiseStabilizer(k, points);
    StabilizerIsSubgroup(n, k, points);
    Lagrange(n, k, s);
    forall a | a in k ensures |Fiber(k, RestrictTo(points), RestrictTo(points)(a))| == |s| {
      ActionFiber(n, k, points, a);
      CosetSize(n, s, a);
    }
    EqualFibers(k, RestrictTo(points), |s|);
    DivideExactly(|k|, |ActionOn(k, points)|, |s|);
  }
}
