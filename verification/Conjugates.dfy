/** `conjugate`, and the normalizer and the core that `facts` counts. */
module Conjugates {
  import opened Finite
  import opened Permutations
  import opened Subgroups

  // ----- conjugation

  /** g * h * inverse(g) */
  function Conjugation(g: Perm): Perm -> Perm {
    (h: Perm) => if |h| == |g| then Compose(Compose(g, h), Inverse(g)) else h
  }

  function Conjugate(group: set<Perm>, g: Perm): set<Perm> {
    set h | h in group :: Conjugation(g)(h)
  }

  // The algebra of conjugation; below this group only these lemmas look inside it.

  lemma InverseTwice(g: Perm)
    ensures Inverse(Inverse(g)) == g
  {
    InverseCancels(Inverse(g));
    InverseCancels(g);
    CancelLeft(Inverse(g), Inverse(Inverse(g)), g);
  }

  lemma ConjugationAt(g: Perm, h: Perm, p: Perm, i: nat)
    requires i < |g| == |h| && p == Conjugation(g)(h)
    ensures |p| == |g| && Inverse(g)[i] < |g| && h[Inverse(g)[i]] < |g|
    ensures p[i] == g[h[Inverse(g)[i]]]
  {
    hide Bijective;
  }

  lemma ConjugationBack(g: Perm, h: Perm)
    requires |g| == |h|
    ensures |Conjugation(g)(h)| == |Conjugation(Inverse(g))(h)| == |g|
    ensures Conjugation(Inverse(g))(Conjugation(g)(h)) == h
    ensures Conjugation(g)(Conjugation(Inverse(g))(h)) == h
  {
    InverseTwice(g);
    ConjugationUndone(g, h);
    ConjugationUndone(Inverse(g), h);
  }

  lemma ConjugationUndone(g: Perm, h: Perm)
    requires |g| == |h|
    ensures |Conjugation(g)(h)| == |g|
    ensures Conjugation(Inverse(g))(Conjugation(g)(h)) == h
  {
    hide Bijective;
    ConjugationSize(g, h);
    ConjugationSize(Inverse(g), Conjugation(g)(h));
    hide Conjugation;
    var p := Conjugation(g)(h);
    var q := Conjugation(Inverse(g))(p);
    forall i | 0 <= i < |h| ensures q[i] == h[i] {
      UndoneAt(g, h, p, q, i);
    }
  }

  lemma ConjugationSize(g: Perm, h: Perm)
    ensures |Conjugation(g)(h)| == |h|
  {}

  lemma UndoneAt(g: Perm, h: Perm, p: Perm, q: Perm, i: nat)
    requires i < |g| == |h| == |p| == |q|
    requires p == Conjugation(g)(h) && q == Conjugation(Inverse(g))(p)
    ensures q[i] == h[i]
  {
    hide Bijective, Conjugation, Compose;
    InverseTwice(g);
    ConjugationAt(Inverse(g), p, q, i);
    ConjugationAt(g, h, p, g[i]);
  }

  lemma ConjugationComposes(a: Perm, b: Perm, h: Perm)
    requires |a| == |b| == |h|
    ensures Conjugation(Compose(a, b))(h) == Conjugation(a)(Conjugation(b)(h))
  {
    hide Bijective, Conjugation;
    var p := Conjugation(b)(h);
    var q, r := Conjugation(a)(p), Conjugation(Compose(a, b))(h);
    ConjugationSize(b, h);
    ConjugationSize(a, p);
    ConjugationSize(Compose(a, b), h);
    forall i | 0 <= i < |h| ensures r[i] == q[i] {
      ComposesAt(a, b, h, p, q, r, i);
    }
  }

  lemma ComposesAt(a: Perm, b: Perm, h: Perm, p: Perm, q: Perm, r: Perm, i: nat)
    requires i < |a| == |b| == |h| == |p| == |q| == |r|
    requires p == Conjugation(b)(h) && q == Conjugation(a)(p) && r == Conjugation(Compose(a, b))(h)
    ensures r[i] == q[i]
  {
    hide Bijective, Conjugation;
    InverseOfProduct(a, b);
    ConjugationAt(Compose(a, b), h, r, i);
    ConjugationAt(a, p, q, i);
    ConjugationAt(b, h, p, Inverse(a)[i]);
  }

  lemma InverseOfProduct(a: Perm, b: Perm)
    requires |a| == |b|
    ensures Inverse(Compose(a, b)) == Compose(Inverse(b), Inverse(a))
  {
    var c, d := Compose(a, b), Compose(Inverse(b), Inverse(a));
    assert Compose(c, d) == Identity(|a|);
    InverseCancels(c);
    CancelLeft(c, d, Inverse(c));
  }

  lemma ConjugationOfProduct(a: Perm, x: Perm, y: Perm)
    requires |a| == |x| == |y|
    ensures |Conjugation(a)(x)| == |Conjugation(a)(y)| == |a|
    ensures Conjugation(a)(Compose(x, y)) == Compose(Conjugation(a)(x), Conjugation(a)(y))
  {
    hide Bijective, Conjugation;
    var p, q, r := Conjugation(a)(x), Conjugation(a)(y), Conjugation(a)(Compose(x, y));
    ConjugationSize(a, x);
    ConjugationSize(a, y);
    ConjugationSize(a, Compose(x, y));
    forall i | 0 <= i < |a| ensures r[i] == Compose(p, q)[i] {
      ProductAt(a, x, y, p, q, r, i);
    }
  }

  lemma ProductAt(a: Perm, x: Perm, y: Perm, p: Perm, q: Perm, r: Perm, i: nat)
    requires i < |a| == |x| == |y| == |p| == |q| == |r|
    requires p == Conjugation(a)(x) && q == Conjugation(a)(y) && r == Conjugation(a)(Compose(x, y))
    ensures r[i] == Compose(p, q)[i]
  {
    hide Bijective, Conjugation;
    ConjugationAt(a, Compose(x, y), r, i);
    ConjugationAt(a, y, q, i);
    ConjugationAt(a, x, p, q[i]);
  }

  lemma ConjugationOfIdentity(a: Perm)
    ensures Conjugation(a)(Identity(|a|)) == Identity(|a|)
    ensures Conjugation(Identity(|a|))(a) == a
  {
    ComposeIdentity(a);
    InverseCancels(a);
    InverseCancels(Identity(|a|));
    ComposeIdentity(Inverse(Identity(|a|)));
  }

  lemma ConjugationInGroup(n: nat, k: set<Perm>, a: Perm, h: Perm)
    requires IsGroup(n, k) && a in k && h in k
    ensures Conjugation(a)(h) in k
  {
    hide Bijective;
  }

  /** Membership in a conjugate, by conjugating back. */
  lemma ConjugateMember(n: nat, k: set<Perm>, g: Perm, x: Perm)
    requires Perms(n, k) && |g| == n
    ensures x in Conjugate(k, g) <==> |x| == n && Conjugation(Inverse(g))(x) in k
  {
    hide Bijective, Conjugation;
    if x in Conjugate(k, g) {
      var h :| h in k && Conjugation(g)(h) == x;
      ConjugationBack(g, h);
    }
    if |x| == n { ConjugationBack(g, x); }
  }

  // ----- the normalizer

  function Normalizer(g: set<Perm>, k: set<Perm>): set<Perm> {
    set x | x in g && Conjugate(k, x) == k
  }

  lemma ConjugateComposes(n: nat, k: set<Perm>, a: Perm, b: Perm)
    requires Perms(n, k) && |a| == |b| == n
    ensures Conjugate(k, Compose(a, b)) == Conjugate(Conjugate(k, b), a)
  {
    hide Bijective, Conjugation;
    forall h | h in k ensures Conjugation(Compose(a, b))(h) == Conjugation(a)(Conjugation(b)(h)) {
      ConjugationComposes(a, b, h);
    }
  }

  /** A subgroup is stable under conjugation by its own elements. */
  lemma ConjugateByMember(n: nat, k: set<Perm>, a: Perm)
    requires IsGroup(n, k) && a in k
    ensures Conjugate(k, a) == k
  {
    hide Bijective, Conjugation;
    forall x ensures x in Conjugate(k, a) <==> x in k {
      ConjugateMember(n, k, a, x);
      if x in k {
        ConjugationInGroup(n, k, Inverse(a), x);
      }
      if x in Conjugate(k, a) {
        ConjugationBack(a, x);
        ConjugationInGroup(n, k, a, Conjugation(Inverse(a))(x));
      }
    }
  }

  lemma NormalizerIsSubgroup(n: nat, g: set<Perm>, k: set<Perm>)
    requires Subgroup(n, k, g)
    ensures Subgroup(n, Normalizer(g, k), g) && Subgroup(n, k, Normalizer(g, k))
  {
    hide Bijective, Conjugate;
    var s := Normalizer(g, k);
    forall a | a in k ensures a in s { ConjugateByMember(n, k, a); }
    forall a, b | a in s && b in s ensures Compose(a, b) in s {
      ConjugateComposes(n, k, a, b);
    }
    ClosedIsGroup(n, s);
  }

  /** x * y * inverse(x) lies in `k` exactly when y does. */
  ghost predicate CarriesOnto(x: Perm, k: set<Perm>) {
    forall y: Perm {:trigger y in k} :: |y| == |x| ==> (y in k <==> Compose(Compose(x, y), Inverse(x)) in k)
  }

  /** The normalizer holds the elements of the group whose conjugation carries `k` onto itself. */
  lemma NormalizerMember(n: nat, g: set<Perm>, k: set<Perm>, x: Perm)
    requires Subgroup(n, k, g) && x in g
    ensures x in Normalizer(g, k) <==> CarriesOnto(x, k)
  {
    hide Bijective, Conjugation, Compose, Inverse, CarriesOnto, Conjugate;
    if x in Normalizer(g, k) { StableIsCarried(n, k, x); }
    if CarriesOnto(x, k) { CarriedIsStable(n, k, x); }
  }

  lemma StableIsCarried(n: nat, k: set<Perm>, x: Perm)
    requires Perms(n, k) && |x| == n && Conjugate(k, x) == k
    ensures CarriesOnto(x, k)
  {
    hide Bijective, Conjugation, Conjugate;
    forall y: Perm | |y| == |x| ensures y in k <==> Compose(Compose(x, y), Inverse(x)) in k {
      ConjugationIs(x, y);
      StaysInside(n, k, x, y);
    }
  }

  lemma CarriedIsStable(n: nat, k: set<Perm>, x: Perm)
    requires Perms(n, k) && |x| == n && CarriesOnto(x, k)
    ensures Conjugate(k, x) == k
  {
    hide Bijective, Conjugation, Conjugate, Compose, Inverse;
    forall y ensures y in Conjugate(k, x) <==> y in k {
      ConjugateMember(n, k, x, y);
      if |y| == n {
        var z := Conjugation(Inverse(x))(y);
        ConjugationBack(x, y);
        ConjugationIs(x, z);
        assert z in k <==> Compose(Compose(x, z), Inverse(x)) in k;
      }
    }
  }

  lemma ConjugationIs(x: Perm, y: Perm)
    requires |x| == |y|
    ensures Conjugation(x)(y) == Compose(Compose(x, y), Inverse(x))
  {}

  lemma StaysInside(n: nat, k: set<Perm>, x: Perm, y: Perm)
    requires Perms(n, k) && |x| == |y| == n && Conjugate(k, x) == k
    ensures y in k <==> Conjugation(x)(y) in k
  {
    hide Bijective, Conjugation;
    ConjugationSize(x, y);
    ConjugateMember(n, k, x, Conjugation(x)(y));
    ConjugationBack(x, y);
  }

  /** The normalizer is the largest subgroup of the group in which `k` is normal. */
  lemma NormalizerIsLargest(n: nat, g: set<Perm>, k: set<Perm>)
    requires Subgroup(n, k, g)
    ensures NormalIn(n, k, Normalizer(g, k)) && Subgroup(n, Normalizer(g, k), g)
    ensures forall h :: Subgroup(n, h, g) && NormalIn(n, k, h) ==> h <= Normalizer(g, k)
  {
    hide Bijective, Conjugation, Conjugate;
    NormalizerIsSubgroup(n, g, k);
    forall a, x | a in Normalizer(g, k) && x in k ensures Conjugation(a)(x) in k {
      StaysInside(n, k, a, x);
    }
    forall h | Subgroup(n, h, g) && NormalIn(n, k, h) ensures h <= Normalizer(g, k) {
      forall a | a in h ensures Conjugate(k, a) == k { NormalConjugate(n, k, h, a); }
    }
  }

  lemma NormalConjugate(n: nat, k: set<Perm>, h: set<Perm>, a: Perm)
    requires NormalIn(n, k, h) && a in h
    ensures Conjugate(k, a) == k
  {
    hide Bijective, Conjugation, Conjugate;
    forall x ensures x in Conjugate(k, a) <==> x in k {
      ConjugateMember(n, k, a, x);
      if |x| == n { ConjugationBack(a, x); }
      assert Inverse(a) in h;
    }
  }

  // ----- the core

  /** What is left after intersecting `k` with its conjugates by the elements of `over`. */
  ghost function Survivors(k: set<Perm>, over: set<Perm>): set<Perm> {
    set x | x in k && forall a :: a in over ==> x in Conjugate(k, a)
  }

  /** The intersection of all conjugates of `k` by elements of `g`. */
  ghost function Core(g: set<Perm>, k: set<Perm>): set<Perm> { Survivors(k, g) }

  lemma IdentitySurvives(n: nat, k: set<Perm>, over: set<Perm>)
    requires IsGroup(n, k) && Perms(n, over)
    ensures Identity(n) in Survivors(k, over)
  {
    hide Bijective, Conjugation;
    forall a | a in over ensures Identity(n) in Conjugate(k, a) {
      ConjugationOfIdentity(a);
    }
  }

  method CoreOf(ghost n: nat, group: set<Perm>, k: set<Perm>) returns (core: set<Perm>)
    requires Subgroup(n, k, group)
    ensures core == Core(group, k)
  {
    hide Bijective, Conjugate;
    core := k;
    var remaining := group;
    while remaining != {}
      invariant remaining <= group
      invariant core == Survivors(k, group - remaining)
      decreases |remaining|
    {
      var g :| g in remaining;
      assert group - (remaining - {g}) == (group - remaining) + {g};
      remaining := remaining - {g};
      core := core * Conjugate(k, g);
      if |core| == 1 {
        assert core == Survivors(k, group - remaining);
        SingletonSurvives(n, group, k, group - remaining);
        return;
      }
    }
    assert group - remaining == group;
  }

  /** Once one element is left it is the identity, and no further conjugate can remove it. */
  lemma SingletonSurvives(n: nat, group: set<Perm>, k: set<Perm>, over: set<Perm>)
    requires Subgroup(n, k, group) && over <= group && |Survivors(k, over)| == 1
    ensures Survivors(k, over) == Core(group, k)
  {
    hide Bijective, Conjugate;
    IdentitySurvives(n, k, group);
    IdentitySurvives(n, k, over);
    SubsetSize({Identity(n)}, Survivors(k, over));
    SubsetSize(Core(group, k), Survivors(k, over));
    SubsetSize({Identity(n)}, Core(group, k));
  }

  ghost predicate NormalIn(n: nat, h: set<Perm>, g: set<Perm>) {
    Subgroup(n, h, g) && forall a, x :: a in g && x in h ==> Conjugation(a)(x) in h
  }

  ghost predicate ConjugatesIn(g: set<Perm>, x: Perm, k: set<Perm>) {
    forall a :: a in g ==> Conjugation(a)(x) in k
  }

  lemma CoreMember(n: nat, g: set<Perm>, k: set<Perm>, x: Perm)
    requires Subgroup(n, k, g) && |x| == n
    ensures x in Core(g, k) <==> ConjugatesIn(g, x, k)
  {
    hide Bijective, Conjugation, Conjugate;
    forall a | a in g && x in Core(g, k) ensures Conjugation(a)(x) in k {
      InverseTwice(a);
      ConjugateMember(n, k, Inverse(a), x);
    }
    if ConjugatesIn(g, x, k) {
      forall a | a in g ensures x in Conjugate(k, a) {
        ConjugateMember(n, k, a, x);
      }
      ConjugationOfIdentity(x);
      assert Conjugation(Identity(n))(x) in k;
    }
  }

  lemma CoreIsStable(n: nat, g: set<Perm>, k: set<Perm>, a: Perm, x: Perm)
    requires Subgroup(n, k, g) && a in g && x in Core(g, k)
    ensures Conjugation(a)(x) in Core(g, k)
  {
    hide Bijective, Conjugation, Core;
    assert |x| == n by { CorePerms(n, g, k); }
    var y := Conjugation(a)(x);
    ConjugationBack(a, x);
    CoreMember(n, g, k, x);
    CoreMember(n, g, k, y);
    forall b | b in g ensures Conjugation(b)(y) in k {
      ConjugationComposes(b, a, x);
    }
  }

  lemma CorePerms(n: nat, g: set<Perm>, k: set<Perm>)
    requires Subgroup(n, k, g)
    ensures Perms(n, Core(g, k)) && Core(g, k) <= k
  {}

  lemma CoreIsClosed(n: nat, g: set<Perm>, k: set<Perm>, x: Perm, y: Perm)
    requires Subgroup(n, k, g) && x in Core(g, k) && y in Core(g, k)
    requires |x| == |y| == n
    ensures Compose(x, y) in Core(g, k)
  {
    hide Bijective, Core, ConjugatesIn;
    CoreMember(n, g, k, x);
    CoreMember(n, g, k, y);
    CoreMember(n, g, k, Compose(x, y));
    ConjugatesInProduct(n, g, k, x, y);
  }

  lemma ConjugatesInProduct(n: nat, g: set<Perm>, k: set<Perm>, x: Perm, y: Perm)
    requires Perms(n, g) && IsGroup(n, k) && |x| == |y| == n
    requires ConjugatesIn(g, x, k) && ConjugatesIn(g, y, k)
    ensures ConjugatesIn(g, Compose(x, y), k)
  {
    hide Bijective, Conjugation;
    forall a | a in g ensures Conjugation(a)(Compose(x, y)) in k {
      ProductStaysIn(n, k, a, x, y);
    }
  }

  lemma ProductStaysIn(n: nat, k: set<Perm>, a: Perm, x: Perm, y: Perm)
    requires IsGroup(n, k) && |a| == |x| == |y| == n
    requires Conjugation(a)(x) in k && Conjugation(a)(y) in k
    ensures Conjugation(a)(Compose(x, y)) in k
  {
    hide Bijective, Conjugation;
    ConjugationOfProduct(a, x, y);
  }

  lemma CoreIsSubgroup(n: nat, g: set<Perm>, k: set<Perm>)
    requires Subgroup(n, k, g)
    ensures Subgroup(n, Core(g, k), g)
  {
    hide Bijective, Survivors;
    CorePerms(n, g, k);
    IdentitySurvives(n, k, g);
    forall x, y | x in Core(g, k) && y in Core(g, k) ensures Compose(x, y) in Core(g, k) {
      CoreIsClosed(n, g, k, x, y);
    }
    ClosedIsGroup(n, Core(g, k));
  }

  /** The core is the largest normal subgroup of the group inside `k`. */
  lemma CoreIsLargestNormal(n: nat, g: set<Perm>, k: set<Perm>)
    requires Subgroup(n, k, g)
    ensures NormalIn(n, Core(g, k), g) && Core(g, k) <= k
    ensures forall h :: NormalIn(n, h, g) && h <= k ==> h <= Core(g, k)
  {
    hide Bijective, Conjugation, Core;
    CoreIsSubgroup(n, g, k);
    CorePerms(n, g, k);
    forall a, x | a in g && x in Core(g, k) ensures Conjugation(a)(x) in Core(g, k) {
      CoreIsStable(n, g, k, a, x);
    }
    forall h | NormalIn(n, h, g) && h <= k ensures h <= Core(g, k) {
      forall x | x in h ensures x in Core(g, k) { CoreMember(n, g, k, x); }
    }
  }
}
