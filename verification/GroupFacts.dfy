/** `facts`: every order, degree and orbit it reports is the algebraic quantity it is named for. */
module GroupFacts {
  import opened Permutations
  import opened Subgroups
  import opened Conjugates
  import opened PointOrbits

  // ----- the record of facts

  datatype Facts = Facts(
    groupOrder: nat,
    hOrder: nat,
    kOrder: nat,
    intersectionOrder: nat,
    generatedOrder: nat,
    hDegree: nat,
    kDegree: nat,
    intersectionDegree: nat,
    kOrbits: seq<seq<nat>>,
    factorDegrees: seq<nat>,
    closureOrders: seq<nat>,
    coreOrder: nat,
    normalizerOrder: nat,
    automorphismOrder: nat)

  /** `q` is the exact quotient |g| / |h|: the number of left cosets of h in g. */
  ghost predicate IndexOfSubgroup(q: nat, g: set<Perm>, h: set<Perm>) {
    |h| > 0 && |g| == q * |h| && q == |Cosets(g, h)|
  }

  /** `len(g) // len(h)` is exact. */
  function Quotient(ghost n: nat, g: set<Perm>, h: set<Perm>): (q: nat)
    requires Subgroup(n, h, g)
    ensures IndexOfSubgroup(q, g, h)
  {
    Lagrange(n, g, h);
    |g| / |h|
  }

  function StabilizerQuotient(ghost n: nat, k: set<Perm>, orbit: seq<nat>): (q: nat)
    requires IsGroup(n, k)
    ensures IndexOfSubgroup(q, k, PointwiseStabilizer(k, orbit))
    ensures q == |ActionOn(k, orbit)|
  {
    StabilizerIsSubgroup(n, k, orbit);
    ActionOrder(n, k, orbit);
    Quotient(n, k, PointwiseStabilizer(k, orbit))
  }

  /** `order` is the order of the subgroup generated by `s`: of the least group containing it. */
  ghost predicate GeneratesOrder(n: nat, s: set<Perm>, order: nat) {
    exists found :: IsGenerated(n, s, found) && |found| == order
  }

  lemma UnionGenerates(n: nat, group: set<Perm>, h: set<Perm>, k: set<Perm>)
    requires Subgroup(n, h, group) && Subgroup(n, k, group)
    ensures IsGroup(n, h) && IsGroup(n, k) && h + k != {} && Perms(n, h + k)
  {}

  lemma OrderOfGenerated(n: nat, s: set<Perm>, found: set<Perm>)
    requires IsGenerated(n, s, found)
    ensures GeneratesOrder(n, s, |found|)
  {}

  function OneBased(orbits: seq<seq<nat>>): (r: seq<seq<nat>>)
    ensures |r| == |orbits|
    ensures forall i :: 0 <= i < |r| ==> |r[i]| == |orbits[i]|
    ensures forall i, j :: 0 <= i < |r| && 0 <= j < |r[i]| ==> r[i][j] == orbits[i][j] + 1
  {
    seq(|orbits|, i requires 0 <= i < |orbits| =>
      seq(|orbits[i]|, j requires 0 <= j < |orbits[i]| => orbits[i][j] + 1))
  }

  function Sizes(orbits: seq<seq<nat>>): (r: seq<nat>)
    ensures |r| == |orbits| && forall i :: 0 <= i < |r| ==> r[i] == |orbits[i]|
  {
    seq(|orbits|, i requires 0 <= i < |orbits| => |orbits[i]|)
  }

  function ClosureOrders(ghost n: nat, k: set<Perm>, orbits: seq<seq<nat>>): (r: seq<nat>)
    requires IsGroup(n, k)
    ensures |r| == |orbits|
    ensures forall i :: 0 <= i < |r| ==> r[i] == |ActionOn(k, orbits[i])|
    ensures forall i :: 0 <= i < |r| ==> IndexOfSubgroup(r[i], k, PointwiseStabilizer(k, orbits[i]))
  {
    hide *;
    seq(|orbits|, i requires 0 <= i < |orbits| => StabilizerQuotient(n, k, orbits[i]))
  }

  method FactsOf(ghost n: nat, group: set<Perm>, h: set<Perm>, k: set<Perm>)
      returns (r: Facts, ghost orbits: seq<seq<nat>>)
    requires Subgroup(n, h, group) && Subgroup(n, k, group)
    ensures r.groupOrder == |group| && r.hOrder == |h| && r.kOrder == |k| && r.intersectionOrder == |h * k|
    ensures GeneratesOrder(n, h + k, r.generatedOrder)
    ensures IndexOfSubgroup(r.hDegree, group, h) && IndexOfSubgroup(r.kDegree, group, k)
    ensures IndexOfSubgroup(r.intersectionDegree, group, h * k)
    ensures OrbitPartition(n, k, orbits)
    ensures r.kOrbits == OneBased(orbits) && r.factorDegrees == Sizes(orbits)
    ensures |r.closureOrders| == |orbits|
    ensures forall i :: 0 <= i < |orbits| ==> r.closureOrders[i] == |ActionOn(k, orbits[i])|
    ensures forall i :: 0 <= i < |orbits| ==>
      IndexOfSubgroup(r.closureOrders[i], k, PointwiseStabilizer(k, orbits[i]))
    ensures r.coreOrder == |Core(group, k)|
    ensures r.normalizerOrder == |Normalizer(group, k)|
    ensures IndexOfSubgroup(r.automorphismOrder, Normalizer(group, k), k)
  {
    hide *;
    UnionGenerates(n, group, h, k);
    var kOrbits := Orbits(n, k);
    orbits := kOrbits;
    var normalizer := Normalizer(group, k);
    NormalizerIsSubgroup(n, group, k);
    var core := CoreOf(n, group, k);
    var generated := Generated(n, h + k);
    assert GeneratesOrder(n, h + k, |generated|) by { OrderOfGenerated(n, h + k, generated); }
    IntersectionIsSubgroup(n, group, h, k);
    r := Facts(|group|, |h|, |k|, |h * k|, |generated|,
      Quotient(n, group, h), Quotient(n, group, k), Quotient(n, group, h * k),
      OneBased(kOrbits), Sizes(kOrbits), ClosureOrders(n, k, kOrbits),
      |core|, |normalizer|, Quotient(n, normalizer, k));
  }
}
