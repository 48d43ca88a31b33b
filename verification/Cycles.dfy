/** `cycles`: the cycle type of a permutation, and its invariance under conjugation. */
module Cycles {
  import opened Prelude
  import opened Finite
  import opened Sorting
  import opened Permutations
  import opened Conjugates

  // ----- cycles, without reference to the loop

  ghost function Iterate(g: Perm, x: nat, i: nat): (y: nat)
    requires x < |g|
    ensures y < |g|
  {
    if i == 0 then x else g[Iterate(g, x, i - 1)]
  }

  ghost function CycleOf(g: Perm, x: nat): set<nat>
    requires x < |g|
  {
    set y: nat | y in Below(|g|) && exists i: nat :: Iterate(g, x, i) == y
  }

  ghost function CycleBy(g: Perm): nat -> set<nat> {
    (x: nat) => if x < |g| then CycleOf(g, x) else {}
  }

  /** The set of all cycles. */
  ghost function CycleSet(g: Perm): set<set<nat>> {
    Image(CycleBy(g), Below(|g|))
  }

  ghost function CyclesOfSize(g: Perm, size: nat): set<set<nat>> {
    set c | c in CycleSet(g) && |c| == size
  }

  function BySize(): nat -> real { (n: nat) => n as real }

  /** `sizes` lists, in order, the size of every cycle. */
  ghost predicate IsCycleType(g: Perm, sizes: seq<nat>) {
    Ordered(sizes, BySize()) && forall n: nat :: multiset(sizes)[n] == |CyclesOfSize(g, n)|
  }

  // ----- the walk around one cycle

  lemma {:induction false} IterateAdds(g: Perm, x: nat, i: nat, j: nat)
    requires x < |g|
    ensures Iterate(g, Iterate(g, x, i), j) == Iterate(g, x, i + j)
  {
    if j > 0 {
      IterateAdds(g, x, i, j - 1);
    }
  }

  /** Walking is injective, so a first repetition is a return to the start. */
  lemma {:induction false} IterateCancels(g: Perm, x: nat, i: nat, j: nat)
    requires x < |g| && i <= j && Iterate(g, x, i) == Iterate(g, x, j)
    ensures Iterate(g, x, j - i) == x
  {
    if i > 0 {
      IterateCancels(g, x, i - 1, j - 1);
    }
  }

  ghost predicate Distinct(g: Perm, x: nat, size: nat)
    requires x < |g|
  {
    forall i, j :: 0 <= i < j < size ==> Iterate(g, x, i) != Iterate(g, x, j)
  }

  ghost function Visited(g: Perm, x: nat, size: nat): set<nat>
    requires x < |g|
  {
    set i | 0 <= i < size :: Iterate(g, x, i)
  }

  lemma {:induction false} VisitedGrows(g: Perm, x: nat, size: nat)
    requires x < |g|
    ensures Visited(g, x, size + 1) == Visited(g, x, size) + {Iterate(g, x, size)}
  {}

  lemma {:induction false} IterateMultiple(g: Perm, x: nat, size: nat, q: nat, r: nat)
    requires x < |g| && Iterate(g, x, size) == x
    ensures Iterate(g, x, q * size + r) == Iterate(g, x, r)
  {
    hide Iterate;
    if q > 0 {
      IterateMultiple(g, x, size, q - 1, r);
      IterateAdds(g, x, size, (q - 1) * size + r);
      assert size + ((q - 1) * size + r) == q * size + r;
    }
  }

  /** A walk that is back at its start has visited the whole cycle. */
  lemma ClosedWalkIsCycle(g: Perm, x: nat, size: nat)
    requires x < |g| && size > 0 && Iterate(g, x, size) == x
    ensures Visited(g, x, size) == CycleOf(g, x)
  {
    hide Iterate;
    BelowMembers(|g|);
    forall y | y in CycleOf(g, x) ensures y in Visited(g, x, size) {
      var i: nat :| Iterate(g, x, i) == y;
      var r := ReduceSteps(g, x, size, i);
    }
  }

  lemma ReduceSteps(g: Perm, x: nat, size: nat, i: nat) returns (r: nat)
    requires x < |g| && size > 0 && Iterate(g, x, size) == x
    ensures r < size && Iterate(g, x, r) == Iterate(g, x, i)
    decreases i
  {
    hide Iterate;
    if i < size { return i; }
    IterateAdds(g, x, size, i - size);
    r := ReduceSteps(g, x, size, i - size);
  }

  // ----- cycles partition the points

  lemma CycleContains(g: Perm, x: nat)
    requires x < |g|
    ensures x in CycleOf(g, x)
  {
    BelowMembers(|g|);
    assert Iterate(g, x, 0) == x;
  }

  lemma {:induction false} DistinctSize(g: Perm, x: nat, size: nat)
    requires x < |g| && Distinct(g, x, size)
    ensures |Visited(g, x, size)| == size
  {
    hide *;
    if size > 0 {
      DistinctEarlier(g, x, size - 1);
      DistinctSize(g, x, size - 1);
      VisitedGrows(g, x, size - 1);
      assert Visited(g, x, size - 1) !! {Iterate(g, x, size - 1)};
    } else {
      WalkStarts(g, x);
    }
  }

  lemma DistinctEarlier(g: Perm, x: nat, size: nat)
    requires x < |g| && Distinct(g, x, size + 1)
    ensures Distinct(g, x, size) && Iterate(g, x, size) !in Visited(g, x, size)
  {
    hide Iterate;
  }

  /** Some positive number of steps leads back, by the pigeonhole principle. */
  lemma Period(g: Perm, x: nat) returns (p: nat)
    requires x < |g|
    ensures p > 0 && Iterate(g, x, p) == x
  {
    hide Iterate;
    SomeRepetition(g, x);
    var i, j :| 0 <= i < j < |g| + 1 && Iterate(g, x, i) == Iterate(g, x, j);
    IterateCancels(g, x, i, j);
    p := j - i;
  }

  lemma SomeRepetition(g: Perm, x: nat)
    requires x < |g|
    ensures !Distinct(g, x, |g| + 1)
  {
    hide Iterate;
    if Distinct(g, x, |g| + 1) {
      DistinctSize(g, x, |g| + 1);
      BelowMembers(|g|);
      SubsetSize(Visited(g, x, |g| + 1), Below(|g|));
    }
  }

  lemma CycleForward(g: Perm, x: nat, y: nat)
    requires x < |g| && y in CycleOf(g, x)
    ensures y < |g| && CycleOf(g, y) <= CycleOf(g, x)
  {
    BelowMembers(|g|);
    var i: nat :| Iterate(g, x, i) == y;
    forall z | z in CycleOf(g, y) ensures z in CycleOf(g, x) {
      var j: nat :| Iterate(g, y, j) == z;
      IterateAdds(g, x, i, j);
    }
  }

  /** Cycles are equal as soon as they meet. */
  lemma CyclesAgree(g: Perm, x: nat, y: nat)
    requires x < |g| && y in CycleOf(g, x)
    ensures y < |g| && CycleOf(g, y) == CycleOf(g, x)
  {
    CycleForward(g, x, y);
    CycleBack(g, x, y);
    CycleForward(g, y, x);
  }

  /** From any point of a cycle, going on to the next multiple of the period leads back. */
  lemma CycleBack(g: Perm, x: nat, y: nat)
    requires x < |g| && y in CycleOf(g, x)
    ensures y < |g| && x in CycleOf(g, y)
  {
    hide Iterate;
    BelowMembers(|g|);
    var p := Period(g, x);
    var i: nat :| Iterate(g, x, i) == y;
    var ahead := (i + 1) * p;
    assert ahead >= i + 1;
    IterateAdds(g, x, i, ahead - i);
    IterateMultiple(g, x, p, i + 1, 0);
    WalkStarts(g, x);
    assert Iterate(g, y, ahead - i) == x;
  }

  // ----- the loop

  /** What has been listed once the points outside `unseen` are done. */
  ghost predicate Listing(g: Perm, unseen: set<nat>, sizes: seq<nat>) {
    && unseen <= Below(|g|)
    && (forall x :: x in unseen ==> CycleBy(g)(x) <= unseen)
    && (forall n: nat :: multiset(sizes)[n] == |OfSize(Image(CycleBy(g), Below(|g|) - unseen), n)|)
    && SumNats(sizes) == |Below(|g|) - unseen|
  }

  ghost function OfSize(cycles: set<set<nat>>, n: nat): set<set<nat>> {
    set c | c in cycles && |c| == n
  }

  /** The sizes found are those of the disjoint cycles, and they add up to the degree. */
  method CycleTypeOf(g: Perm) returns (sizes: seq<nat>)
    ensures IsCycleType(g, sizes) && SumNats(sizes) == |g|
  {
    hide *;
    var unseen: set<nat> := Below(|g|);
    var found: seq<nat> := [];
    ListingStarts(g);
    while unseen != {}
      invariant Listing(g, unseen, found)
      decreases |unseen|
    {
      var start, size: nat := MinOf(unseen), 0;
      var current := start;
      ghost var before := unseen;
      InUnseen(g, unseen, found, start);
      WalkStarts(g, start);
      while current in unseen
        invariant start in before && start < |g|
        invariant current == Iterate(g, start, size)
        invariant unseen == before - Visited(g, start, size) && Distinct(g, start, size)
        decreases |unseen|
      {
        WalkAdvances(g, before, start, size);
        unseen := unseen - {current};
        size := size + 1;
        current := g[current];
      }
      WalkCloses(g, before, found, start, size);
      SubsetSize(unseen, before);
      found := found + [size];
    }
    sizes := SortBy(found, BySize());
    ListingEnds(g, found, sizes);
  }

  lemma ListingEnds(g: Perm, found: seq<nat>, sizes: seq<nat>)
    requires Listing(g, {}, found)
    requires multiset(sizes) == multiset(found) && Ordered(sizes, BySize())
    ensures IsCycleType(g, sizes) && SumNats(sizes) == |g|
  {
    SumNatsPermuted(sizes, found);
    BelowMembers(|g|);
    assert Below(|g|) - {} == Below(|g|);
    forall n: nat ensures OfSize(CycleSet(g), n) == CyclesOfSize(g, n) {}
  }

  lemma WalkStarts(g: Perm, start: nat)
    requires start < |g|
    ensures Visited(g, start, 0) == {} && Distinct(g, start, 0) && Iterate(g, start, 0) == start
  {}

  lemma WalkAdvances(g: Perm, before: set<nat>, start: nat, size: nat)
    requires start < |g| && Distinct(g, start, size)
    requires Iterate(g, start, size) in before - Visited(g, start, size)
    ensures Distinct(g, start, size + 1)
    ensures g[Iterate(g, start, size)] == Iterate(g, start, size + 1)
    ensures before - Visited(g, start, size + 1) == (before - Visited(g, start, size)) - {Iterate(g, start, size)}
    ensures |before - Visited(g, start, size + 1)| < |before - Visited(g, start, size)|
  {
    StaysDistinct(g, start, size);
    hide Distinct, Visited;
    VisitedGrows(g, start, size);
    var left := before - Visited(g, start, size);
    assert before - Visited(g, start, size + 1) == left - {Iterate(g, start, size)};
  }

  lemma StaysDistinct(g: Perm, start: nat, size: nat)
    requires start < |g| && Distinct(g, start, size) && Iterate(g, start, size) !in Visited(g, start, size)
    ensures Distinct(g, start, size + 1)
  {
    hide Iterate;
  }

  lemma ListingStarts(g: Perm)
    ensures Listing(g, Below(|g|), [])
  {
    BelowMembers(|g|);
    assert Below(|g|) - Below(|g|) == {};
    assert Image(CycleBy(g), {}) == {};
  }

  lemma InUnseen(g: Perm, unseen: set<nat>, sizes: seq<nat>, x: nat)
    requires Listing(g, unseen, sizes) && x in unseen
    ensures x < |g| && CycleOf(g, x) <= unseen
  {
    BelowMembers(|g|);
    assert CycleBy(g)(x) <= unseen;
  }

  /** The inner loop stops only back at its start, and has then removed exactly one cycle. */
  lemma WalkCloses(g: Perm, before: set<nat>, sizes: seq<nat>, start: nat, size: nat)
    requires Listing(g, before, sizes) && start in before && start < |g|
    requires Distinct(g, start, size)
    requires Iterate(g, start, size) !in before - Visited(g, start, size)
    ensures Iterate(g, start, size) == start && size > 0
    ensures Visited(g, start, size) == CycleOf(g, start)
    ensures Listing(g, before - Visited(g, start, size), sizes + [size])
    ensures start in Visited(g, start, size)
  {
    CycleContains(g, start);
    InUnseen(g, before, sizes, start);
    BelowMembers(|g|);
    assert Iterate(g, start, size) in CycleOf(g, start);
    var i :| 0 <= i < size && Iterate(g, start, i) == Iterate(g, start, size);
    IterateCancels(g, start, i, size);
    assert Iterate(g, start, 0) == start;
    ClosedWalkIsCycle(g, start, size);
    DistinctSize(g, start, size);
    ListingGrows(g, before, sizes, start, size);
  }

  lemma ListingGrows(g: Perm, before: set<nat>, sizes: seq<nat>, start: nat, size: nat)
    requires Listing(g, before, sizes) && start in before && start < |g|
    requires |CycleOf(g, start)| == size
    ensures Listing(g, before - CycleOf(g, start), sizes + [size])
  {
    hide CycleOf, Iterate, CycleBy, Image, OfSize, Below, SumNats;
    var all, cycle := Below(|g|), CycleOf(g, start);
    var after := before - cycle;
    InUnseen(g, before, sizes, start);
    forall x | x in after ensures CycleBy(g)(x) <= after {
      StaysUnseen(g, before, sizes, start, x);
    }
    assert all - after == (all - before) + cycle;
    CyclesWithOneMore(g, all - before, start);
    SizesWithOneMore(sizes, Image(CycleBy(g), all - before), cycle);
    SumNatsAppend(sizes, size);
    RemainderSize(all, before, cycle);
  }

  lemma SizesWithOneMore(sizes: seq<nat>, cycles: set<set<nat>>, cycle: set<nat>)
    requires forall n: nat :: multiset(sizes)[n] == |OfSize(cycles, n)|
    requires cycle !in cycles
    ensures forall n: nat :: multiset(sizes + [|cycle|])[n] == |OfSize(cycles + {cycle}, n)|
  {
    forall n: nat ensures multiset(sizes + [|cycle|])[n] == |OfSize(cycles + {cycle}, n)| {
      OneMoreOfSize(cycles, cycle, n);
    }
  }

  lemma RemainderSize(all: set<nat>, before: set<nat>, cycle: set<nat>)
    requires before <= all && cycle <= before
    ensures |all - (before - cycle)| == |all - before| + |cycle|
  {
    assert all - (before - cycle) == (all - before) + cycle;
  }

  lemma StaysUnseen(g: Perm, before: set<nat>, sizes: seq<nat>, start: nat, x: nat)
    requires Listing(g, before, sizes) && start < |g| && x in before - CycleOf(g, start)
    ensures CycleBy(g)(x) <= before - CycleOf(g, start)
  {
    InUnseen(g, before, sizes, x);
    MissesCycle(g, start, x);
  }

  /** Adding the points of one more cycle adds that cycle. */
  lemma CyclesWithOneMore(g: Perm, points: set<nat>, start: nat)
    requires start < |g| && points <= Below(|g|) && points !! CycleOf(g, start)
    ensures Image(CycleBy(g), points + CycleOf(g, start)) == Image(CycleBy(g), points) + {CycleOf(g, start)}
    ensures CycleOf(g, start) !in Image(CycleBy(g), points)
  {
    hide CycleOf;
    var cycle := CycleOf(g, start);
    BelowMembers(|g|);
    CycleContains(g, start);
    forall x | x in cycle ensures CycleBy(g)(x) == cycle { CyclesAgree(g, start, x); }
    forall x | x in points ensures CycleBy(g)(x) != cycle { CycleContains(g, x); }
  }

  lemma OneMoreOfSize(cycles: set<set<nat>>, cycle: set<nat>, n: nat)
    requires cycle !in cycles
    ensures |OfSize(cycles + {cycle}, n)| == |OfSize(cycles, n)| + (if |cycle| == n then 1 else 0)
  {
    assert OfSize(cycles + {cycle}, n) == if |cycle| == n then OfSize(cycles, n) + {cycle} else OfSize(cycles, n);
  }

  /** A point outside a cycle has a cycle disjoint from it. */
  lemma MissesCycle(g: Perm, start: nat, x: nat)
    requires start < |g| && x < |g| && x !in CycleOf(g, start)
    ensures CycleOf(g, x) !! CycleOf(g, start)
  {
    forall y | y in CycleOf(g, x) ensures y !in CycleOf(g, start) {
      CyclesAgree(g, x, y);
      CycleContains(g, x);
      if y in CycleOf(g, start) { CyclesAgree(g, start, y); }
    }
  }

  // ----- conjugation keeps the cycle type

  lemma {:induction false} IterateConjugate(p: Perm, h: Perm, g: Perm, x: nat, i: nat)
    requires |p| == |h| == |g| && x < |h| && g == Conjugation(p)(h)
    ensures p[x] < |g| && Iterate(g, p[x], i) == p[Iterate(h, x, i)]
  {
    hide Conjugation;
    if i > 0 {
      IterateConjugate(p, h, g, x, i - 1);
      ConjugationAt(p, h, g, p[Iterate(h, x, i - 1)]);
    }
  }

  lemma CycleConjugate(p: Perm, h: Perm, g: Perm, x: nat)
    requires |p| == |h| == |g| && x < |h| && g == Conjugation(p)(h)
    ensures p[x] < |g| && CycleOf(g, p[x]) == Image(Entry(p), CycleOf(h, x))
  {
    hide Conjugation, Iterate;
    BelowMembers(|h|);
    IterateConjugate(p, h, g, x, 0);
    forall y | y in CycleOf(g, p[x]) ensures y in Image(Entry(p), CycleOf(h, x)) {
      var i: nat :| Iterate(g, p[x], i) == y;
      IterateConjugate(p, h, g, x, i);
      assert Iterate(h, x, i) in CycleOf(h, x) && Entry(p)(Iterate(h, x, i)) == y;
    }
    forall y | y in Image(Entry(p), CycleOf(h, x)) ensures y in CycleOf(g, p[x]) {
      var z :| z in CycleOf(h, x) && Entry(p)(z) == y;
      var i: nat :| Iterate(h, x, i) == z;
      IterateConjugate(p, h, g, x, i);
    }
  }

  ghost function ThroughPerm(p: Perm): set<nat> -> set<nat> {
    (c: set<nat>) => Image(Entry(p), c)
  }

  lemma ThroughPermKeepsSize(p: Perm, c: set<nat>, d: set<nat>)
    requires c <= Below(|p|) && d <= Below(|p|)
    ensures |ThroughPerm(p)(c)| == |c|
    ensures ThroughPerm(p)(c) == ThroughPerm(p)(d) ==> c == d
  {
    EntryInjective(p);
    ImageSize(Entry(p), c);
    if ThroughPerm(p)(c) == ThroughPerm(p)(d) {
      forall x ensures x in c <==> x in d {
        if x in c { assert Entry(p)(x) in ThroughPerm(p)(d); }
        if x in d { assert Entry(p)(x) in ThroughPerm(p)(c); }
      }
    }
  }

  lemma CyclesOfSizeMapped(p: Perm, h: Perm, g: Perm, n: nat)
    requires |p| == |h| == |g| && g == Conjugation(p)(h)
    ensures |CyclesOfSize(h, n)| <= |CyclesOfSize(g, n)|
  {
    hide Conjugation, ThroughPerm, CyclesOfSize;
    var from := CyclesOfSize(h, n);
    forall c | c in from ensures c <= Below(|p|) && ThroughPerm(p)(c) in CyclesOfSize(g, n) {
      CycleMapped(p, h, g, n, c);
    }
    forall c, d | c in from && d in from && ThroughPerm(p)(c) == ThroughPerm(p)(d) ensures c == d {
      ThroughPermKeepsSize(p, c, d);
    }
    ImageSize(ThroughPerm(p), from);
    SubsetSize(Image(ThroughPerm(p), from), CyclesOfSize(g, n));
  }

  lemma CycleMapped(p: Perm, h: Perm, g: Perm, n: nat, c: set<nat>)
    requires |p| == |h| == |g| && g == Conjugation(p)(h) && c in CyclesOfSize(h, n)
    ensures c <= Below(|p|) && ThroughPerm(p)(c) in CyclesOfSize(g, n)
  {
    hide Conjugation;
    BelowMembers(|h|);
    var x :| x in Below(|h|) && CycleBy(h)(x) == c;
    CycleConjugate(p, h, g, x);
    ThroughPermKeepsSize(p, c, c);
    assert CycleBy(g)(p[x]) == ThroughPerm(p)(c);
  }

  /** Conjugate permutations have the same cycle type. */
  lemma ConjugatesShareCycleType(p: Perm, h: Perm, s: seq<nat>, t: seq<nat>)
    requires |p| == |h|
    requires IsCycleType(h, s) && IsCycleType(Conjugation(p)(h), t)
    ensures s == t
  {
    hide Conjugation, CyclesOfSize;
    forall n: nat ensures |CyclesOfSize(h, n)| == |CyclesOfSize(Conjugation(p)(h), n)| {
      ConjugationSize(p, h);
      ConjugationBack(p, h);
      CyclesOfSizeMapped(p, h, Conjugation(p)(h), n);
      CyclesOfSizeMapped(Inverse(p), Conjugation(p)(h), h, n);
    }
    assert multiset(s) == multiset(t);
    assert DistinctKeys(s, BySize());
    OrderedUnique(s, t, BySize());
  }
}
