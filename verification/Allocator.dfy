/** `allocate_near_boundary`: the adaptive choice of the next trial. */
module Allocator {
  import opened Prelude
  import opened Finite
  import opened Reals
  import opened Wilson
  import opened Contracts

  type Digest = nat

  datatype Candidate = Candidate(
    item: Digest, planned: nat, successes: nat, failures: nat, missing: nat,
    infrastructure: nat, contaminated: nat, prior: set<Digest>)
  {
    function Allocated(): nat { successes + failures + missing }

    function Observed(): nat { successes + failures }

    /** The record's own validator. */
    predicate Valid() {
      && planned > 0 && Allocated() <= planned && |prior| == Allocated()
      && infrastructure + contaminated <= missing
    }

    predicate Open() { Allocated() < planned }
  }

  datatype TrialAllocation = TrialAllocation(
    item: Digest, trialIndex: nat, sequence: nat, evidence: seq<Candidate>, prior: seq<Digest>)

  datatype AllocationError =
    | SealedSuite
    | NotReady
    | NotAdaptive
    | BadBoundary
    | NoCandidates
    | DuplicateItems
    | ReusedResults
    | Exhausted

  /** What one campaign's decisions have in common. */
  datatype Context = Context(status: SuiteStatus, evaluation: EvaluationClass, boundary: real, lib: Numerics)

  predicate AllValid(cs: seq<Candidate>) { forall i :: 0 <= i < |cs| ==> cs[i].Valid() }

  function ItemsApart(): (Candidate, Candidate) -> bool {
    (x: Candidate, y: Candidate) => x.item != y.item
  }

  function PriorsApart(): (Candidate, Candidate) -> bool {
    (x: Candidate, y: Candidate) => x.prior !! y.prior
  }

  predicate DistinctItems(cs: seq<Candidate>) {
    forall i, j :: 0 <= i < j < |cs| ==> cs[i].item != cs[j].item
  }

  predicate DisjointPriors(cs: seq<Candidate>) {
    forall i, j :: 0 <= i < j < |cs| ==> cs[i].prior !! cs[j].prior
  }

  // ----- the priority

  /** The tuple compared by `max`. */
  datatype Rank = Rank(score: real, width: real, item: Digest)

  predicate Less(a: Rank, b: Rank) {
    a.score < b.score || (a.score == b.score && (a.width < b.width || (a.width == b.width && a.item < b.item)))
  }

  function Priority(c: Candidate, boundary: real, lib: Numerics): (r: Rank)
    ensures r.item == c.item
  {
    if c.Observed() == 0 then Rank(1.0, 1.0, c.item)
    else
      var width := WilsonInterval(c.successes, c.Observed(), 0.95, lib).value.Width();
      var proximity := 1.0 - Abs(Proportion(c.successes, c.Observed()) - boundary);
      Rank(width * proximity, width, c.item)
  }

  function Eligible(cs: seq<Candidate>): seq<Candidate> {
    if cs == [] then []
    else
      var n := |cs| - 1;
      Eligible(cs[..n]) + (if cs[n].Open() then [cs[n]] else [])
  }

  lemma {:induction false} EligibleMembers(cs: seq<Candidate>)
    ensures forall c :: c in Eligible(cs) <==> c in cs && c.Open()
  {
    if cs != [] {
      var n := |cs| - 1;
      EligibleMembers(cs[..n]);
      assert cs == cs[..n] + [cs[n]];
    }
  }

  /** `max(eligible, key=priority)` */
  function Best(cs: seq<Candidate>, boundary: real, lib: Numerics): Candidate
    requires cs != []
  {
    var n := |cs| - 1;
    if n == 0 then cs[0]
    else
      var best := Best(cs[..n], boundary, lib);
      if Less(Priority(best, boundary, lib), Priority(cs[n], boundary, lib)) then cs[n] else best
  }

  lemma {:induction false} BestIsMaximal(cs: seq<Candidate>, boundary: real, lib: Numerics)
    requires cs != []
    ensures var best := Best(cs, boundary, lib);
            && best in cs
            && forall c :: c in cs ==> !Less(Priority(best, boundary, lib), Priority(c, boundary, lib))
  {
    var n := |cs| - 1;
    if n > 0 {
      BestIsMaximal(cs[..n], boundary, lib);
      assert cs == cs[..n] + [cs[n]];
    }
  }

  // ----- the decision

  function Total(cs: seq<Candidate>): nat {
    if cs == [] then 0 else Total(cs[..|cs| - 1]) + cs[|cs| - 1].Allocated()
  }

  function AllPriors(cs: seq<Candidate>): set<Digest> {
    set i, d | 0 <= i < |cs| && d in cs[i].prior :: d
  }

  function Items(cs: seq<Candidate>): set<Digest> {
    set i | 0 <= i < |cs| :: cs[i].item
  }

  function Find(cs: seq<Candidate>, item: Digest): Candidate
    requires item in Items(cs)
  {
    var n := |cs| - 1;
    if cs[n].item == item then cs[n] else Find(cs[..n], item)
  }

  /** `sorted(candidates, key=lambda item: item.item_digest)` for distinct digests. */
  function ByDigest(cs: seq<Candidate>): seq<Candidate> {
    var items := Ascending(Items(cs));
    seq(|items|, i requires 0 <= i < |items| => Find(cs, items[i]))
  }

  function AllocateNearBoundary(ctx: Context, cs: seq<Candidate>): Result<TrialAllocation, AllocationError> {
    if ctx.status.Sealed? || ctx.evaluation.SealedPromotion? then Err(SealedSuite)
    else if !ctx.status.Ready? then Err(NotReady)
    else if !ctx.evaluation.AdaptiveSearch? then Err(NotAdaptive)
    else if ctx.boundary <= 0.0 || ctx.boundary >= 1.0 then Err(BadBoundary)
    else if cs == [] then Err(NoCandidates)
    else if !DistinctItems(cs) then Err(DuplicateItems)
    else if !DisjointPriors(cs) then Err(ReusedResults)
    else
      var eligible := Eligible(cs);
      if eligible == [] then Err(Exhausted)
      else
        var selected := Best(eligible, ctx.boundary, ctx.lib);
        Ok(TrialAllocation(selected.item, selected.Allocated(), Total(cs), ByDigest(cs), Ascending(AllPriors(cs))))
  }

  /** The chosen candidate: open, and ahead of every other open candidate. */
  ghost predicate Chosen(ctx: Context, cs: seq<Candidate>, c: Candidate) {
    && c in cs && c.Open()
    && forall x :: x in cs && x.Open() && x != c ==>
         Less(Priority(x, ctx.boundary, ctx.lib), Priority(c, ctx.boundary, ctx.lib))
  }

  lemma Choice(ctx: Context, cs: seq<Candidate>) returns (c: Candidate)
    requires AllocateNearBoundary(ctx, cs).Ok?
    ensures c == Best(Eligible(cs), ctx.boundary, ctx.lib) && Chosen(ctx, cs, c)
  {
    hide Priority, Total, ByDigest, AllPriors, DisjointPriors;
    var eligible := Eligible(cs);
    c := Best(eligible, ctx.boundary, ctx.lib);
    EligibleMembers(cs);
    hide Eligible, Best;
    BestIsMaximal(eligible, ctx.boundary, ctx.lib);
    forall x | x in cs && x.Open() && x != c
      ensures Less(Priority(x, ctx.boundary, ctx.lib), Priority(c, ctx.boundary, ctx.lib))
    {
      assert x in eligible;
      assert x.item != c.item;
    }
  }

  /** Near the boundary or not, an observed candidate ranks below every unobserved one. */
  lemma ObservedRanksLower(ctx: Context, c: Candidate)
    requires c.Valid() && c.Observed() > 0 && 0.0 < ctx.boundary < 1.0 && ctx.lib.Sound()
    ensures Priority(c, ctx.boundary, ctx.lib).score < 1.0
  {
    hide WilsonInterval, Proportion, Center, Margin, Wilson.Numerics.Sound;
    IntervalIsUnclamped(c.successes, c.Observed(), 0.95, ctx.lib);
    var width := WilsonInterval(c.successes, c.Observed(), 0.95, ctx.lib).value.Width();
    var offset := Abs(Proportion(c.successes, c.Observed()) - ctx.boundary);
    ShrinkBelowOne(width, 1.0 - offset);
  }

  lemma ShrinkBelowOne(width: real, proximity: real)
    requires 0.0 < width < 1.0 && proximity <= 1.0
    ensures width * proximity < 1.0
  {
    ScaleOrder(proximity, 1.0, width);
  }

  /** Open candidates without an observed outcome come before every observed one. */
  lemma UnobservedFirst(ctx: Context, cs: seq<Candidate>, x: Candidate)
    requires AllocateNearBoundary(ctx, cs).Ok? && AllValid(cs) && ctx.lib.Sound()
    requires x in cs && x.Open() && x.Observed() == 0
    ensures forall c :: c in cs && c.item == AllocateNearBoundary(ctx, cs).value.item ==> c.Observed() == 0
  {
    hide WilsonInterval, Proportion, Best, Eligible, Total, ByDigest, AllPriors;
    var c := Choice(ctx, cs);
    if c.Observed() > 0 {
      ObservedRanksLower(ctx, c);
    }
    forall d | d in cs && d.item == c.item ensures d == c {
      OneByItem(cs, d, c);
    }
  }

  /** Among observed candidates the nearer rate wins at equal width, and the wider interval wins at
      equal distance from the boundary. */
  lemma RankFollowsUncertainty(ctx: Context, c: Candidate, d: Candidate)
    requires c.Valid() && d.Valid() && c.Observed() > 0 && d.Observed() > 0
    requires 0.0 < ctx.boundary < 1.0 && ctx.lib.Sound()
    ensures WidthOf(ctx, c) == WidthOf(ctx, d) && OffsetOf(ctx, c) < OffsetOf(ctx, d) ==>
      Less(Priority(d, ctx.boundary, ctx.lib), Priority(c, ctx.boundary, ctx.lib))
    ensures WidthOf(ctx, c) > WidthOf(ctx, d) && OffsetOf(ctx, c) == OffsetOf(ctx, d) ==>
      Less(Priority(d, ctx.boundary, ctx.lib), Priority(c, ctx.boundary, ctx.lib))
  {
    hide *;
    WidthAndOffset(ctx, c);
    WidthAndOffset(ctx, d);
    var wc, wd, oc, od := WidthOf(ctx, c), WidthOf(ctx, d), OffsetOf(ctx, c), OffsetOf(ctx, d);
    ScoresCompare(wc, wd, oc, od);
    HigherScore(Priority(d, ctx.boundary, ctx.lib), Priority(c, ctx.boundary, ctx.lib));
  }

  lemma HigherScore(a: Rank, b: Rank)
    ensures a.score < b.score ==> Less(a, b)
  {}

  lemma ScoresCompare(wc: real, wd: real, oc: real, od: real)
    requires wc > 0.0 && wd > 0.0 && oc < 1.0 && od < 1.0
    ensures wc == wd && oc < od ==> wd * (1.0 - od) < wc * (1.0 - oc)
    ensures wc > wd && oc == od ==> wd * (1.0 - od) < wc * (1.0 - oc)
  {
    if wc == wd && oc < od {
      PositiveProduct(wc, od - oc);
    }
    if wc > wd && oc == od {
      PositiveProduct(wc - wd, 1.0 - oc);
    }
  }

  function WidthOf(ctx: Context, c: Candidate): real
    requires c.Valid() && c.Observed() > 0
  {
    WilsonInterval(c.successes, c.Observed(), 0.95, ctx.lib).value.Width()
  }

  function OffsetOf(ctx: Context, c: Candidate): real
    requires c.Valid() && c.Observed() > 0
  {
    Abs(Proportion(c.successes, c.Observed()) - ctx.boundary)
  }

  lemma WidthAndOffset(ctx: Context, c: Candidate)
    requires c.Valid() && c.Observed() > 0 && 0.0 < ctx.boundary < 1.0 && ctx.lib.Sound()
    ensures 0.0 < WidthOf(ctx, c) && OffsetOf(ctx, c) < 1.0
    ensures Priority(c, ctx.boundary, ctx.lib)
         == Rank(WidthOf(ctx, c) * (1.0 - OffsetOf(ctx, c)), WidthOf(ctx, c), c.item)
  {
    hide WilsonInterval, Center, Margin, Proportion, Wilson.Numerics.Sound;
    IntervalIsUnclamped(c.successes, c.Observed(), 0.95, ctx.lib);
    ProportionRange(c.successes, c.Observed());
  }

  /** The priority of an observed candidate is higher the wider its interval and the nearer its rate
      is to the boundary; an unobserved one comes first, and of equals the larger digest. */
  ghost predicate LosesTo(ctx: Context, x: Candidate, c: Candidate)
    requires x.Valid() && c.Valid()
  {
    if x.successes + x.failures == 0 then c.successes + c.failures == 0 && x.item < c.item
    else if c.successes + c.failures == 0 then true
    else
      var wx, wc := WidthOf(ctx, x), WidthOf(ctx, c);
      var sx, sc := wx * (1.0 - OffsetOf(ctx, x)), wc * (1.0 - OffsetOf(ctx, c));
      sx < sc || (sx == sc && wx < wc) || (sx == sc && wx == wc && x.item < c.item)
  }

  /** The candidate the decision names is open, and every other open candidate loses to it. */
  lemma ChoiceWins(ctx: Context, cs: seq<Candidate>)
    requires AllocateNearBoundary(ctx, cs).Ok? && AllValid(cs) && ctx.lib.Sound()
    ensures exists c ::
      && c in cs && c.item == AllocateNearBoundary(ctx, cs).value.item
      && c.successes + c.failures + c.missing < c.planned
      && forall x :: x in cs && x.successes + x.failures + x.missing < x.planned && x != c ==> LosesTo(ctx, x, c)
  {
    hide WilsonInterval, Proportion, Best, Eligible, Total, ByDigest, AllPriors, Less, Priority, LosesTo;
    var c := Choice(ctx, cs);
    forall x | x in cs && x.Open() && x != c ensures LosesTo(ctx, x, c) {
      LessLoses(ctx, x, c);
    }
  }

  lemma LessLoses(ctx: Context, x: Candidate, c: Candidate)
    requires x.Valid() && c.Valid() && 0.0 < ctx.boundary < 1.0 && ctx.lib.Sound()
    requires Less(Priority(x, ctx.boundary, ctx.lib), Priority(c, ctx.boundary, ctx.lib))
    ensures LosesTo(ctx, x, c)
  {
    hide WilsonInterval, Proportion, WidthOf, OffsetOf;
    if x.Observed() > 0 { WidthAndOffset(ctx, x); ObservedRanksLower(ctx, x); }
    if c.Observed() > 0 { WidthAndOffset(ctx, c); ObservedRanksLower(ctx, c); }
  }

  // ----- refusals

  ghost predicate RepeatedItem(cs: seq<Candidate>) {
    exists i, j :: 0 <= i < j < |cs| && cs[i].item == cs[j].item
  }

  ghost predicate ReusedResult(cs: seq<Candidate>) {
    exists i, j, d :: 0 <= i < j < |cs| && d in cs[i].prior && d in cs[j].prior
  }

  ghost predicate AllSpent(cs: seq<Candidate>) {
    forall c :: c in cs ==> c.successes + c.failures + c.missing >= c.planned
  }

  /** Every refusal, exactly when the first failing check is the one it names. */
  lemma RefusesExactlyWhen(ctx: Context, cs: seq<Candidate>)
    ensures var r := AllocateNearBoundary(ctx, cs);
            var isSealed := ctx.status == Sealed || ctx.evaluation == SealedPromotion;
            var admitted := ctx.status == Ready && ctx.evaluation == AdaptiveSearch;
            var aimed := admitted && 0.0 < ctx.boundary < 1.0;
            && (r == Err(SealedSuite) <==> isSealed)
            && (r == Err(NotReady) <==> !isSealed && ctx.status != Ready)
            && (r == Err(NotAdaptive) <==> !isSealed && ctx.status == Ready && ctx.evaluation != AdaptiveSearch)
            && (r == Err(BadBoundary) <==> admitted && !aimed)
            && (r == Err(NoCandidates) <==> aimed && cs == [])
            && (r == Err(DuplicateItems) <==> aimed && RepeatedItem(cs))
            && (r == Err(ReusedResults) <==> aimed && !RepeatedItem(cs) && ReusedResult(cs))
            && (r == Err(Exhausted) <==>
                 aimed && cs != [] && !RepeatedItem(cs) && !ReusedResult(cs) && AllSpent(cs))
  {
    hide Best, Total, ByDigest, AllPriors, Eligible;
    EligibleMembers(cs);
    if Eligible(cs) != [] { assert Eligible(cs)[0] in Eligible(cs); }
    assert DisjointPriors(cs) <==> !ReusedResult(cs);
  }

  /** What a decision records: the next trial of the chosen candidate, its place in the sequence,
      and all the evidence it was based on, each list in its canonical order. */
  lemma DecisionRecords(ctx: Context, cs: seq<Candidate>) returns (c: Candidate)
    requires AllocateNearBoundary(ctx, cs).Ok?
    ensures Chosen(ctx, cs, c)
    ensures var r := AllocateNearBoundary(ctx, cs).value;
            && r.item == c.item && r.trialIndex == c.Allocated() && r.sequence == Total(cs)
            && StrictlyIncreasing(r.prior)
            && (forall d :: d in r.prior <==> exists x :: x in cs && d in x.prior)
            && (forall i, j :: 0 <= i < j < |r.evidence| ==> r.evidence[i].item < r.evidence[j].item)
            && (forall x :: x in r.evidence <==> x in cs)
  {
    hide Best, Eligible, Chosen, Priority;
    c := Choice(ctx, cs);
    ItemsAmong(cs);
    EvidenceIsSorted(cs);
  }

  // ----- the order of the candidates does not matter

  lemma SameMembers(a: seq<Candidate>, b: seq<Candidate>)
    requires multiset(a) == multiset(b)
    ensures forall c :: c in a <==> c in b
    ensures Items(a) == Items(b) && AllPriors(a) == AllPriors(b)
  {
    PermutedMembers(a, b);
    ItemsAmong(a);
    ItemsAmong(b);
  }

  lemma ItemsAmong(cs: seq<Candidate>)
    ensures forall d :: d in Items(cs) <==> exists c :: c in cs && c.item == d
    ensures forall d :: d in AllPriors(cs) <==> exists c :: c in cs && d in c.prior
  {}

  lemma ApartPermuted(a: seq<Candidate>, b: seq<Candidate>)
    requires multiset(a) == multiset(b)
    ensures DistinctItems(a) ==> DistinctItems(b)
    ensures DisjointPriors(a) ==> DisjointPriors(b)
  {
    if DistinctItems(a) {
      assert Pairwise(a, ItemsApart());
      PairwisePermuted(a, b, ItemsApart());
    }
    if DisjointPriors(a) {
      assert Pairwise(a, PriorsApart());
      PairwisePermuted(a, b, PriorsApart());
    }
  }

  function AllocatedOf(): Candidate -> nat {
    (c: Candidate) => c.Allocated()
  }

  lemma {:induction false} TotalIsSum(cs: seq<Candidate>)
    ensures Total(cs) == SumBy(cs, AllocatedOf())
  {
    if cs != [] {
      TotalIsSum(cs[..|cs| - 1]);
    }
  }

  lemma TotalPermuted(a: seq<Candidate>, b: seq<Candidate>)
    requires multiset(a) == multiset(b)
    ensures Total(a) == Total(b)
  {
    TotalIsSum(a);
    TotalIsSum(b);
    SumByPermuted(a, b, AllocatedOf());
  }

  lemma {:induction false} FindFinds(cs: seq<Candidate>, item: Digest)
    requires item in Items(cs)
    ensures var c := Find(cs, item); c in cs && c.item == item
  {
    var n := |cs| - 1;
    if cs[n].item != item {
      assert item in Items(cs[..n]) by {
        var i :| 0 <= i < |cs| && cs[i].item == item;
        assert cs[..n][i].item == item;
      }
      FindFinds(cs[..n], item);
    }
  }

  lemma OneByItem(cs: seq<Candidate>, x: Candidate, y: Candidate)
    requires DistinctItems(cs) && x in cs && y in cs && x.item == y.item
    ensures x == y
  {}

  /** The candidates recorded as evidence are the given ones, in the order of their digests. */
  lemma EvidenceIsSorted(cs: seq<Candidate>)
    requires DistinctItems(cs)
    ensures var sorted := ByDigest(cs);
            && (forall i, j :: 0 <= i < j < |sorted| ==> sorted[i].item < sorted[j].item)
            && (forall c :: c in sorted <==> c in cs)
  {
    var items, sorted := Ascending(Items(cs)), ByDigest(cs);
    forall i | 0 <= i < |items| ensures sorted[i].item == items[i] && sorted[i] in cs {
      assert items[i] in items;
      FindFinds(cs, items[i]);
    }
    forall c | c in cs ensures c in sorted {
      assert c.item in items;
      var i :| 0 <= i < |items| && items[i] == c.item;
      OneByItem(cs, c, sorted[i]);
    }
  }

  lemma EvidencePermuted(a: seq<Candidate>, b: seq<Candidate>)
    requires multiset(a) == multiset(b) && DistinctItems(a)
    ensures ByDigest(a) == ByDigest(b)
  {
    hide DistinctItems, AllPriors, Items, Find;
    SameMembers(a, b);
    var items := Ascending(Items(a));
    forall i | 0 <= i < |items| ensures Find(a, items[i]) == Find(b, items[i]) {
      assert items[i] in items;
      FindSame(a, b, items[i]);
    }
  }

  lemma FindSame(a: seq<Candidate>, b: seq<Candidate>, item: Digest)
    requires DistinctItems(a) && (forall c :: c in a <==> c in b)
    requires item in Items(a) && item in Items(b)
    ensures Find(a, item) == Find(b, item)
  {
    FindFinds(a, item);
    FindFinds(b, item);
    OneByItem(a, Find(a, item), Find(b, item));
  }

  lemma ChosenOnce(ctx: Context, a: seq<Candidate>, b: seq<Candidate>, x: Candidate, y: Candidate)
    requires forall c :: c in a <==> c in b
    requires Chosen(ctx, a, x) && Chosen(ctx, b, y)
    ensures x == y
  {}

  /** The decision, down to the evidence its digest is computed from, is a function of the set of
      candidates: it does not depend on their order. */
  lemma OrderIsIrrelevant(ctx: Context, a: seq<Candidate>, b: seq<Candidate>)
    requires multiset(a) == multiset(b)
    ensures AllocateNearBoundary(ctx, a) == AllocateNearBoundary(ctx, b)
  {
    hide Best, Eligible, ByDigest, AllPriors, Chosen, DistinctItems, DisjointPriors, Total, Items;
    SameMembers(a, b);
    ApartPermuted(a, b);
    ApartPermuted(b, a);
    assert a == [] <==> b == [] by { assert |multiset(a)| == |a| && |multiset(b)| == |b|; }
    EligiblePermuted(a, b);
    if AllocateNearBoundary(ctx, a).Ok? && AllocateNearBoundary(ctx, b).Ok? {
      var x := Choice(ctx, a);
      var y := Choice(ctx, b);
      ChosenOnce(ctx, a, b, x, y);
      TotalPermuted(a, b);
      EvidencePermuted(a, b);
    }
  }

  lemma EligiblePermuted(a: seq<Candidate>, b: seq<Candidate>)
    requires forall c :: c in a <==> c in b
    ensures Eligible(a) == [] <==> Eligible(b) == []
  {
    EligibleMembers(a);
    EligibleMembers(b);
    if Eligible(a) != [] { assert Eligible(a)[0] in Eligible(b); }
    if Eligible(b) != [] { assert Eligible(b)[0] in Eligible(a); }
  }
}
