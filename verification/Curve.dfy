/** `build_capability_curve` and `_interpolated_boundary`: sort, fit, attach intervals, and read
    off where the fitted curve crosses the target probability. */
module Curve {
  import opened Prelude
  import opened Finite
  import opened Reals
  import opened Sorting
  import opened Wilson
  import opened Pava
  import opened PavaOptimality

  datatype Estimate = Estimate(mean: real, interval: Interval)

  datatype CurvePoint = CurvePoint(difficulty: real, estimate: Option<Estimate>, trials: nat, missing: nat)

  datatype CapabilityCurve = CapabilityCurve(
    points: seq<CurvePoint>, boundary: Option<real>, violations: nat)

  datatype CurveError =
    | NoBins
    | TargetOutOfRange
    | DuplicateDifficulty
    | BadInterval(cause: WilsonError)

  // ----- sorting by difficulty

  function ByDifficulty(): DifficultyBin -> real { (b: DifficultyBin) => b.difficulty }

  function SortByDifficulty(bins: seq<DifficultyBin>): (r: seq<DifficultyBin>)
    ensures multiset(r) == multiset(bins) && Ordered(r, ByDifficulty())
  {
    SortBy(bins, ByDifficulty())
  }

  ghost predicate StrictlySorted(bins: seq<DifficultyBin>) {
    forall j, k :: 0 <= j < k < |bins| ==> bins[j].difficulty < bins[k].difficulty
  }

  predicate HasDuplicates(sorted: seq<DifficultyBin>) {
    exists k :: 0 < k < |sorted| && sorted[k - 1].difficulty == sorted[k].difficulty
  }

  lemma {:induction false} StrictUnlessDuplicates(sorted: seq<DifficultyBin>)
    requires Ordered(sorted, ByDifficulty()) && !HasDuplicates(sorted)
    ensures StrictlySorted(sorted)
  {
    forall j, k | 0 <= j < k < |sorted| ensures sorted[j].difficulty < sorted[k].difficulty {
      assert sorted[k - 1].difficulty < sorted[k].difficulty;
    }
  }

  /** Two bins of the same difficulty. */
  ghost predicate SameDifficulty(bins: seq<DifficultyBin>) {
    exists i, j :: 0 <= i < j < |bins| && bins[i].difficulty == bins[j].difficulty
  }

  function DifficultiesApart(): (DifficultyBin, DifficultyBin) -> bool {
    (x: DifficultyBin, y: DifficultyBin) => x.difficulty != y.difficulty
  }

  /** Neighbours in the sorted order are equal exactly when any two bins are. */
  lemma DuplicatesAreFound(bins: seq<DifficultyBin>)
    ensures HasDuplicates(SortByDifficulty(bins)) <==> SameDifficulty(bins)
  {
    var sorted := SortByDifficulty(bins);
    if !SameDifficulty(bins) {
      assert Pairwise(bins, DifficultiesApart());
      PairwisePermuted(bins, sorted, DifficultiesApart());
    }
    if !HasDuplicates(sorted) {
      StrictUnlessDuplicates(sorted);
      assert Pairwise(sorted, DifficultiesApart());
      PairwisePermuted(sorted, bins, DifficultiesApart());
    }
  }

  /** Some bin has a success or a failure. */
  ghost predicate AnyObserved(bins: seq<DifficultyBin>) {
    exists b :: b in bins && b.successes + b.failures > 0
  }

  lemma ObservedSomewhere(bins: seq<DifficultyBin>)
    ensures ObservedIndices(SortByDifficulty(bins)) != [] <==> AnyObserved(bins)
  {
    var sorted := SortByDifficulty(bins);
    PermutedMembers(sorted, bins);
    if AnyObserved(bins) {
      var b :| b in bins && b.successes + b.failures > 0;
      var i :| 0 <= i < |sorted| && sorted[i] == b;
      ObservedIndicesComplete(sorted, i);
    }
    if ObservedIndices(sorted) != [] {
      ObservedIndicesComplete(sorted, ObservedIndices(sorted)[0]);
      assert sorted[ObservedIndices(sorted)[0]] in sorted;
    }
  }

  // ----- the crossing point

  /** The observed points, in order. */
  function Observed(points: seq<CurvePoint>): seq<CurvePoint> {
    if points == [] then []
    else
      var n := |points| - 1;
      Observed(points[..n]) + (if points[n].estimate.Some? then [points[n]] else [])
  }

  /** An observed curve as the fit leaves it: harder points never do better. */
  ghost predicate FittedCurve(observed: seq<CurvePoint>) {
    && (forall k :: 0 <= k < |observed| ==> observed[k].estimate.Some?)
    && forall j, k :: 0 <= j < k < |observed| ==>
         && observed[j].difficulty < observed[k].difficulty
         && observed[j].estimate.value.mean >= observed[k].estimate.value.mean
  }

  /** `d` separates the points that reach the target from those that do not exceed it. */
  ghost predicate Separates(observed: seq<CurvePoint>, target: real, d: real) {
    forall k :: 0 <= k < |observed| && observed[k].estimate.Some? ==>
      && (observed[k].difficulty < d ==> observed[k].estimate.value.mean >= target)
      && (observed[k].difficulty > d ==> observed[k].estimate.value.mean <= target)
  }

  ghost predicate OutOfReach(observed: seq<CurvePoint>, target: real)
    requires FittedCurve(observed)
  {
    || observed == []
    || target > observed[0].estimate.value.mean
    || target < observed[|observed| - 1].estimate.value.mean
  }

  function Interpolate(low: real, high: real, left: real, right: real, target: real): real
    requires left > target > right
  {
    low + (left - target) / (left - right) * (high - low)
  }

  lemma InterpolateBetween(low: real, high: real, left: real, right: real, target: real)
    requires low < high && left > target > right
    ensures low < Interpolate(low, high, left, right, target) < high
  {
    ProperFraction(left - target, left - right);
    FractionOfSpan((left - target) / (left - right), high - low);
  }

  lemma ProperFraction(x: real, y: real)
    requires 0.0 < x < y
    ensures 0.0 < x / y < 1.0
  {
    PositiveQuotient(x, y);
    QuotientTimes(x, y);
    CancelStrict(x / y, 1.0, y);
  }

  lemma FractionOfSpan(q: real, span: real)
    requires 0.0 < q < 1.0 && span > 0.0
    ensures 0.0 < q * span < span
  {
    PositiveProduct(q, span);
    PositiveProduct(1.0 - q, span);
    assert (1.0 - q) * span == span - q * span;
  }

  /** The first point exactly at the target, or, when there is none, the place where the line
      through two neighbours around the target passes through it. */
  ghost predicate CrossesAt(observed: seq<CurvePoint>, target: real, d: real)
    requires forall k :: 0 <= k < |observed| ==> observed[k].estimate.Some?
  {
    || (exists k ::
          && 0 <= k < |observed| && observed[k].estimate.value.mean == target && observed[k].difficulty == d
          && forall j :: 0 <= j < k ==> observed[j].estimate.value.mean != target)
    || ((forall k :: 0 <= k < |observed| ==> observed[k].estimate.value.mean != target)
        && exists k :: 0 < k < |observed| && PassesBetween(observed[k - 1], observed[k], target, d))
  }

  ghost predicate PassesBetween(left: CurvePoint, right: CurvePoint, target: real, d: real)
    requires left.estimate.Some? && right.estimate.Some?
  {
    var l, r := left.estimate.value.mean, right.estimate.value.mean;
    l > target > r && (d - left.difficulty) * (l - r) == (l - target) * (right.difficulty - left.difficulty)
  }

  lemma InterpolateOnLine(low: real, high: real, left: real, right: real, target: real)
    requires left > target > right
    ensures (Interpolate(low, high, left, right, target) - low) * (left - right) == (left - target) * (high - low)
  {
    var q := (left - target) / (left - right);
    QuotientTimes(left - target, left - right);
    assert q * (high - low) * (left - right) == q * (left - right) * (high - low);
  }

  method InterpolatedBoundary(points: seq<CurvePoint>, target: real) returns (boundary: Option<real>)
    ensures FittedCurve(Observed(points)) ==> (boundary.None? <==> OutOfReach(Observed(points), target))
    ensures FittedCurve(Observed(points)) && boundary.Some? ==>
      Separates(Observed(points), target, boundary.value)
    ensures forall k :: 0 <= k < |Observed(points)| ==> Observed(points)[k].estimate.Some?
    ensures boundary.Some? ==> CrossesAt(Observed(points), target, boundary.value)
  {
    var observed := Observed(points);
    ObservedHasEstimates(points);
    for k := 0 to |observed|
      invariant forall j :: 0 <= j < k ==> observed[j].estimate.value.mean != target
    {
      if observed[k].estimate.value.mean == target {
        return Some(observed[k].difficulty);
      }
    }
    var k := 0;
    while k + 1 < |observed|
      invariant forall j :: 0 <= j < |observed| ==> observed[j].estimate.value.mean != target
      invariant observed != [] ==>
        k < |observed| && (observed[0].estimate.value.mean < target || observed[k].estimate.value.mean > target)
    {
      var left, right := observed[k], observed[k + 1];
      if left.estimate.value.mean > target > right.estimate.value.mean {
        ghost var low, high := left.difficulty, right.difficulty;
        if low < high {
          InterpolateBetween(low, high, left.estimate.value.mean, right.estimate.value.mean, target);
        }
        InterpolateOnLine(low, high, left.estimate.value.mean, right.estimate.value.mean, target);
        assert PassesBetween(observed[k], observed[k + 1], target,
            Interpolate(low, high, left.estimate.value.mean, right.estimate.value.mean, target));
        return Some(Interpolate(left.difficulty, right.difficulty,
          left.estimate.value.mean, right.estimate.value.mean, target));
      }
      k := k + 1;
    }
    return None;
  }

  lemma {:induction false} ObservedHasEstimates(points: seq<CurvePoint>)
    ensures forall k :: 0 <= k < |Observed(points)| ==> Observed(points)[k].estimate.Some?
  {
    if points != [] {
      ObservedHasEstimates(points[..|points| - 1]);
    }
  }

  // ----- the curve

  function MeanOr(e: Option<Estimate>, default: real): real {
    if e.Some? then e.value.mean else default
  }

  function Values(points: seq<CurvePoint>): (f: seq<real>)
    ensures |f| == |points|
    ensures forall i :: 0 <= i < |points| ==> f[i] == MeanOr(points[i].estimate, 0.0)
  {
    seq(|points|, i requires 0 <= i < |points| => MeanOr(points[i].estimate, 0.0))
  }

  /** A point of the curve for one bin: estimated exactly when observed, inside its interval. */
  ghost predicate PointFor(b: DifficultyBin, p: CurvePoint) {
    && p.difficulty == b.difficulty && p.trials == b.Trials() && p.missing == b.missing
    && (p.estimate.Some? <==> b.Trials() > 0)
    && (p.estimate.Some? ==> WellPlaced(p.estimate.value))
  }

  ghost predicate WellPlaced(e: Estimate) {
    0.0 <= e.interval.lower <= e.mean <= e.interval.upper <= 1.0
  }

  ghost predicate PointsFor(bins: seq<DifficultyBin>, points: seq<CurvePoint>) {
    && |points| == |bins|
    && forall i :: 0 <= i < |bins| ==> PointFor(bins[i], points[i])
  }

  lemma {:induction false} SuccessesWithinTrials(bins: seq<DifficultyBin>, idx: seq<nat>)
    requires Indexes(bins, idx)
    ensures SumSuccesses(bins, idx) <= SumTrials(bins, idx)
  {
    if idx != [] {
      SuccessesWithinTrials(bins, idx[..|idx| - 1]);
    }
  }

  /** Every index of a later block is larger than every index of an earlier one. */
  lemma {:induction false} BlocksInOrder(blocks: seq<PavaBlock>, j: nat, k: nat, j': nat, k': nat)
    requires StrictlyIncreasing(Flat(blocks))
    requires j < j' < |blocks| && k < |blocks[j].indices| && k' < |blocks[j'].indices|
    ensures blocks[j].indices[k] < blocks[j'].indices[k']
  {
    var n := |blocks| - 1;
    var a, b := Flat(blocks[..n]), blocks[n].indices;
    if j' < n {
      assert forall i :: 0 <= i < |a| ==> a[i] == (a + b)[i];
      BlocksInOrder(blocks[..n], j, k, j', k');
    } else {
      FlatContains(blocks[..n], j, k);
      var i :| 0 <= i < |a| && a[i] == blocks[j].indices[k];
      assert (a + b)[i] < (a + b)[|a| + k'];
    }
  }

  lemma {:induction false} FlatContains(blocks: seq<PavaBlock>, j: nat, k: nat)
    requires j < |blocks| && k < |blocks[j].indices|
    ensures blocks[j].indices[k] in Flat(blocks)
  {
    var n := |blocks| - 1;
    if j < n {
      FlatContains(blocks[..n], j, k);
    }
  }

  lemma {:induction false} FlatOnly(blocks: seq<PavaBlock>, i: nat)
    requires i in Flat(blocks)
    ensures exists j, k :: 0 <= j < |blocks| && 0 <= k < |blocks[j].indices| && blocks[j].indices[k] == i
  {
    var n := |blocks| - 1;
    if i in blocks[n].indices {
      var k :| 0 <= k < |blocks[n].indices| && blocks[n].indices[k] == i;
    } else {
      FlatOnly(blocks[..n], i);
      var j, k :| 0 <= j < n && 0 <= k < |blocks[j].indices| && blocks[..n][j].indices[k] == i;
      assert blocks[j].indices[k] == i;
    }
  }

  /** The estimate of a block: its mean, and the interval of its pooled counts. */
  ghost predicate EstimateFor(block: PavaBlock, e: Estimate, confidence: real, lib: Numerics) {
    e.mean == block.Mean() && WilsonInterval(block.successes, block.trials, confidence, lib) == Ok(e.interval)
  }

  /** `fitted` holds, for every index of the blocks, its block's estimate. */
  ghost predicate Spread(blocks: seq<PavaBlock>, fitted: map<nat, Estimate>, confidence: real, lib: Numerics) {
    && (forall j, k :: 0 <= j < |blocks| && 0 <= k < |blocks[j].indices| ==>
         && blocks[j].indices[k] in fitted
         && EstimateFor(blocks[j], fitted[blocks[j].indices[k]], confidence, lib))
    && (forall i :: i in fitted ==> i in Flat(blocks) && WellPlaced(fitted[i]))
  }

  /** The inner loop: every index of a block gets the block's estimate. */
  method Attach(before: map<nat, Estimate>, indices: seq<nat>, estimate: Estimate) returns (after: map<nat, Estimate>)
    requires forall i :: i in indices ==> i !in before
    ensures forall i :: i in before ==> i in after && after[i] == before[i]
    ensures forall i :: i in after ==> i in before || (i in indices && after[i] == estimate)
    ensures forall i :: i in indices ==> i in after
  {
    after := before;
    for k := 0 to |indices|
      invariant forall i :: i in before ==> i in after && after[i] == before[i]
      invariant forall i :: i in after ==> i in before || (i in indices && after[i] == estimate)
      invariant forall k' :: 0 <= k' < k ==> indices[k'] in after
    {
      after := after[indices[k] := estimate];
    }
  }

  method SpreadBlocks(bins: seq<DifficultyBin>, blocks: seq<PavaBlock>, confidence: real, lib: Numerics)
      returns (r: Result<map<nat, Estimate>, WilsonError>)
    requires lib.Sound() && Pooled(bins, blocks) && StrictlyIncreasing(Flat(blocks))
    ensures r.Ok? <==> blocks == [] || 0.0 < confidence < 1.0
    ensures r.Ok? ==> Spread(blocks, r.value, confidence, lib)
    ensures r.Err? ==> r.error == ConfidenceOutOfRange
  {
    var fitted: map<nat, Estimate> := map[];
    for j := 0 to |blocks|
      invariant j > 0 ==> 0.0 < confidence < 1.0
      invariant Spread(blocks[..j], fitted, confidence, lib)
    {
      var block := blocks[j];
      SuccessesWithinTrials(bins, block.indices);
      IntervalOutcome(block.successes, block.trials, confidence, lib);
      hide Spread, BlockOf, PrefixBounded, WilsonInterval, Center, Margin;
      var interval := WilsonInterval(block.successes, block.trials, confidence, lib);
      if interval.Err? { return Err(interval.error); }
      IntervalIsUnclamped(block.successes, block.trials, confidence, lib);
      var estimate := Estimate(block.Mean(), interval.value);
      EarlierIndices(blocks, j);
      var after := Attach(fitted, block.indices, estimate);
      SpreadExtends(blocks, j, fitted, after, estimate, confidence, lib);
      fitted := after;
    }
    assert blocks[..|blocks|] == blocks;
    return Ok(fitted);
  }

  lemma {:induction false} EarlierIndices(blocks: seq<PavaBlock>, j: nat)
    requires j < |blocks| && StrictlyIncreasing(Flat(blocks))
    ensures forall i :: i in Flat(blocks[..j]) ==> i !in blocks[j].indices
  {
    forall i | i in Flat(blocks[..j]) ensures i !in blocks[j].indices {
      FlatOnly(blocks[..j], i);
      var j', k' :| 0 <= j' < j && 0 <= k' < |blocks[j'].indices| && blocks[..j][j'].indices[k'] == i;
      forall k | 0 <= k < |blocks[j].indices| ensures blocks[j].indices[k] != i {
        BlocksInOrder(blocks, j', k', j, k);
      }
    }
  }

  lemma {:induction false} SpreadExtends(
      blocks: seq<PavaBlock>, j: nat, before: map<nat, Estimate>, fitted: map<nat, Estimate>, e: Estimate,
      confidence: real, lib: Numerics)
    requires j < |blocks| && Spread(blocks[..j], before, confidence, lib)
    requires EstimateFor(blocks[j], e, confidence, lib) && WellPlaced(e)
    requires forall i :: i in Flat(blocks[..j]) ==> i !in blocks[j].indices
    requires forall i :: i in before ==> i in fitted && fitted[i] == before[i]
    requires forall i :: i in fitted ==> i in before || (i in blocks[j].indices && fitted[i] == e)
    requires forall k :: 0 <= k < |blocks[j].indices| ==> blocks[j].indices[k] in fitted
    ensures Spread(blocks[..j + 1], fitted, confidence, lib)
  {
    hide EstimateFor, WellPlaced;
    FlatPush(blocks[..j], blocks[j]);
    var upto := blocks[..j + 1];
    assert upto == blocks[..j] + [blocks[j]];
    hide Flat;
    forall j', k' | 0 <= j' < |upto| && 0 <= k' < |upto[j'].indices|
      ensures upto[j'].indices[k'] in fitted
      ensures EstimateFor(upto[j'], fitted[upto[j'].indices[k']], confidence, lib)
    {
      if j' < j {
        assert blocks[..j][j'].indices[k'] in before;
      } else {
        assert upto[j'].indices[k'] !in before;
      }
    }
  }

  /** Every observed point carries the estimate of the block it was pooled into. */
  ghost predicate PointsPooled(
      bins: seq<DifficultyBin>, points: seq<CurvePoint>, blocks: seq<PavaBlock>, confidence: real, lib: Numerics)
  {
    && Fits(bins, ObservedIndices(bins), blocks) && Descending(blocks, |blocks|)
    && forall j, k :: 0 <= j < |blocks| && 0 <= k < |blocks[j].indices| ==>
         && blocks[j].indices[k] < |points| && points[blocks[j].indices[k]].estimate.Some?
         && EstimateFor(blocks[j], points[blocks[j].indices[k]].estimate.value, confidence, lib)
  }

  method BuildCapabilityCurve(bins: seq<DifficultyBin>, target: real, confidence: real, lib: Numerics)
      returns (r: Result<CapabilityCurve, CurveError>)
    requires lib.Sound()
    ensures r == Err(NoBins) <==> bins == []
    ensures r == Err(TargetOutOfRange) <==> bins != [] && !(0.0 <= target <= 1.0)
    ensures r == Err(DuplicateDifficulty) <==>
      bins != [] && 0.0 <= target <= 1.0 && SameDifficulty(bins)
    ensures r.Err? && r.error.BadInterval? <==>
      && bins != [] && 0.0 <= target <= 1.0 && !SameDifficulty(bins)
      && AnyObserved(bins) && !(0.0 < confidence < 1.0)
    ensures r.Ok? ==>
      var ordered, curve := SortByDifficulty(bins), r.value;
      && StrictlySorted(ordered) && PointsFor(ordered, curve.points)
      && (exists blocks :: PointsPooled(ordered, curve.points, blocks, confidence, lib))
      && Indexes(ordered, ObservedIndices(ordered))
      && curve.violations == |Rises(ordered, ObservedIndices(ordered))|
      && UniqueBestFit(ordered, Values(curve.points))
      && (curve.violations == 0 <==> HasRawRates(ordered, Values(curve.points)))
      && FittedCurve(Observed(curve.points))
      && (curve.boundary.None? <==> OutOfReach(Observed(curve.points), target))
      && (curve.boundary.Some? ==>
           && Separates(Observed(curve.points), target, curve.boundary.value)
           && CrossesAt(Observed(curve.points), target, curve.boundary.value))
  {
    hide Spread, Descending, Fits, UniqueBestFit, EstimateFor, CrossesAt, Separates, StrictlySorted, Ordered, SortBy;
    hide SameDifficulty, AnyObserved, SortByDifficulty, Rises, Indexes, PointsFor, PointsPooled, HasRawRates;
    hide FittedCurve, OutOfReach, HasDuplicates, Observed, ObservedIndices;
    if bins == [] { return Err(NoBins); }
    if target < 0.0 || target > 1.0 { return Err(TargetOutOfRange); }
    var ordered := SortByDifficulty(bins);
    DuplicatesAreFound(bins);
    ObservedSomewhere(bins);
    ViolationsAreRises(ordered);
    if HasDuplicates(ordered) { return Err(DuplicateDifficulty); }
    StrictUnlessDuplicates(ordered);
    ObservedIndicesOrdered(ordered);
    var rates, blocks := FitBlocks(ordered);
    NoBlocks(ordered, blocks);
    var spread := SpreadBlocks(ordered, blocks, confidence, lib);
    if spread.Err? { return Err(BadInterval(spread.error)); }
    var fitted := spread.value;
    var points := seq(|ordered|, i requires 0 <= i < |ordered| =>
      CurvePoint(ordered[i].difficulty, if i in fitted then Some(fitted[i]) else None,
        ordered[i].Trials(), ordered[i].missing));
    FittedPoints(ordered, blocks, fitted, points, confidence, lib);
    PoolingIsBestFit(ordered, blocks, Values(points));
    UnchangedIffNoViolations(ordered, Values(points));
    ObservedIsFitted(ordered, points);
    var boundary := InterpolatedBoundary(points, target);
    return Ok(CapabilityCurve(points, boundary, CountRises(rates)));
  }

  lemma {:induction false} FittedPoints(
      bins: seq<DifficultyBin>, blocks: seq<PavaBlock>, fitted: map<nat, Estimate>, points: seq<CurvePoint>,
      confidence: real, lib: Numerics)
    requires Fits(bins, ObservedIndices(bins), blocks) && Descending(blocks, |blocks|)
    requires Spread(blocks, fitted, confidence, lib) && |points| == |bins|
    requires forall i :: 0 <= i < |bins| ==>
      points[i] == CurvePoint(bins[i].difficulty, if i in fitted then Some(fitted[i]) else None,
        bins[i].Trials(), bins[i].missing)
    ensures PointsFor(bins, points)
    ensures TakesBlockMeans(blocks, Values(points))
    ensures PointsPooled(bins, points, blocks, confidence, lib)
  {
    forall i | 0 <= i < |bins| ensures i in fitted <==> bins[i].Trials() > 0 {
      ObservedIndicesComplete(bins, i);
      if i in Flat(blocks) { FlatOnly(blocks, i); }
    }
  }

  lemma NoBlocks(bins: seq<DifficultyBin>, blocks: seq<PavaBlock>)
    requires Fits(bins, ObservedIndices(bins), blocks)
    ensures blocks == [] <==> ObservedIndices(bins) == []
  {
    if blocks != [] { assert BlockOf(bins, blocks[|blocks| - 1]); }
  }

  /** The observed points are those at the observed indices. */
  lemma {:induction false} ObservedAt(bins: seq<DifficultyBin>, points: seq<CurvePoint>)
    requires PointsFor(bins, points)
    ensures |Observed(points)| == |ObservedIndices(bins)|
    ensures forall k :: 0 <= k < |Observed(points)| ==>
      ObservedIndices(bins)[k] < |points| && Observed(points)[k] == points[ObservedIndices(bins)[k]]
  {
    if bins != [] {
      var n := |bins| - 1;
      ObservedAt(bins[..n], points[..n]);
      assert PointFor(bins[n], points[n]);
    }
  }

  lemma {:induction false} ObservedIsFitted(bins: seq<DifficultyBin>, points: seq<CurvePoint>)
    requires PointsFor(bins, points) && StrictlySorted(bins) && UniqueBestFit(bins, Values(points))
    ensures FittedCurve(Observed(points))
  {
    var observed, idx, f := Observed(points), ObservedIndices(bins), Values(points);
    ObservedAt(bins, points);
    ObservedIndicesOrdered(bins);
    ObservedHasEstimates(points);
    forall j, k | 0 <= j < k < |observed|
      ensures observed[j].difficulty < observed[k].difficulty
      ensures observed[j].estimate.value.mean >= observed[k].estimate.value.mean
    {
      assert f[idx[j]] >= f[idx[k]];
      assert PointFor(bins[idx[j]], points[idx[j]]) && PointFor(bins[idx[k]], points[idx[k]]);
    }
  }
}
