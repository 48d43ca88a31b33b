/** The pooled block means are the unique best non-increasing fit, in trial-weighted squares. */
module PavaOptimality {
  import opened Reals
  import opened Pava

  // ----- what "best fit" means, without mentioning blocks

  function Weight(b: DifficultyBin): real { b.Trials() as real }

  /** Weighted squared distance of value `v` from the bin's raw rate. */
  function BinLoss(b: DifficultyBin, v: real): real
    requires b.Trials() > 0
  {
    Weight(b) * Square(b.Rate() - v)
  }

  /** Trial-weighted squared error of the curve `g` over the bins listed in `idx`. */
  ghost function Loss(bins: seq<DifficultyBin>, idx: seq<nat>, g: seq<real>): real
    requires Indexes(bins, idx) && |g| == |bins|
  {
    if idx == [] then 0.0
    else
      var i := idx[|idx| - 1];
      Loss(bins, idx[..|idx| - 1], g) + BinLoss(bins[i], g[i])
  }

  ghost predicate NonIncreasingOn(idx: seq<nat>, g: seq<real>) {
    && (forall k :: 0 <= k < |idx| ==> idx[k] < |g|)
    && forall j, k :: 0 <= j < k < |idx| ==> g[idx[j]] >= g[idx[k]]
  }

  ghost predicate AgreeOn(idx: seq<nat>, f: seq<real>, g: seq<real>) {
    forall k :: 0 <= k < |idx| && idx[k] < |f| && idx[k] < |g| ==> f[idx[k]] == g[idx[k]]
  }

  /** `f` is non-increasing over the observed bins, no other such curve has a smaller loss, and
      only curves equal to `f` there have the same loss. */
  ghost predicate UniqueBestFit(bins: seq<DifficultyBin>, f: seq<real>) {
    var idx := ObservedIndices(bins);
    && |f| == |bins| && Indexes(bins, idx)
    && NonIncreasingOn(idx, f)
    && forall g: seq<real> :: |g| == |bins| && NonIncreasingOn(idx, g) ==>
         && Loss(bins, idx, f) <= Loss(bins, idx, g)
         && (Loss(bins, idx, f) == Loss(bins, idx, g) ==> AgreeOn(idx, f, g))
  }

  // ----- the distance between two curves

  ghost function Gap(bins: seq<DifficultyBin>, idx: seq<nat>, f: seq<real>, g: seq<real>): real
    requires Indexes(bins, idx) && |f| == |g| == |bins|
  {
    if idx == [] then 0.0
    else
      var i := idx[|idx| - 1];
      Gap(bins, idx[..|idx| - 1], f, g) + Weight(bins[i]) * Square(f[i] - g[i])
  }

  lemma WeightedSquarePositive(w: real, d: real)
    requires w > 0.0
    ensures w * Square(d) >= 0.0
    ensures w * Square(d) == 0.0 ==> d == 0.0
  {
    NonNegativeProduct(w, Square(d));
    if d != 0.0 {
      PositiveSquare(d);
      PositiveProduct(w, Square(d));
    }
  }

  lemma {:induction false} GapSeparates(bins: seq<DifficultyBin>, idx: seq<nat>, f: seq<real>, g: seq<real>)
    requires Indexes(bins, idx) && |f| == |g| == |bins|
    ensures Gap(bins, idx, f, g) >= 0.0
    ensures Gap(bins, idx, f, g) == 0.0 ==> AgreeOn(idx, f, g)
  {
    if idx != [] {
      var i := idx[|idx| - 1];
      GapSeparates(bins, idx[..|idx| - 1], f, g);
      WeightedSquarePositive(Weight(bins[i]), f[i] - g[i]);
    }
  }

  lemma {:induction false} LossConcat(bins: seq<DifficultyBin>, a: seq<nat>, b: seq<nat>, f: seq<real>, g: seq<real>)
    requires Indexes(bins, a) && Indexes(bins, b) && |f| == |g| == |bins|
    ensures Loss(bins, a + b, g) == Loss(bins, a, g) + Loss(bins, b, g)
    ensures Gap(bins, a + b, f, g) == Gap(bins, a, f, g) + Gap(bins, b, f, g)
  {
    hide BinLoss, Square;
    if b == [] {
      assert a + b == a;
    } else {
      LossConcat(bins, a, b[..|b| - 1], f, g);
      assert (a + b)[..|a + b| - 1] == a + b[..|b| - 1];
    }
  }

  // ----- one block

  /** Twice this is what the losses differ by, beyond the gap. */
  ghost function Cross(bins: seq<DifficultyBin>, idx: seq<nat>, m: real, g: seq<real>): real
    requires Indexes(bins, idx) && |g| == |bins|
  {
    if idx == [] then 0.0
    else
      var i := idx[|idx| - 1];
      Cross(bins, idx[..|idx| - 1], m, g) + BinExcess(bins[i], m) * (m - g[i])
  }

  lemma SquareOfSum(a: real, b: real)
    ensures Square(a + b) == Square(a) + Square(b) + 2.0 * (a * b)
  {}

  lemma WeightedPythagoras(w: real, r: real, m: real, v: real, e: real)
    requires e == w * (r - m)
    ensures w * Square(r - v) == w * Square(r - m) + w * Square(m - v) + 2.0 * (e * (m - v))
  {
    var a, b := r - m, m - v;
    SquareOfSum(a, b);
    var x, y, c := Square(a), Square(b), a * b;
    assert a + b == r - v;
    assert w * (x + y + 2.0 * c) == w * x + w * y + 2.0 * (w * c);
    assert w * c == (w * a) * b;
  }

  lemma ExcessIsWeighted(b: DifficultyBin, m: real)
    requires b.Trials() > 0
    ensures BinExcess(b, m) == Weight(b) * (b.Rate() - m)
  {
    var w, r := Weight(b), b.Rate();
    QuotientTimes(b.successes as real, w);
    assert w * (r - m) == r * w - m * w;
  }

  lemma BinLossSplits(b: DifficultyBin, m: real, v: real)
    requires b.Trials() > 0
    ensures BinLoss(b, v) == BinLoss(b, m) + Weight(b) * Square(m - v) + 2.0 * (BinExcess(b, m) * (m - v))
  {
    ExcessIsWeighted(b, m);
    WeightedPythagoras(Weight(b), b.Rate(), m, v, BinExcess(b, m));
  }

  lemma {:induction false} LossSplits(bins: seq<DifficultyBin>, idx: seq<nat>, m: real, f: seq<real>, g: seq<real>)
    requires Indexes(bins, idx) && |f| == |g| == |bins|
    requires forall k :: 0 <= k < |idx| ==> f[idx[k]] == m
    ensures Loss(bins, idx, g) == Loss(bins, idx, f) + Gap(bins, idx, f, g) + 2.0 * Cross(bins, idx, m, g)
  {
    if idx != [] {
      var i := idx[|idx| - 1];
      LossSplits(bins, idx[..|idx| - 1], m, f, g);
      BinLossSplits(bins[i], m, g[i]);
    }
  }

  /** Summation by parts: non-positive prefix excess against a non-increasing curve. */
  lemma {:induction false} CrossBound(bins: seq<DifficultyBin>, idx: seq<nat>, m: real, g: seq<real>, k: nat)
    requires Indexes(bins, idx) && |g| == |bins| && NonIncreasingOn(idx, g)
    requires PrefixBounded(bins, idx, m)
    requires 0 < k <= |idx|
    ensures Cross(bins, idx[..k], m, g) >= Excess(bins, idx[..k], m) * (m - g[idx[k - 1]])
  {
    hide Cross, Excess;
    var i := idx[k - 1];
    if k == 1 {
      assert idx[..k] == [i];
      CrossSingle(bins, i, m, g);
    } else {
      CrossBound(bins, idx, m, g, k - 1);
      assert idx[..k] == idx[..k - 1] + [i];
      CrossStep(bins, idx[..k - 1], i, m, g);
    }
  }

  lemma {:induction false} CrossSingle(bins: seq<DifficultyBin>, i: nat, m: real, g: seq<real>)
    requires i < |bins| && |g| == |bins| && bins[i].Trials() > 0
    ensures Cross(bins, [i], m, g) == Excess(bins, [i], m) * (m - g[i])
  {
    var e := BinExcess(bins[i], m);
    assert [i][..0] == [];
    assert Excess(bins, [i], m) == e;
  }

  lemma {:induction false} CrossStep(bins: seq<DifficultyBin>, before: seq<nat>, i: nat, m: real, g: seq<real>)
    requires before != [] && Indexes(bins, before + [i]) && |g| == |bins|
    requires Indexes(bins, before) && i < |bins| && g[before[|before| - 1]] >= g[i]
    requires Excess(bins, before, m) <= 0.0
    requires Cross(bins, before, m, g) >= Excess(bins, before, m) * (m - g[before[|before| - 1]])
    ensures Cross(bins, before + [i], m, g) >= Excess(bins, before + [i], m) * (m - g[i])
  {
    assert (before + [i])[..|before|] == before;
    assert (before + [i])[|before|] == i;
    var e := BinExcess(bins[i], m);
    var p, u, v := Excess(bins, before, m), m - g[before[|before| - 1]], m - g[i];
    StepBound(p, e, u, v);
  }

  lemma StepBound(p: real, e: real, u: real, v: real)
    requires p <= 0.0 && u <= v
    ensures p * u + e * v >= (p + e) * v
  {
    ScaleOrder(u, v, -p);
    assert (p + e) * v == p * v + e * v;
  }

  lemma {:induction false} BlockOptimal(bins: seq<DifficultyBin>, b: PavaBlock, f: seq<real>, g: seq<real>)
    requires BlockOf(bins, b) && |f| == |g| == |bins|
    requires forall k :: 0 <= k < |b.indices| ==> f[b.indices[k]] == b.Mean()
    requires NonIncreasingOn(b.indices, g)
    ensures Loss(bins, b.indices, g) >= Loss(bins, b.indices, f) + Gap(bins, b.indices, f, g)
  {
    var idx, m := b.indices, b.Mean();
    LossSplits(bins, idx, m, f, g);
    ExcessOfBlock(bins, b);
    CrossBound(bins, idx, m, g, |idx|);
    assert idx[..|idx|] == idx;
    assert 0.0 * (m - g[idx[|idx| - 1]]) == 0.0;
  }

  // ----- all blocks

  ghost predicate TakesBlockMeans(blocks: seq<PavaBlock>, f: seq<real>) {
    forall j, k :: 0 <= j < |blocks| && 0 <= k < |blocks[j].indices| && blocks[j].indices[k] < |f| ==>
      f[blocks[j].indices[k]] == blocks[j].Mean()
  }

  lemma NonIncreasingParts(a: seq<nat>, b: seq<nat>, g: seq<real>)
    requires NonIncreasingOn(a + b, g)
    ensures NonIncreasingOn(a, g) && NonIncreasingOn(b, g)
  {
    assert forall k :: 0 <= k < |a| ==> a[k] == (a + b)[k];
    assert forall k :: 0 <= k < |b| ==> b[k] == (a + b)[|a| + k];
  }

  lemma {:induction false} BlocksOptimal(bins: seq<DifficultyBin>, blocks: seq<PavaBlock>, f: seq<real>, g: seq<real>)
    requires Pooled(bins, blocks) && |f| == |g| == |bins|
    requires TakesBlockMeans(blocks, f) && NonIncreasingOn(Flat(blocks), g)
    ensures Indexes(bins, Flat(blocks))
    ensures Loss(bins, Flat(blocks), g) >= Loss(bins, Flat(blocks), f) + Gap(bins, Flat(blocks), f, g)
  {
    if blocks != [] {
      var n := |blocks| - 1;
      var a, b := Flat(blocks[..n]), blocks[n].indices;
      NonIncreasingParts(a, b, g);
      BlocksOptimal(bins, blocks[..n], f, g);
      BlockOptimal(bins, blocks[n], f, g);
      LossConcat(bins, a, b, f, g);
      LossConcat(bins, a, b, f, f);
    }
  }

  /** Descending block means make the fitted curve non-increasing. */
  lemma {:induction false} FittedNonIncreasing(bins: seq<DifficultyBin>, blocks: seq<PavaBlock>, f: seq<real>)
    requires Pooled(bins, blocks) && Descending(blocks, |blocks|) && |f| == |bins|
    requires TakesBlockMeans(blocks, f)
    ensures NonIncreasingOn(Flat(blocks), f)
    ensures blocks != [] ==>
      forall k :: 0 <= k < |Flat(blocks)| ==> f[Flat(blocks)[k]] >= blocks[|blocks| - 1].Mean()
  {
    if blocks != [] {
      var n := |blocks| - 1;
      var a, b := Flat(blocks[..n]), blocks[n].indices;
      FittedNonIncreasing(bins, blocks[..n], f);
      forall k | 0 <= k < |a + b|
        ensures (a + b)[k] < |f| && f[(a + b)[k]] >= blocks[n].Mean()
        ensures k >= |a| ==> f[(a + b)[k]] == blocks[n].Mean()
      {
        if k >= |a| { assert (a + b)[k] == b[k - |a|]; }
      }
      forall j, k | 0 <= j < k < |a + b| ensures f[(a + b)[j]] >= f[(a + b)[k]] {
        if k < |a| { assert (a + b)[j] == a[j] && (a + b)[k] == a[k]; }
      }
    }
  }

  /** The main result about the loop. */
  lemma {:induction false} PoolingIsBestFit(bins: seq<DifficultyBin>, blocks: seq<PavaBlock>, f: seq<real>)
    requires Fits(bins, ObservedIndices(bins), blocks) && Descending(blocks, |blocks|)
    requires |f| == |bins| && TakesBlockMeans(blocks, f)
    ensures UniqueBestFit(bins, f)
  {
    var idx := ObservedIndices(bins);
    ObservedIndicesOrdered(bins);
    FittedNonIncreasing(bins, blocks, f);
    forall g: seq<real> | |g| == |bins| && NonIncreasingOn(idx, g)
      ensures Loss(bins, idx, f) <= Loss(bins, idx, g)
      ensures Loss(bins, idx, f) == Loss(bins, idx, g) ==> AgreeOn(idx, f, g)
    {
      BlocksOptimal(bins, blocks, f, g);
      GapSeparates(bins, idx, f, g);
    }
  }

  // ----- when nothing needs pooling

  function CountRises(rates: seq<RawRate>): nat {
    if |rates| < 2 then 0
    else
      var n := |rates| - 1;
      CountRises(rates[..n]) + (if rates[n - 1].rate < rates[n].rate then 1 else 0)
  }

  /** Observed bin `k` has a higher rate than the observed bin before it. */
  ghost predicate RisesAt(bins: seq<DifficultyBin>, idx: seq<nat>, k: nat)
    requires Indexes(bins, idx) && k < |idx|
  {
    k > 0 && bins[idx[k - 1]].Rate() < bins[idx[k]].Rate()
  }

  ghost function Rises(bins: seq<DifficultyBin>, idx: seq<nat>): set<nat>
    requires Indexes(bins, idx)
  {
    set k: nat | k < |idx| && RisesAt(bins, idx, k)
  }

  ghost predicate RateRises(rates: seq<RawRate>, k: nat)
    requires k < |rates|
  {
    k > 0 && rates[k - 1].rate < rates[k].rate
  }

  lemma {:induction false} CountIsRises(rates: seq<RawRate>)
    ensures CountRises(rates) == |set k: nat | k < |rates| && RateRises(rates, k)|
  {
    var rises := set k: nat | k < |rates| && RateRises(rates, k);
    if |rates| < 2 {
      assert rises == {};
    } else {
      var n := |rates| - 1;
      CountIsRises(rates[..n]);
      var before := set k: nat | k < |rates[..n]| && RateRises(rates[..n], k);
      assert rises == if RateRises(rates, n) then before + {n} else before;
    }
  }

  /** The count of monotonic violations is the number of observed bins that do better than the one
      before. */
  lemma ViolationsAreRises(bins: seq<DifficultyBin>)
    ensures Indexes(bins, ObservedIndices(bins))
    ensures CountRises(RawRates(bins)) == |Rises(bins, ObservedIndices(bins))|
  {
    var rates := RawRates(bins);
    RawRatesAt(bins);
    CountIsRises(rates);
    assert Rises(bins, ObservedIndices(bins)) == set k: nat | k < |rates| && RateRises(rates, k);
  }

  ghost predicate HasRawRates(bins: seq<DifficultyBin>, f: seq<real>) {
    forall i :: 0 <= i < |bins| && i < |f| && bins[i].Trials() > 0 ==> f[i] == bins[i].Rate()
  }

  lemma {:induction false} NoRises(rates: seq<RawRate>)
    ensures CountRises(rates) == 0 <==>
      forall j, k :: 0 <= j < k < |rates| ==> rates[j].rate >= rates[k].rate
  {
    if |rates| >= 2 {
      var n := |rates| - 1;
      NoRises(rates[..n]);
      if CountRises(rates) == 0 {
        assert rates[n - 1].rate >= rates[n].rate;
        forall j, k | 0 <= j < k < |rates| ensures rates[j].rate >= rates[k].rate {
          if k < n { assert rates[..n][j].rate >= rates[..n][k].rate; }
          else if j < n - 1 { assert rates[..n][j].rate >= rates[..n][n - 1].rate; }
        }
      }
    }
  }

  lemma {:induction false} RawLossIsZero(bins: seq<DifficultyBin>, idx: seq<nat>, f: seq<real>)
    requires Indexes(bins, idx) && |f| == |bins| && HasRawRates(bins, f)
    ensures Loss(bins, idx, f) == 0.0
  {
    if idx != [] {
      var i := idx[|idx| - 1];
      RawLossIsZero(bins, idx[..|idx| - 1], f);
      assert Square(0.0) == 0.0;
    }
  }

  lemma {:induction false} LossNonNegative(bins: seq<DifficultyBin>, idx: seq<nat>, f: seq<real>)
    requires Indexes(bins, idx) && |f| == |bins|
    ensures Loss(bins, idx, f) >= 0.0
  {
    if idx != [] {
      var i := idx[|idx| - 1];
      LossNonNegative(bins, idx[..|idx| - 1], f);
      WeightedSquarePositive(Weight(bins[i]), bins[i].Rate() - f[i]);
    }
  }

  /** The fit leaves the raw rates alone exactly when the violation count is zero. */
  lemma UnchangedIffNoViolations(bins: seq<DifficultyBin>, f: seq<real>)
    requires UniqueBestFit(bins, f)
    ensures HasRawRates(bins, f) <==> CountRises(RawRates(bins)) == 0
  {
    NoRises(RawRates(bins));
    if HasRawRates(bins, f) {
      RatesFollow(bins, f);
    }
    if CountRises(RawRates(bins)) == 0 {
      var raw := seq(|bins|, i requires 0 <= i < |bins| =>
        if bins[i].Trials() > 0 then bins[i].Rate() else 0.0);
      RatesFollow(bins, raw);
      RawIsBest(bins, f, raw);
    }
  }

  /** Rates read off in order are non-increasing exactly when the curve holding them is. */
  lemma {:induction false} RatesFollow(bins: seq<DifficultyBin>, f: seq<real>)
    requires |f| == |bins| && HasRawRates(bins, f)
    ensures NonIncreasingOn(ObservedIndices(bins), f) <==>
      forall j, k :: 0 <= j < k < |RawRates(bins)| ==> RawRates(bins)[j].rate >= RawRates(bins)[k].rate
  {
    var idx, rates := ObservedIndices(bins), RawRates(bins);
    RawRatesAt(bins);
    forall k | 0 <= k < |rates| ensures rates[k].rate == f[idx[k]] {
      assert rates[k].index == idx[k];
    }
  }

  lemma RawIsBest(bins: seq<DifficultyBin>, f: seq<real>, raw: seq<real>)
    requires UniqueBestFit(bins, f)
    requires |raw| == |bins| && HasRawRates(bins, raw) && NonIncreasingOn(ObservedIndices(bins), raw)
    ensures HasRawRates(bins, f)
  {
    var idx := ObservedIndices(bins);
    RawLossIsZero(bins, idx, raw);
    LossNonNegative(bins, idx, f);
    assert AgreeOn(idx, f, raw);
    forall i | 0 <= i < |bins| && bins[i].Trials() > 0 ensures f[i] == bins[i].Rate() {
      ObservedIndicesComplete(bins, i);
      var k :| 0 <= k < |idx| && idx[k] == i;
      assert f[idx[k]] == raw[idx[k]];
    }
  }
}
