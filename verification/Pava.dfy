/** The weighted pool-adjacent-violators loop of `build_capability_curve`, and why the block means
    it leaves are the best non-increasing fit. */
module Pava {
  import opened Finite
  import opened Reals
  import opened Wilson

  datatype DifficultyBin = DifficultyBin(
    difficulty: real, planned: nat, successes: nat, failures: nat, missing: nat)
  {
    function Trials(): nat { successes + failures }

    function Rate(): real
      requires Trials() > 0
    {
      Proportion(successes, Trials())
    }
  }

  type pos = n: nat | n > 0 witness 1

  datatype PavaBlock = PavaBlock(indices: seq<nat>, successes: nat, trials: pos) {
    function Mean(): real { Proportion(successes, trials) }
  }

  datatype RawRate = RawRate(index: nat, rate: real)

  // ----- what the loop is about

  /** Indices of the bins with at least one observed outcome, in order. */
  function ObservedIndices(bins: seq<DifficultyBin>): seq<nat> {
    if bins == [] then []
    else
      var last := |bins| - 1;
      var before := ObservedIndices(bins[..last]);
      if bins[last].Trials() > 0 then before + [last] else before
  }

  ghost predicate Indexes(bins: seq<DifficultyBin>, idx: seq<nat>) {
    forall k :: 0 <= k < |idx| ==> idx[k] < |bins| && bins[idx[k]].Trials() > 0
  }

  ghost function SumSuccesses(bins: seq<DifficultyBin>, idx: seq<nat>): nat
    requires Indexes(bins, idx)
  {
    if idx == [] then 0
    else SumSuccesses(bins, idx[..|idx| - 1]) + bins[idx[|idx| - 1]].successes
  }

  ghost function SumTrials(bins: seq<DifficultyBin>, idx: seq<nat>): (n: nat)
    requires Indexes(bins, idx)
    ensures idx != [] ==> n > 0
  {
    if idx == [] then 0
    else SumTrials(bins, idx[..|idx| - 1]) + bins[idx[|idx| - 1]].Trials()
  }

  ghost function Flat(blocks: seq<PavaBlock>): seq<nat> {
    if blocks == [] then [] else Flat(blocks[..|blocks| - 1]) + blocks[|blocks| - 1].indices
  }

  /** Successes of a bin in excess of what rate `m` would give. */
  function BinExcess(b: DifficultyBin, m: real): real {
    b.successes as real - m * b.Trials() as real
  }

  ghost function Excess(bins: seq<DifficultyBin>, idx: seq<nat>, m: real): real
    requires Indexes(bins, idx)
  {
    if idx == [] then 0.0
    else Excess(bins, idx[..|idx| - 1], m) + BinExcess(bins[idx[|idx| - 1]], m)
  }

  ghost predicate PrefixBounded(bins: seq<DifficultyBin>, idx: seq<nat>, m: real)
    requires Indexes(bins, idx)
  {
    forall k :: 0 <= k <= |idx| ==> Excess(bins, idx[..k], m) <= 0.0
  }

  /** A block conserves the counts of its bins, and no prefix of it does better than the whole. */
  ghost predicate BlockOf(bins: seq<DifficultyBin>, b: PavaBlock) {
    && b.indices != []
    && Indexes(bins, b.indices)
    && b.successes == SumSuccesses(bins, b.indices)
    && b.trials == SumTrials(bins, b.indices)
    && PrefixBounded(bins, b.indices, b.Mean())
  }

  ghost predicate Pooled(bins: seq<DifficultyBin>, blocks: seq<PavaBlock>) {
    forall k :: 0 <= k < |blocks| ==> BlockOf(bins, blocks[k])
  }

  /** The stack after the loop has consumed the bins of `seen`. */
  ghost predicate Fits(bins: seq<DifficultyBin>, seen: seq<nat>, blocks: seq<PavaBlock>) {
    Pooled(bins, blocks) && Flat(blocks) == seen
  }

  /** Block means never rise from one block to the next, up to block `upto`. */
  ghost predicate Descending(blocks: seq<PavaBlock>, upto: int) {
    forall k :: 0 < k < |blocks| && k <= upto ==> blocks[k - 1].Mean() >= blocks[k].Mean()
  }

  // ----- pooling two blocks

  function Merge(left: PavaBlock, right: PavaBlock): PavaBlock {
    PavaBlock(left.indices + right.indices, left.successes + right.successes, left.trials + right.trials)
  }

  lemma {:induction false} SumsConcat(bins: seq<DifficultyBin>, a: seq<nat>, b: seq<nat>)
    requires Indexes(bins, a) && Indexes(bins, b)
    ensures Indexes(bins, a + b)
    ensures SumSuccesses(bins, a + b) == SumSuccesses(bins, a) + SumSuccesses(bins, b)
    ensures SumTrials(bins, a + b) == SumTrials(bins, a) + SumTrials(bins, b)
  {
    if b == [] {
      assert a + b == a;
    } else {
      SumsConcat(bins, a, b[..|b| - 1]);
      assert (a + b)[..|a + b| - 1] == a + b[..|b| - 1];
    }
  }

  lemma MeanBetween(sl: nat, tl: nat, sr: nat, tr: nat)
    requires tl > 0 && tr > 0
    requires Proportion(sl, tl) < Proportion(sr, tr)
    ensures Proportion(sl, tl) <= Proportion(sl + sr, tl + tr) <= Proportion(sr, tr)
  {
    var l, r, m := Proportion(sl, tl), Proportion(sr, tr), Proportion(sl + sr, tl + tr);
    var a, b := tl as real, tr as real;
    QuotientTimes(sl as real, a);
    QuotientTimes(sr as real, b);
    QuotientTimes((sl + sr) as real, (tl + tr) as real);
    Distribute(m, a, b);
    BetweenWeighted(l, r, m, a, b);
  }

  lemma BetweenWeighted(l: real, r: real, m: real, a: real, b: real)
    requires a > 0.0 && b > 0.0 && l < r && m * a + m * b == l * a + r * b
    ensures l <= m <= r
  {
    AboveLesser(l, r, m, a, b);
    AboveLesser(-r, -l, -m, b, a);
  }

  lemma AboveLesser(l: real, r: real, m: real, a: real, b: real)
    requires a > 0.0 && b > 0.0 && l < r && m * a + m * b == l * a + r * b
    ensures l <= m
  {
    if m < l {
      PositiveProduct(l - m, a);
      ScaleOrder(m, r, b);
    }
  }

  /** The excess over a larger rate is smaller. */
  lemma {:induction false} ExcessMonotone(bins: seq<DifficultyBin>, idx: seq<nat>, m: real, m': real)
    requires Indexes(bins, idx) && m <= m'
    ensures Excess(bins, idx, m') <= Excess(bins, idx, m)
  {
    if idx != [] {
      ExcessMonotone(bins, idx[..|idx| - 1], m, m');
      ScaleOrder(m, m', bins[idx[|idx| - 1]].Trials() as real);
    }
  }

  lemma {:induction false} ExcessTotal(bins: seq<DifficultyBin>, idx: seq<nat>, m: real)
    requires Indexes(bins, idx)
    ensures Excess(bins, idx, m) == SumSuccesses(bins, idx) as real - m * SumTrials(bins, idx) as real
  {
    if idx != [] {
      var before := idx[..|idx| - 1];
      ExcessTotal(bins, before, m);
      Distribute(m, SumTrials(bins, before) as real, bins[idx[|idx| - 1]].Trials() as real);
    }
  }

  lemma {:induction false} ExcessOfBlock(bins: seq<DifficultyBin>, b: PavaBlock)
    requires b.indices != [] && Indexes(bins, b.indices)
    requires b.successes == SumSuccesses(bins, b.indices) && b.trials == SumTrials(bins, b.indices)
    ensures Excess(bins, b.indices, b.Mean()) == 0.0
  {
    ExcessTotal(bins, b.indices, b.Mean());
    QuotientTimes(b.successes as real, b.trials as real);
  }

  lemma {:induction false} ExcessConcat(bins: seq<DifficultyBin>, a: seq<nat>, b: seq<nat>, m: real)
    requires Indexes(bins, a) && Indexes(bins, b)
    ensures Indexes(bins, a + b)
    ensures Excess(bins, a + b, m) == Excess(bins, a, m) + Excess(bins, b, m)
  {
    if b == [] {
      assert a + b == a;
    } else {
      ExcessConcat(bins, a, b[..|b| - 1], m);
      assert (a + b)[..|a + b| - 1] == a + b[..|b| - 1];
    }
  }

  /** What remains of a block after a prefix has non-negative excess over any smaller rate. */
  lemma {:induction false} SuffixExcess(bins: seq<DifficultyBin>, b: PavaBlock, k: nat, m: real)
    requires BlockOf(bins, b) && k <= |b.indices| && m <= b.Mean()
    ensures Excess(bins, b.indices[k..], m) >= 0.0
  {
    assert b.indices == b.indices[..k] + b.indices[k..];
    ExcessConcat(bins, b.indices[..k], b.indices[k..], b.Mean());
    ExcessOfBlock(bins, b);
    ExcessMonotone(bins, b.indices[k..], m, b.Mean());
  }

  lemma {:induction false} MergeIsBlock(bins: seq<DifficultyBin>, left: PavaBlock, right: PavaBlock)
    requires BlockOf(bins, left) && BlockOf(bins, right) && left.Mean() < right.Mean()
    ensures BlockOf(bins, Merge(left, right))
  {
    var b := Merge(left, right);
    SumsConcat(bins, left.indices, right.indices);
    MeanBetween(left.successes, left.trials, right.successes, right.trials);
    ExcessOfBlock(bins, b);
    forall k | 0 <= k <= |b.indices|
      ensures Excess(bins, b.indices[..k], b.Mean()) <= 0.0
    {
      MergedPrefix(bins, left, right, b.Mean(), k);
    }
  }

  lemma {:induction false} MergedPrefix(bins: seq<DifficultyBin>, left: PavaBlock, right: PavaBlock, m: real, k: nat)
    requires BlockOf(bins, left) && BlockOf(bins, right) && left.Mean() <= m <= right.Mean()
    requires var idx := left.indices + right.indices;
             k <= |idx| && Indexes(bins, idx) && Excess(bins, idx, m) == 0.0
    ensures Excess(bins, (left.indices + right.indices)[..k], m) <= 0.0
  {
    var n, idx := |left.indices|, left.indices + right.indices;
    if k <= n {
      assert idx[..k] == left.indices[..k];
      ExcessMonotone(bins, left.indices[..k], left.Mean(), m);
    } else {
      SuffixExcess(bins, right, k - n, m);
      assert idx[k..] == right.indices[k - n..];
      PrefixFromSuffix(bins, idx, k, m);
    }
  }

  lemma {:induction false} PrefixFromSuffix(bins: seq<DifficultyBin>, idx: seq<nat>, k: nat, m: real)
    requires k <= |idx| && Indexes(bins, idx)
    requires Excess(bins, idx, m) == 0.0 && Excess(bins, idx[k..], m) >= 0.0
    ensures Excess(bins, idx[..k], m) <= 0.0
  {
    assert idx == idx[..k] + idx[k..];
    ExcessConcat(bins, idx[..k], idx[k..], m);
  }

  // ----- the loop

  lemma {:induction false} SingletonIsBlock(bins: seq<DifficultyBin>, i: nat)
    requires i < |bins| && bins[i].Trials() > 0
    ensures BlockOf(bins, PavaBlock([i], bins[i].successes, bins[i].Trials()))
  {
    var b := PavaBlock([i], bins[i].successes, bins[i].Trials());
    assert [i][..0] == [];
    assert SumSuccesses(bins, [i]) == SumSuccesses(bins, []) + bins[i].successes;
    assert SumTrials(bins, [i]) == SumTrials(bins, []) + bins[i].Trials();
    ExcessOfBlock(bins, b);
    forall k | 0 <= k <= 1
      ensures Excess(bins, [i][..k], b.Mean()) <= 0.0
    {
      assert [i][..k] == if k == 0 then [] else [i];
    }
  }

  /** The observed (index, rate) pairs, in order. */
  function RawRates(bins: seq<DifficultyBin>): seq<RawRate> {
    if bins == [] then []
    else
      var last := |bins| - 1;
      var before := RawRates(bins[..last]);
      if bins[last].Trials() > 0 then before + [RawRate(last, bins[last].Rate())] else before
  }

  lemma {:induction false} ObservedIndicesOrdered(bins: seq<DifficultyBin>)
    ensures Indexes(bins, ObservedIndices(bins)) && StrictlyIncreasing(ObservedIndices(bins))
  {
    if bins != [] {
      ObservedIndicesOrdered(bins[..|bins| - 1]);
    }
  }

  /** Exactly the observed bins are listed. */
  lemma {:induction false} ObservedIndicesComplete(bins: seq<DifficultyBin>, i: nat)
    ensures i in ObservedIndices(bins) <==> i < |bins| && bins[i].Trials() > 0
  {
    if bins != [] {
      ObservedIndicesComplete(bins[..|bins| - 1], i);
    }
  }

  lemma {:induction false} RawRatesAt(bins: seq<DifficultyBin>)
    ensures Indexes(bins, ObservedIndices(bins))
    ensures |RawRates(bins)| == |ObservedIndices(bins)|
    ensures forall k :: 0 <= k < |RawRates(bins)| ==>
      RawRates(bins)[k] == RawRate(ObservedIndices(bins)[k], bins[ObservedIndices(bins)[k]].Rate())
  {
    if bins != [] {
      RawRatesAt(bins[..|bins| - 1]);
    }
  }

  method FitBlocks(bins: seq<DifficultyBin>) returns (rates: seq<RawRate>, blocks: seq<PavaBlock>)
    ensures rates == RawRates(bins)
    ensures Fits(bins, ObservedIndices(bins), blocks) && Descending(blocks, |blocks|)
  {
    rates, blocks := [], [];
    for index := 0 to |bins|
      invariant rates == RawRates(bins[..index])
      invariant Fits(bins, ObservedIndices(bins[..index]), blocks) && Descending(blocks, |blocks|)
    {
      var item := bins[index];
      var trials := item.Trials();
      assert bins[..index + 1][..index] == bins[..index];
      if trials == 0 { continue; }
      rates := rates + [RawRate(index, item.Rate())];
      PushKeeps(bins, ObservedIndices(bins[..index]), blocks, index);
      blocks := blocks + [PavaBlock([index], item.successes, trials)];
      while |blocks| >= 2 && blocks[|blocks| - 2].Mean() < blocks[|blocks| - 1].Mean()
        invariant Fits(bins, ObservedIndices(bins[..index + 1]), blocks)
        invariant Descending(blocks, |blocks| - 2)
        decreases |blocks|
      {
        var right := blocks[|blocks| - 1];
        var left := blocks[|blocks| - 2];
        PoolKeeps(bins, ObservedIndices(bins[..index + 1]), blocks);
        blocks := blocks[..|blocks| - 2] + [Merge(left, right)];
      }
    }
    assert bins[..|bins|] == bins;
  }

  lemma {:induction false} PushKeeps(bins: seq<DifficultyBin>, seen: seq<nat>, blocks: seq<PavaBlock>, i: nat)
    requires i < |bins| && bins[i].Trials() > 0
    requires Fits(bins, seen, blocks) && Descending(blocks, |blocks|)
    ensures var pushed := blocks + [PavaBlock([i], bins[i].successes, bins[i].Trials())];
            Fits(bins, seen + [i], pushed) && Descending(pushed, |pushed| - 2)
  {
    var b := PavaBlock([i], bins[i].successes, bins[i].Trials());
    SingletonIsBlock(bins, i);
    FlatPush(blocks, b);
  }

  lemma {:induction false} PoolKeeps(bins: seq<DifficultyBin>, seen: seq<nat>, blocks: seq<PavaBlock>)
    requires Fits(bins, seen, blocks) && Descending(blocks, |blocks| - 2)
    requires |blocks| >= 2 && blocks[|blocks| - 2].Mean() < blocks[|blocks| - 1].Mean()
    ensures var n := |blocks|;
            var pooled := blocks[..n - 2] + [Merge(blocks[n - 2], blocks[n - 1])];
            Fits(bins, seen, pooled) && Descending(pooled, |pooled| - 2)
  {
    FlatMergeLast(blocks);
    MergeIsBlock(bins, blocks[|blocks| - 2], blocks[|blocks| - 1]);
  }

  lemma {:induction false} FlatPush(blocks: seq<PavaBlock>, b: PavaBlock)
    ensures Flat(blocks + [b]) == Flat(blocks) + b.indices
  {
    assert (blocks + [b])[..|blocks|] == blocks;
  }

  lemma {:induction false} FlatMergeLast(blocks: seq<PavaBlock>)
    requires |blocks| >= 2
    ensures var n := |blocks|;
            Flat(blocks[..n - 2] + [Merge(blocks[n - 2], blocks[n - 1])]) == Flat(blocks)
  {
    var n := |blocks|;
    var below, left, right := blocks[..n - 2], blocks[n - 2], blocks[n - 1];
    assert blocks == below + [left] + [right];
    FlatPush(below, left);
    FlatPush(below + [left], right);
    FlatPush(below, Merge(left, right));
  }
}
