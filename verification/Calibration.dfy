/** `calibration_metrics`: binning by confidence, and the inequalities between its scores. */
module Calibration {
  import opened Prelude
  import opened Reals

  datatype Observation = Observation(
    id: string, answered: bool, correct: Option<bool>, confidence: Option<real>, missing: bool)
  {
    /** The record's own validator. */
    predicate Valid() {
      && (confidence.Some? ==> 0.0 <= confidence.value <= 1.0)
      && if missing then !answered && correct.None? && confidence.None?
         else if answered then correct.Some? && confidence.Some?
         else correct.None?
    }
  }

  /** What an answered observation contributes. */
  datatype Answer = Answer(correct: bool, confidence: real) {
    function Score(): real { if correct then 1.0 else 0.0 }
  }

  type ValidObservation = o: Observation | o.Valid() witness Observation("", false, None, None, true)

  datatype CalibrationBin = CalibrationBin(count: nat, meanConfidence: Option<real>, accuracy: Option<real>)

  datatype Scores = Scores(accuracy: real, meanConfidence: real, brier: real, calibrationError: real)

  /** How many answers reach a confidence threshold, out of all planned, and how accurate they are. */
  datatype SelectivePoint = SelectivePoint(threshold: real, retained: nat, coverage: real, accuracy: Option<real>)

  datatype Metrics = Metrics(
    planned: nat, answered: nat, abstained: nat, missing: nat, scores: Option<Scores>, bins: seq<CalibrationBin>,
    selective: seq<SelectivePoint>)

  datatype CalibrationError = BadBinCount | DuplicateId | ThresholdOutOfRange | ThresholdsNotIncreasing

  // ----- sums

  function Sum(s: seq<Answer>, w: Answer -> real): real {
    if s == [] then 0.0 else Sum(s[..|s| - 1], w) + w(s[|s| - 1])
  }

  function Scored(): Answer -> real { (a: Answer) => a.Score() }

  function Confident(): Answer -> real { (a: Answer) => a.confidence }

  function Deviation(): Answer -> real { (a: Answer) => a.Score() - a.confidence }

  function AbsDeviation(): Answer -> real { (a: Answer) => Abs(a.Score() - a.confidence) }

  function SquaredDeviation(): Answer -> real { (a: Answer) => Square(a.confidence - a.Score()) }

  function Unit(): Answer -> real { (a: Answer) => 1.0 }

  function Answers(observations: seq<ValidObservation>): seq<Answer> {
    if observations == [] then []
    else
      var o := observations[|observations| - 1];
      Answers(observations[..|observations| - 1])
        + (if o.answered then [Answer(o.correct.value, o.confidence.value)] else [])
  }

  function CountMissing(observations: seq<ValidObservation>): nat {
    if observations == [] then 0
    else CountMissing(observations[..|observations| - 1])
         + (if observations[|observations| - 1].missing then 1 else 0)
  }

  ghost predicate InRange(answers: seq<Answer>) {
    forall k :: 0 <= k < |answers| ==> 0.0 <= answers[k].confidence <= 1.0
  }

  lemma {:induction false} AnswersInRange(observations: seq<ValidObservation>)
    ensures InRange(Answers(observations))
    ensures |Answers(observations)| + CountMissing(observations) <= |observations|
  {
    if observations != [] {
      AnswersInRange(observations[..|observations| - 1]);
    }
  }

  // ----- bins

  /** The code's membership test for bin `i` of `bins`. */
  predicate InBin(a: Answer, i: nat, bins: nat)
    requires i < bins
  {
    var lower, upper := i as real / bins as real, (i + 1) as real / bins as real;
    lower <= a.confidence && (a.confidence < upper || (i == bins - 1 && a.confidence <= upper))
  }

  function Members(answers: seq<Answer>, i: nat, bins: nat): (m: seq<Answer>)
    requires i < bins
    ensures |m| <= |answers|
  {
    if answers == [] then []
    else
      var a := answers[|answers| - 1];
      Members(answers[..|answers| - 1], i, bins) + (if InBin(a, i, bins) then [a] else [])
  }

  /** The confidence in units of the bin width. */
  function Scaled(a: Answer, bins: nat): real { a.confidence * bins as real }

  /** The one bin an answer falls into. */
  function BinOf(a: Answer, bins: nat): nat
    requires bins > 0 && a.confidence >= 0.0
  {
    NonNegativeProduct(a.confidence, bins as real);
    BinAt(Scaled(a, bins), bins)
  }

  function BinAt(y: real, bins: nat): nat
    requires bins > 0 && y >= 0.0
  {
    if y.Floor >= bins then bins - 1 else y.Floor
  }

  /** Whether `y` lies in unit interval `i`, the last one closed. */
  predicate InUnit(y: real, i: nat, bins: nat) {
    i as real <= y && (y < (i + 1) as real || (i == bins - 1 && y <= (i + 1) as real))
  }

  lemma InBinScaled(a: Answer, i: nat, bins: nat)
    requires i < bins
    ensures InBin(a, i, bins) <==> InUnit(Scaled(a, bins), i, bins)
  {
    var n, c := bins as real, a.confidence;
    ScaledComparison(c, i as real, n);
    ScaledComparison(c, (i + 1) as real, n);
  }

  lemma ScaledRange(a: Answer, bins: nat)
    requires 0.0 <= a.confidence <= 1.0
    ensures 0.0 <= Scaled(a, bins) <= bins as real
  {
    ProductWithin(a.confidence, bins as real);
  }

  lemma ScaledComparison(c: real, x: real, n: real)
    requires n > 0.0
    ensures x / n <= c <==> x <= c * n
    ensures c < x / n <==> c * n < x
    ensures c <= x / n <==> c * n <= x
  {
    QuotientTimes(x, n);
    OrderTimes(x / n, c, n);
  }

  /** Every confidence in [0, 1] falls into exactly one bin. */
  lemma ExactlyOneBin(a: Answer, bins: nat, i: nat)
    requires bins > 0 && 0.0 <= a.confidence <= 1.0 && i < bins
    ensures BinOf(a, bins) < bins
    ensures InBin(a, i, bins) <==> i == BinOf(a, bins)
  {
    hide InBin, BinAt, InUnit, Scaled;
    InBinScaled(a, i, bins);
    ScaledRange(a, bins);
    OneInterval(Scaled(a, bins), bins, i);
  }

  /** The unit intervals cut [0, bins] into disjoint parts. */
  lemma OneInterval(y: real, bins: nat, i: nat)
    requires 0.0 <= y <= bins as real && i < bins
    ensures BinAt(y, bins) < bins
    ensures InUnit(y, i, bins) <==> i == BinAt(y, bins)
  {}

  // ----- summing over the bins is summing over the answers

  /** Sum over the first `k` bins of the sum over the bin's members. */
  ghost function BinnedSum(answers: seq<Answer>, w: Answer -> real, bins: nat, k: nat): real
    requires k <= bins
  {
    if k == 0 then 0.0 else BinnedSum(answers, w, bins, k - 1) + Sum(Members(answers, k - 1, bins), w)
  }

  lemma {:induction false} BinnedSumAdds(answers: seq<Answer>, a: Answer, w: Answer -> real, bins: nat, k: nat)
    requires 0 < bins && k <= bins && 0.0 <= a.confidence <= 1.0
    ensures BinOf(a, bins) < bins
    ensures BinnedSum(answers + [a], w, bins, k)
         == BinnedSum(answers, w, bins, k) + (if BinOf(a, bins) < k then w(a) else 0.0)
  {
    hide InBin, BinOf, Members, Sum;
    ExactlyOneBin(a, bins, 0);
    if k > 0 {
      BinnedSumAdds(answers, a, w, bins, k - 1);
      ExactlyOneBin(a, bins, k - 1);
      MembersAdd(answers, a, k - 1, bins);
      SumAdds(Members(answers, k - 1, bins), a, w);
    }
  }

  lemma MembersAdd(answers: seq<Answer>, a: Answer, i: nat, bins: nat)
    requires i < bins
    ensures Members(answers + [a], i, bins)
         == if InBin(a, i, bins) then Members(answers, i, bins) + [a] else Members(answers, i, bins)
  {
    hide InBin;
    assert (answers + [a])[..|answers|] == answers;
    var m := Members(answers, i, bins);
    assert m + [] == m;
  }

  lemma SumAdds(answers: seq<Answer>, a: Answer, w: Answer -> real)
    ensures Sum(answers + [a], w) == Sum(answers, w) + w(a)
  {
    assert (answers + [a])[..|answers|] == answers;
  }

  /** Every answered observation is counted in exactly one bin, whatever is being summed. */
  lemma {:induction false} BinsPartition(answers: seq<Answer>, w: Answer -> real, bins: nat)
    requires bins > 0 && InRange(answers)
    ensures BinnedSum(answers, w, bins, bins) == Sum(answers, w)
  {
    if answers == [] {
      BinnedSumEmpty(w, bins, bins);
    } else {
      var init, a := answers[..|answers| - 1], answers[|answers| - 1];
      assert answers == init + [a];
      BinsPartition(init, w, bins);
      BinnedSumAdds(init, a, w, bins, bins);
    }
  }

  lemma {:induction false} BinnedSumEmpty(w: Answer -> real, bins: nat, k: nat)
    requires k <= bins
    ensures BinnedSum([], w, bins, k) == 0.0
  {
    if k > 0 {
      BinnedSumEmpty(w, bins, k - 1);
    }
  }

  // ----- relations between the sums

  lemma {:induction false} SumOfUnits(answers: seq<Answer>)
    ensures Sum(answers, Unit()) == |answers| as real
  {
    if answers != [] {
      SumOfUnits(answers[..|answers| - 1]);
    }
  }

  lemma {:induction false} SumOfDeviations(answers: seq<Answer>)
    ensures Sum(answers, Deviation()) == Sum(answers, Scored()) - Sum(answers, Confident())
    ensures Abs(Sum(answers, Deviation())) <= Sum(answers, AbsDeviation())
  {
    if answers != [] {
      SumOfDeviations(answers[..|answers| - 1]);
    }
  }

  /** Cauchy-Schwarz against the constant weight 1. */
  lemma {:induction false} SquareOfSum(answers: seq<Answer>)
    ensures Sum(answers, AbsDeviation()) >= 0.0 && Sum(answers, SquaredDeviation()) >= 0.0
    ensures Square(Sum(answers, AbsDeviation())) <= |answers| as real * Sum(answers, SquaredDeviation())
  {
    if answers != [] {
      var init, a := answers[..|answers| - 1], answers[|answers| - 1];
      SquareOfSum(init);
      var d := Abs(a.Score() - a.confidence);
      assert Square(a.confidence - a.Score()) == Square(d);
      AddToSquare(Sum(init, AbsDeviation()), Sum(init, SquaredDeviation()), |init|, d);
    }
  }

  lemma AddToSquare(s: real, q: real, n: nat, d: real)
    requires s >= 0.0 && q >= 0.0 && d >= 0.0 && Square(s) <= n as real * q
    ensures Square(s + d) <= (n + 1) as real * (q + Square(d))
  {
    var m := n as real;
    if n == 0 {
      assert m * q == 0.0;
      if s != 0.0 { PositiveSquare(s); }
    } else {
      CrossTerm(s, q, m, d);
      assert Square(s + d) == Square(s) + 2.0 * (s * d) + Square(d);
      assert (m + 1.0) * (q + Square(d)) == m * q + q + (m * Square(d) + Square(d));
    }
  }

  /** 2sd <= q + m d^2, from (s - m d)^2 >= 0 and s^2 <= m q. */
  lemma CrossTerm(s: real, q: real, m: real, d: real)
    requires m > 0.0 && Square(s) <= m * q
    ensures 2.0 * (s * d) <= q + m * Square(d)
  {
    var e := s - m * d;
    assert Square(e) >= 0.0;
    assert Square(e) == Square(s) - 2.0 * (m * (s * d)) + m * (m * Square(d));
    var x, y := 2.0 * (s * d), q + m * Square(d);
    assert x * m == 2.0 * (m * (s * d));
    assert y * m == m * q + m * (m * Square(d));
    CancelOrder(x, y, m);
  }

  lemma {:induction false} SquaredDeviationsBounded(answers: seq<Answer>)
    requires InRange(answers)
    ensures Sum(answers, SquaredDeviation()) <= |answers| as real
  {
    if answers != [] {
      SquaredDeviationsBounded(answers[..|answers| - 1]);
      var a := answers[|answers| - 1];
      var d := Abs(a.confidence - a.Score());
      SquareMonotone(d, 1.0);
      assert Square(a.confidence - a.Score()) == d * d;
    }
  }

  /** Sum over the bins of the absolute value of what the bin's deviations add up to. */
  ghost function BinnedGap(answers: seq<Answer>, bins: nat, k: nat): real
    requires k <= bins
  {
    if k == 0 then 0.0
    else BinnedGap(answers, bins, k - 1) + Abs(Sum(Members(answers, k - 1, bins), Deviation()))
  }

  lemma {:induction false} GapBetween(answers: seq<Answer>, bins: nat, k: nat)
    requires k <= bins
    ensures Abs(BinnedSum(answers, Deviation(), bins, k)) <= BinnedGap(answers, bins, k)
    ensures BinnedGap(answers, bins, k) <= BinnedSum(answers, AbsDeviation(), bins, k)
  {
    if k > 0 {
      GapBetween(answers, bins, k - 1);
      SumOfDeviations(Members(answers, k - 1, bins));
    }
  }

  // ----- the scores

  /** The score of one bin in the calibration error, as the code computes it. */
  function BinError(members: seq<Answer>, total: nat): real
    requires total > 0
  {
    if members == [] then 0.0
    else
      var n := |members| as real;
      n / total as real * Abs(Sum(members, Scored()) / n - Sum(members, Confident()) / n)
  }

  function CalibrationErrorUpTo(answers: seq<Answer>, bins: nat, k: nat): real
    requires k <= bins && answers != []
  {
    if k == 0 then 0.0
    else CalibrationErrorUpTo(answers, bins, k - 1) + BinError(Members(answers, k - 1, bins), |answers|)
  }

  /** The bin's size cancels. */
  lemma BinErrorIs(members: seq<Answer>, total: nat)
    requires total > 0
    ensures BinError(members, total) * total as real == Abs(Sum(members, Deviation()))
  {
    hide Sum;
    SumOfDeviations(members);
    if members == [] {
      assert Sum(members, Deviation()) == 0.0 by { EmptySum(Deviation()); }
    } else {
      WeightedDifference(|members| as real, total as real, Sum(members, Scored()), Sum(members, Confident()));
    }
  }

  lemma EmptySum(w: Answer -> real)
    ensures Sum([], w) == 0.0
  {}

  lemma WeightedDifference(n: real, t: real, x: real, y: real)
    requires n > 0.0 && t > 0.0
    ensures n / t * Abs(x / n - y / n) * t == Abs(x - y)
  {
    var u, v, r := x / n, y / n, n / t;
    assert u * n == x && v * n == y && r * t == n;
    assert (u - v) * n == x - y;
    var d := Abs(u - v);
    AbsTimes(u - v, n);
    assert r * d * t == d * (r * t);
  }

  lemma AbsTimes(x: real, n: real)
    requires n > 0.0
    ensures Abs(x) * n == Abs(x * n)
  {
    OrderTimes(0.0, x, n);
  }

  lemma {:induction false} ErrorIsGap(answers: seq<Answer>, bins: nat, k: nat)
    requires k <= bins && answers != []
    ensures CalibrationErrorUpTo(answers, bins, k) * |answers| as real == BinnedGap(answers, bins, k)
  {
    hide BinError, Members, Sum;
    if k > 0 {
      ErrorIsGap(answers, bins, k - 1);
      BinErrorIs(Members(answers, k - 1, bins), |answers|);
      AddScaled(CalibrationErrorUpTo(answers, bins, k - 1), BinError(Members(answers, k - 1, bins), |answers|),
        |answers| as real, BinnedGap(answers, bins, k - 1), Abs(Sum(Members(answers, k - 1, bins), Deviation())));
    }
  }

  lemma AddScaled(x: real, y: real, n: real, u: real, v: real)
    requires x * n == u && y * n == v
    ensures (x + y) * n == u + v
  {}

  function ScoresWith(answers: seq<Answer>, calibrationError: real): Scores
    requires answers != []
  {
    var n := |answers| as real;
    Scores(Sum(answers, Scored()) / n, Sum(answers, Confident()) / n, Sum(answers, SquaredDeviation()) / n,
      calibrationError)
  }

  function ScoresOf(answers: seq<Answer>, bins: nat): Scores
    requires answers != []
  {
    ScoresWith(answers, CalibrationErrorUpTo(answers, bins, bins))
  }

  /** The calibration error lies between the overall bias and the root of the Brier score. */
  lemma ScoreInequalities(answers: seq<Answer>, bins: nat)
    requires answers != [] && bins > 0 && InRange(answers)
    ensures var s := ScoresOf(answers, bins);
            && Abs(s.accuracy - s.meanConfidence) <= s.calibrationError
            && Square(s.calibrationError) <= s.brier <= 1.0
  {
    hide Sum, BinnedGap, BinnedSum, CalibrationErrorUpTo, InRange;
    var n := |answers| as real;
    var gap, e, q := BinnedGap(answers, bins, bins), CalibrationErrorUpTo(answers, bins, bins),
      Sum(answers, SquaredDeviation());
    ErrorIsGap(answers, bins, bins);
    GapBetween(answers, bins, bins);
    BinsPartition(answers, Deviation(), bins);
    BinsPartition(answers, AbsDeviation(), bins);
    SumOfDeviations(answers);
    SquareOfSum(answers);
    SquaredDeviationsBounded(answers);
    BiasBelow(Sum(answers, Scored()), Sum(answers, Confident()), n, e, gap);
    BrierAbove(e, gap, Sum(answers, AbsDeviation()), q, n);
  }

  lemma BiasBelow(x: real, y: real, n: real, e: real, gap: real)
    requires n > 0.0 && e * n == gap && Abs(x - y) <= gap
    ensures Abs(x / n - y / n) <= e
  {
    var u, v := x / n, y / n;
    assert u * n == x && v * n == y && (u - v) * n == x - y;
    AbsTimes(u - v, n);
    CancelOrder(Abs(u - v), e, n);
  }

  lemma BrierAbove(e: real, gap: real, total: real, q: real, n: real)
    requires n > 0.0 && e * n == gap && 0.0 <= gap <= total && Square(total) <= n * q && q <= n
    ensures Square(e) <= q / n <= 1.0
  {
    var b := q / n;
    assert b * n == q;
    SquareMonotone(gap, total);
    assert Square(gap) <= Square(total);
    ScaledSquares(e, n, b, gap, q);
    PositiveSquare(n);
    CancelOrder(Square(e), b, Square(n));
    CancelOrder(b, 1.0, n);
  }

  lemma ScaledSquares(e: real, n: real, b: real, gap: real, q: real)
    requires e * n == gap && b * n == q
    ensures Square(e) * Square(n) == Square(gap) && b * Square(n) == n * q
  {
    assert Square(e) * Square(n) == (e * n) * (e * n);
    assert b * Square(n) == n * (b * n);
  }

  // ----- selective accuracy

  predicate InUnitInterval(thresholds: seq<real>) {
    forall i :: 0 <= i < |thresholds| ==> 0.0 <= thresholds[i] <= 1.0
  }

  /** `tuple(sorted(set(thresholds))) == thresholds` */
  predicate Rising(thresholds: seq<real>) {
    forall i, j :: 0 <= i < j < |thresholds| ==> thresholds[i] < thresholds[j]
  }

  function Retained(answers: seq<Answer>, threshold: real): (r: seq<Answer>)
    ensures |r| <= |answers|
  {
    if answers == [] then []
    else
      var a := answers[|answers| - 1];
      Retained(answers[..|answers| - 1], threshold) + (if a.confidence >= threshold then [a] else [])
  }

  function SelectiveAt(answers: seq<Answer>, planned: nat, threshold: real): SelectivePoint {
    var retained := Retained(answers, threshold);
    var n := |retained| as real;
    SelectivePoint(threshold, |retained|,
      if planned > 0 then n / planned as real else 0.0,
      if retained == [] then None else Some(Sum(retained, Scored()) / n))
  }

  function SelectiveCurve(answers: seq<Answer>, planned: nat, thresholds: seq<real>): seq<SelectivePoint> {
    seq(|thresholds|, i requires 0 <= i < |thresholds| => SelectiveAt(answers, planned, thresholds[i]))
  }

  lemma {:induction false} RetainedFalls(answers: seq<Answer>, low: real, high: real)
    requires low <= high
    ensures |Retained(answers, high)| <= |Retained(answers, low)|
  {
    if answers != [] {
      RetainedFalls(answers[..|answers| - 1], low, high);
    }
  }

  lemma {:induction false} AllRetained(answers: seq<Answer>)
    requires InRange(answers)
    ensures Retained(answers, 0.0) == answers
  {
    if answers != [] {
      AllRetained(answers[..|answers| - 1]);
    }
  }

  lemma {:induction false} ScoreSumRange(answers: seq<Answer>)
    ensures 0.0 <= Sum(answers, Scored()) <= |answers| as real
  {
    if answers != [] {
      ScoreSumRange(answers[..|answers| - 1]);
    }
  }

  /** Raising the threshold never retains more answers nor covers more, every coverage and accuracy
      is a proportion, and the threshold 0 gives back the overall accuracy. */
  lemma SelectiveTradeoff(answers: seq<Answer>, planned: nat, low: real, high: real)
    requires InRange(answers) && |answers| <= planned && low <= high
    ensures var p, q := SelectiveAt(answers, planned, low), SelectiveAt(answers, planned, high);
            && q.retained <= p.retained <= planned && 0.0 <= q.coverage <= p.coverage <= 1.0
            && (p.accuracy.Some? <==> p.retained > 0)
            && (p.accuracy.Some? ==> 0.0 <= p.accuracy.value <= 1.0)
            && (q.accuracy.Some? ==> p.accuracy.Some?)
    ensures answers != [] ==>
      SelectiveAt(answers, planned, 0.0).accuracy == Some(Sum(answers, Scored()) / |answers| as real)
  {
    hide Retained, Sum;
    RetainedFalls(answers, low, high);
    AllRetained(answers);
    ScoreSumRange(Retained(answers, low));
    var n, m, all := |Retained(answers, low)| as real, |Retained(answers, high)| as real, planned as real;
    if planned > 0 {
      CoverageFalls(m, n, all);
    }
    if n > 0.0 {
      FractionRange(Sum(Retained(answers, low), Scored()), n);
    }
  }

  lemma SameDenominator(p: real, q: real, m: real, n: real, all: real)
    requires p * all == m && q * all == n && m <= n && all > 0.0
    ensures p <= q
  {
    CancelOrder(p, q, all);
  }

  lemma CoverageFalls(m: real, n: real, all: real)
    requires 0.0 <= m <= n <= all && all > 0.0
    ensures 0.0 <= m / all <= n / all <= 1.0
  {
    FractionRange(m, all);
    FractionRange(n, all);
    QuotientTimes(m, all);
    QuotientTimes(n, all);
    SameDenominator(m / all, n / all, m, n, all);
  }
}
