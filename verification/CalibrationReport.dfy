/** `calibration_metrics`: the report, and what each of its numbers is in terms of the observations. */
module CalibrationReport {
  import opened Prelude
  import opened Finite
  import opened Reals
  import opened Calibration

  // ----- numbers read off the observations

  ghost function TotalWhere(
      observations: seq<ValidObservation>, p: ValidObservation -> bool, w: ValidObservation -> real): real
  {
    if observations == [] then 0.0
    else
      var n := |observations| - 1;
      TotalWhere(observations[..n], p, w) + if p(observations[n]) then w(observations[n]) else 0.0
  }

  function IsAnswered(): ValidObservation -> bool { (o: ValidObservation) => o.answered }

  function IsMissing(): ValidObservation -> bool { (o: ValidObservation) => o.missing }

  function IsCorrect(): ValidObservation -> bool { (o: ValidObservation) => o.answered && o.correct == Some(true) }

  /** Answered with a confidence in the bin's range, the last bin including 1. */
  function FallsInto(i: nat, bins: nat): ValidObservation -> bool
    requires i < bins
  {
    (o: ValidObservation) =>
      && o.answered
      && i as real / bins as real <= o.confidence.value
      && if i == bins - 1 then o.confidence.value <= 1.0 else o.confidence.value < (i + 1) as real / bins as real
  }

  function Reaches(threshold: real): ValidObservation -> bool {
    (o: ValidObservation) => o.answered && threshold <= o.confidence.value
  }

  function Both(p: ValidObservation -> bool, q: ValidObservation -> bool): ValidObservation -> bool {
    (o: ValidObservation) => p(o) && q(o)
  }

  function ConfidenceOf(): ValidObservation -> real {
    (o: ValidObservation) => if o.confidence.Some? then o.confidence.value else 0.0
  }

  /** (confidence - 1)^2 for a correct answer, confidence^2 for an incorrect one. */
  function SquaredErrorOf(): ValidObservation -> real {
    (o: ValidObservation) =>
      if o.confidence.None? then 0.0
      else if o.correct == Some(true) then (o.confidence.value - 1.0) * (o.confidence.value - 1.0)
      else o.confidence.value * o.confidence.value
  }

  ghost function CountWhere(observations: seq<ValidObservation>, p: ValidObservation -> bool): nat {
    |Where(observations, p)|
  }

  /** The correct answers among those of `p`, less what their confidences add up to. */
  ghost function BiasWhere(observations: seq<ValidObservation>, p: ValidObservation -> bool): real {
    CountWhere(observations, Both(p, IsCorrect())) as real - TotalWhere(observations, p, ConfidenceOf())
  }

  ghost function BiasOverBins(observations: seq<ValidObservation>, bins: nat, k: nat): real
    requires k <= bins
  {
    if k == 0 then 0.0
    else BiasOverBins(observations, bins, k - 1) + Abs(BiasWhere(observations, FallsInto(k - 1, bins)))
  }

  /** Count, accuracy and mean confidence of a bin. */
  ghost predicate BinIs(observations: seq<ValidObservation>, p: ValidObservation -> bool, b: CalibrationBin) {
    && b.count == CountWhere(observations, p)
    && (b.accuracy.Some? <==> b.count > 0) && (b.meanConfidence.Some? <==> b.count > 0)
    && (b.count > 0 ==>
         && b.accuracy.value * b.count as real == CountWhere(observations, Both(p, IsCorrect())) as real
         && b.meanConfidence.value * b.count as real == TotalWhere(observations, p, ConfidenceOf()))
  }

  ghost predicate PointIs(observations: seq<ValidObservation>, threshold: real, p: SelectivePoint) {
    && p.threshold == threshold && p.retained == CountWhere(observations, Reaches(threshold))
    && p.coverage * |observations| as real == p.retained as real
    && (observations == [] ==> p.coverage == 0.0)
    && (p.accuracy.Some? <==> p.retained > 0)
    && (p.accuracy.Some? ==>
         p.accuracy.value * p.retained as real
           == CountWhere(observations, Both(Reaches(threshold), IsCorrect())) as real)
  }

  ghost predicate ScoresAre(observations: seq<ValidObservation>, bins: nat, s: Scores) {
    var n := CountWhere(observations, IsAnswered()) as real;
    && s.accuracy * n == CountWhere(observations, IsCorrect()) as real
    && s.meanConfidence * n == TotalWhere(observations, IsAnswered(), ConfidenceOf())
    && s.brier * n == TotalWhere(observations, IsAnswered(), SquaredErrorOf())
    && s.calibrationError * n == BiasOverBins(observations, bins, bins)
  }

  /** Every number of the report, read off the observations. */
  ghost predicate Accounts(observations: seq<ValidObservation>, binCount: nat, thresholds: seq<real>, m: Metrics) {
    && m.planned == |observations| == m.answered + m.abstained + m.missing
    && m.answered == CountWhere(observations, IsAnswered())
    && m.missing == CountWhere(observations, IsMissing())
    && (m.scores.Some? <==> m.answered > 0)
    && (m.scores.Some? ==> ScoresAre(observations, binCount, m.scores.value))
    && |m.bins| == binCount
    && (forall i :: 0 <= i < binCount ==> BinIs(observations, FallsInto(i, binCount), m.bins[i]))
    && |m.selective| == |thresholds|
    && forall i :: 0 <= i < |thresholds| ==> PointIs(observations, thresholds[i], m.selective[i])
  }

  // ----- answers chosen by a predicate

  ghost function Chosen(answers: seq<Answer>, q: Answer -> bool): seq<Answer> {
    if answers == [] then []
    else
      var n := |answers| - 1;
      var before := Chosen(answers[..n], q);
      if q(answers[n]) then before + [answers[n]] else before
  }

  lemma ChosenNext(answers: seq<Answer>, a: Answer, q: Answer -> bool)
    ensures Chosen(answers + [a], q) == if q(a) then Chosen(answers, q) + [a] else Chosen(answers, q)
  {
    assert (answers + [a])[..|answers|] == answers;
  }

  function Anything(): Answer -> bool { (a: Answer) => true }

  function Within(i: nat, bins: nat): Answer -> bool
    requires i < bins
  {
    (a: Answer) => InBin(a, i, bins)
  }

  function AtLeast(threshold: real): Answer -> bool { (a: Answer) => a.confidence >= threshold }

  lemma {:induction false} AllAreChosen(answers: seq<Answer>)
    ensures Chosen(answers, Anything()) == answers
  {
    if answers != [] { AllAreChosen(answers[..|answers| - 1]); }
  }

  lemma {:induction false} MembersAreChosen(answers: seq<Answer>, i: nat, bins: nat)
    requires i < bins
    ensures Members(answers, i, bins) == Chosen(answers, Within(i, bins))
  {
    hide InBin;
    if answers != [] { MembersAreChosen(answers[..|answers| - 1], i, bins); }
  }

  lemma {:induction false} RetainedAreChosen(answers: seq<Answer>, threshold: real)
    ensures Retained(answers, threshold) == Chosen(answers, AtLeast(threshold))
  {
    if answers != [] { RetainedAreChosen(answers[..|answers| - 1], threshold); }
  }

  function AnswerOf(o: ValidObservation): Answer
    requires o.answered
  {
    Answer(o.correct.value, o.confidence.value)
  }

  /** `p` picks the observations whose answers `q` picks. */
  ghost predicate SamePick(p: ValidObservation -> bool, q: Answer -> bool) {
    forall o: ValidObservation :: p(o) <==> o.answered && q(AnswerOf(o))
  }

  ghost predicate SameWeight(v: ValidObservation -> real, w: Answer -> real) {
    forall o: ValidObservation :: o.answered ==> v(o) == w(AnswerOf(o))
  }

  lemma AnswersNext(observations: seq<ValidObservation>, o: ValidObservation)
    ensures Answers(observations + [o])
         == if o.answered then Answers(observations) + [AnswerOf(o)] else Answers(observations)
  {
    assert (observations + [o])[..|observations|] == observations;
    assert Answers(observations) + [] == Answers(observations);
  }

  lemma TotalNext(observations: seq<ValidObservation>, o: ValidObservation, p: ValidObservation -> bool,
                  v: ValidObservation -> real)
    ensures TotalWhere(observations + [o], p, v) == TotalWhere(observations, p, v) + if p(o) then v(o) else 0.0
  {
    assert (observations + [o])[..|observations|] == observations;
  }

  lemma {:induction false} ChosenCount(observations: seq<ValidObservation>, p: ValidObservation -> bool,
                                       q: Answer -> bool)
    requires SamePick(p, q)
    ensures |Chosen(Answers(observations), q)| == CountWhere(observations, p)
  {
    if observations != [] {
      var n := |observations| - 1;
      var o := observations[n];
      assert observations == observations[..n] + [o];
      ChosenCount(observations[..n], p, q);
      assert p(o) <==> o.answered && q(AnswerOf(o));
      hide *;
      AnswersNext(observations[..n], o);
      WhereNext(observations[..n], o, p);
      if o.answered { ChosenNext(Answers(observations[..n]), AnswerOf(o), q); }
    }
  }

  lemma {:induction false} ChosenTotal(observations: seq<ValidObservation>, p: ValidObservation -> bool,
                                       q: Answer -> bool, v: ValidObservation -> real, w: Answer -> real)
    requires SamePick(p, q) && SameWeight(v, w)
    ensures Sum(Chosen(Answers(observations), q), w) == TotalWhere(observations, p, v)
  {
    if observations != [] {
      var n := |observations| - 1;
      var o := observations[n];
      assert observations == observations[..n] + [o];
      ChosenTotal(observations[..n], p, q, v, w);
      assert p(o) <==> o.answered && q(AnswerOf(o));
      assert o.answered ==> v(o) == w(AnswerOf(o));
      hide *;
      AnswersNext(observations[..n], o);
      TotalNext(observations[..n], o, p, v);
      if o.answered {
        ChosenNext(Answers(observations[..n]), AnswerOf(o), q);
        SumAdds(Chosen(Answers(observations[..n]), q), AnswerOf(o), w);
      }
    }
  }

  function OneIfCorrect(): ValidObservation -> real {
    (o: ValidObservation) => if o.answered && o.correct == Some(true) then 1.0 else 0.0
  }

  lemma {:induction false} CorrectTotal(observations: seq<ValidObservation>, p: ValidObservation -> bool)
    ensures TotalWhere(observations, p, OneIfCorrect()) == CountWhere(observations, Both(p, IsCorrect())) as real
  {
    if observations != [] {
      var n := |observations| - 1;
      assert observations == observations[..n] + [observations[n]];
      CorrectTotal(observations[..n], p);
      WhereNext(observations[..n], observations[n], Both(p, IsCorrect()));
      TotalNext(observations[..n], observations[n], p, OneIfCorrect());
    }
  }

  /** The three sums over chosen answers, in terms of the observations. */
  lemma ChosenSums(observations: seq<ValidObservation>, p: ValidObservation -> bool, q: Answer -> bool)
    requires SamePick(p, q)
    ensures var chosen := Chosen(Answers(observations), q);
            && |chosen| == CountWhere(observations, p)
            && Sum(chosen, Scored()) == CountWhere(observations, Both(p, IsCorrect())) as real
            && Sum(chosen, Confident()) == TotalWhere(observations, p, ConfidenceOf())
            && Sum(chosen, SquaredDeviation()) == TotalWhere(observations, p, SquaredErrorOf())
            && Sum(chosen, Deviation()) == BiasWhere(observations, p)
  {
    assert SameWeight(OneIfCorrect(), Scored());
    assert SameWeight(ConfidenceOf(), Confident());
    assert SameWeight(SquaredErrorOf(), SquaredDeviation());
    hide SamePick, SameWeight, Sum, TotalWhere, CountWhere, Chosen, Answers;
    ChosenCount(observations, p, q);
    ChosenTotal(observations, p, q, OneIfCorrect(), Scored());
    ChosenTotal(observations, p, q, ConfidenceOf(), Confident());
    ChosenTotal(observations, p, q, SquaredErrorOf(), SquaredDeviation());
    CorrectTotal(observations, p);
    SumOfDeviations(Chosen(Answers(observations), q));
  }

  lemma SamePicks(bins: nat, threshold: real)
    ensures SamePick(IsAnswered(), Anything())
    ensures SamePick(Reaches(threshold), AtLeast(threshold))
    ensures forall i :: 0 <= i < bins ==> SamePick(FallsInto(i, bins), Within(i, bins))
  {
    forall i | 0 <= i < bins ensures SamePick(FallsInto(i, bins), Within(i, bins)) {
      if i == bins - 1 { WholeFraction(bins); }
    }
  }

  lemma WholeFraction(bins: nat)
    requires bins > 0
    ensures bins as real / bins as real == 1.0
  {}

  // ----- bins and scores

  function BinFor(members: seq<Answer>): CalibrationBin {
    if members == [] then CalibrationBin(0, None, None)
    else
      var n := |members| as real;
      CalibrationBin(|members|, Some(Sum(members, Confident()) / n), Some(Sum(members, Scored()) / n))
  }

  function TotalCount(bins: seq<CalibrationBin>): nat {
    if bins == [] then 0 else TotalCount(bins[..|bins| - 1]) + bins[|bins| - 1].count
  }

  ghost predicate BinsFor(answers: seq<Answer>, bins: nat, report: seq<CalibrationBin>)
    requires |report| <= bins
  {
    forall i :: 0 <= i < |report| ==> report[i] == BinFor(Members(answers, i, bins))
  }

  lemma {:induction false} CountsAddUp(answers: seq<Answer>, bins: nat, report: seq<CalibrationBin>)
    requires |report| <= bins && BinsFor(answers, bins, report)
    ensures TotalCount(report) as real == BinnedSum(answers, Unit(), bins, |report|)
  {
    if report != [] {
      var k := |report| - 1;
      CountsAddUp(answers, bins, report[..k]);
      SumOfUnits(Members(answers, k, bins));
    }
  }

  /** Counts, scores and bins of the answered observations; every answer is in exactly one bin and
      the scores satisfy |accuracy - mean confidence| <= ECE and ECE^2 <= Brier <= 1. */
  ghost predicate Reports(observations: seq<ValidObservation>, binCount: nat, thresholds: seq<real>, m: Metrics) {
    var answers := Answers(observations);
    && m.selective == SelectiveCurve(answers, |observations|, thresholds)
    && m.planned == |observations| == m.answered + m.abstained + m.missing
    && m.answered == |answers| && m.missing == CountMissing(observations)
    && |m.bins| == binCount && BinsFor(answers, binCount, m.bins) && TotalCount(m.bins) == m.answered
    && (m.scores.Some? <==> answers != [])
    && (m.scores.Some? ==>
         && m.scores.value == ScoresOf(answers, binCount)
         && Abs(m.scores.value.accuracy - m.scores.value.meanConfidence) <= m.scores.value.calibrationError
         && Square(m.scores.value.calibrationError) <= m.scores.value.brier <= 1.0)
  }

  /** The loop over the bins, up to bin `k`. */
  ghost predicate Binned(answers: seq<Answer>, binCount: nat, k: nat, bins: seq<CalibrationBin>, error: real) {
    && |bins| == k <= binCount && BinsFor(answers, binCount, bins)
    && if answers == [] then error == 0.0 else error == CalibrationErrorUpTo(answers, binCount, k)
  }

  lemma BinNext(answers: seq<Answer>, binCount: nat, k: nat, bins: seq<CalibrationBin>, error: real)
    requires Binned(answers, binCount, k, bins, error) && k < binCount
    ensures var members := Members(answers, k, binCount);
            if members == [] then Binned(answers, binCount, k + 1, bins + [BinFor(members)], error)
            else
              && answers != []
              && Binned(answers, binCount, k + 1, bins + [BinFor(members)], error + BinError(members, |answers|))
  {
    hide Members, BinFor;
  }

  lemma Concluded(observations: seq<ValidObservation>, binCount: nat, thresholds: seq<real>, bins: seq<CalibrationBin>,
                  error: real, m: Metrics)
    requires binCount > 0 && Binned(Answers(observations), binCount, binCount, bins, error)
    requires var answers := Answers(observations);
             && m.planned == |observations| && m.answered == |answers| && m.missing == CountMissing(observations)
             && m.planned == m.answered + m.abstained + m.missing && m.bins == bins
             && m.selective == SelectiveCurve(answers, |observations|, thresholds)
             && m.scores == if answers == [] then None else Some(ScoresWith(answers, error))
    ensures Reports(observations, binCount, thresholds, m)
  {
    hide SelectiveCurve, BinFor, Sum, BinsFor, CalibrationErrorUpTo;
    var answers := Answers(observations);
    AnswersInRange(observations);
    CountsAddUp(answers, binCount, bins);
    BinsPartition(answers, Unit(), binCount);
    SumOfUnits(answers);
    if answers != [] {
      ScoreInequalities(answers, binCount);
    }
  }

  // ----- the report accounts for the observations

  lemma {:induction false} MissingCounted(observations: seq<ValidObservation>)
    ensures CountMissing(observations) == CountWhere(observations, IsMissing())
  {
    if observations != [] {
      var n := |observations| - 1;
      assert observations == observations[..n] + [observations[n]];
      MissingCounted(observations[..n]);
      WhereNext(observations[..n], observations[n], IsMissing());
    }
  }

  lemma Quotients(x: real, n: real)
    requires n > 0.0
    ensures x / n * n == x
  {
    QuotientTimes(x, n);
  }

  lemma BinAccounts(observations: seq<ValidObservation>, i: nat, bins: nat)
    requires i < bins
    ensures BinIs(observations, FallsInto(i, bins), BinFor(Members(Answers(observations), i, bins)))
    ensures Sum(Members(Answers(observations), i, bins), Deviation()) == BiasWhere(observations, FallsInto(i, bins))
  {
    hide Members, Sum, Answers, CountWhere, TotalWhere, Chosen, SamePick, BiasWhere;
    var members := Members(Answers(observations), i, bins);
    SamePicks(bins, 0.0);
    MembersAreChosen(Answers(observations), i, bins);
    ChosenSums(observations, FallsInto(i, bins), Within(i, bins));
    if members != [] {
      Quotients(Sum(members, Scored()), |members| as real);
      Quotients(Sum(members, Confident()), |members| as real);
    }
  }

  lemma {:induction false} GapAccounts(observations: seq<ValidObservation>, bins: nat, k: nat)
    requires k <= bins
    ensures BinnedGap(Answers(observations), bins, k) == BiasOverBins(observations, bins, k)
  {
    hide BiasWhere, Sum, Members, Answers, BinIs, BinFor, FallsInto;
    if k > 0 {
      GapAccounts(observations, bins, k - 1);
      BinAccounts(observations, k - 1, bins);
    }
  }

  lemma PointAccounts(observations: seq<ValidObservation>, threshold: real)
    ensures PointIs(observations, threshold, SelectiveAt(Answers(observations), |observations|, threshold))
  {
    hide Retained, Sum, Answers, CountWhere, TotalWhere, Chosen, SamePick;
    var retained := Retained(Answers(observations), threshold);
    SamePicks(0, threshold);
    RetainedAreChosen(Answers(observations), threshold);
    ChosenSums(observations, Reaches(threshold), AtLeast(threshold));
    if retained != [] { Quotients(Sum(retained, Scored()), |retained| as real); }
    if observations != [] {
      Quotients(|retained| as real, |observations| as real);
    } else {
      NoAnswers(threshold);
    }
  }

  lemma NoAnswers(threshold: real)
    ensures Retained(Answers([]), threshold) == []
  {}

  lemma CorrectAmongAll(observations: seq<ValidObservation>)
    ensures CountWhere(observations, Both(IsAnswered(), IsCorrect())) == CountWhere(observations, IsCorrect())
  {
    assert Where(observations, Both(IsAnswered(), IsCorrect())) == Where(observations, IsCorrect());
  }

  lemma ScoresAccount(observations: seq<ValidObservation>, bins: nat)
    requires Answers(observations) != []
    ensures ScoresAre(observations, bins, ScoresOf(Answers(observations), bins))
  {
    hide Sum, Answers, CountWhere, TotalWhere, Chosen, SamePick, BiasOverBins, BinnedGap, CalibrationErrorUpTo;
    var answers := Answers(observations);
    var n := |answers| as real;
    SamePicks(0, 0.0);
    AllAreChosen(answers);
    ChosenSums(observations, IsAnswered(), Anything());
    CorrectAmongAll(observations);
    Quotients(Sum(answers, Scored()), n);
    Quotients(Sum(answers, Confident()), n);
    Quotients(Sum(answers, SquaredDeviation()), n);
    ErrorIsGap(answers, bins, bins);
    GapAccounts(observations, bins, bins);
  }

  /** Every number of the report is what it is named for. */
  lemma ReportAccounts(observations: seq<ValidObservation>, binCount: nat, thresholds: seq<real>, m: Metrics)
    requires Reports(observations, binCount, thresholds, m)
    ensures Accounts(observations, binCount, thresholds, m)
  {
    hide BinIs, PointIs, ScoresAre, BinFor, SelectiveAt, ScoresOf, Answers, CountWhere, FallsInto, Chosen, SamePick;
    SamePicks(0, 0.0);
    AllAreChosen(Answers(observations));
    ChosenSums(observations, IsAnswered(), Anything());
    MissingCounted(observations);
    if m.scores.Some? { ScoresAccount(observations, binCount); }
    forall i | 0 <= i < binCount ensures BinIs(observations, FallsInto(i, binCount), m.bins[i]) {
      BinAccounts(observations, i, binCount);
    }
    forall i | 0 <= i < |thresholds| ensures PointIs(observations, thresholds[i], m.selective[i]) {
      PointAccounts(observations, thresholds[i]);
    }
  }

  predicate DuplicateIds(observations: seq<ValidObservation>) {
    exists i, j :: 0 <= i < j < |observations| && observations[i].id == observations[j].id
  }

  function IdsOf(observations: seq<ValidObservation>): (r: seq<string>)
    ensures |r| == |observations| && forall i :: 0 <= i < |r| ==> r[i] == observations[i].id
  {
    seq(|observations|, i requires 0 <= i < |observations| => observations[i].id)
  }

  /** What the three checks find: fewer ids than observations, a threshold outside [0, 1], and a
      threshold that is not above the one before it. */
  lemma ChecksFind(observations: seq<ValidObservation>, thresholds: seq<real>)
    ensures DuplicateIds(observations) <==> |set id | id in IdsOf(observations)| < |observations|
    ensures InUnitInterval(thresholds) <==> !exists t :: t in thresholds && (t < 0.0 || t > 1.0)
    ensures Rising(thresholds) <==> forall k :: 1 <= k < |thresholds| ==> StepsUp(thresholds, k)
  {
    SizeOfSet(IdsOf(observations));
    if NoRepeats(IdsOf(observations)) {
      forall i, j | 0 <= i < j < |observations| ensures observations[i].id != observations[j].id {
        assert IdsOf(observations)[i] != IdsOf(observations)[j];
      }
    }
    if !exists t :: t in thresholds && (t < 0.0 || t > 1.0) {
      forall i | 0 <= i < |thresholds| ensures 0.0 <= thresholds[i] <= 1.0 { assert thresholds[i] in thresholds; }
    }
    StepsRise(thresholds);
  }

  ghost predicate StepsUp(thresholds: seq<real>, k: nat)
    requires 1 <= k < |thresholds|
  {
    thresholds[k - 1] < thresholds[k]
  }

  lemma {:induction false} StepsRise(thresholds: seq<real>)
    ensures Rising(thresholds) <==> forall k :: 1 <= k < |thresholds| ==> StepsUp(thresholds, k)
  {
    if forall k :: 1 <= k < |thresholds| ==> StepsUp(thresholds, k) {
      if thresholds != [] {
        var n := |thresholds| - 1;
        forall k | 1 <= k < n ensures StepsUp(thresholds[..n], k) { assert StepsUp(thresholds, k); }
        StepsRise(thresholds[..n]);
        forall i, j | 0 <= i < j < |thresholds| ensures thresholds[i] < thresholds[j] {
          if j < n {
            assert thresholds[..n][i] < thresholds[..n][j];
          } else {
            assert StepsUp(thresholds, n);
            if i < n - 1 { assert thresholds[..n][i] < thresholds[..n][n - 1]; }
          }
        }
      }
    }
  }

  /** Everything after the checks: the counts, the loop over the bins, the scores and the points. */
  method Measure(observations: seq<ValidObservation>, binCount: nat, thresholds: seq<real>) returns (m: Metrics)
    requires binCount > 0
    ensures Reports(observations, binCount, thresholds, m)
  {
    hide *;
    var answers := Answers(observations);
    var missing := CountMissing(observations);
    AnswersInRange(observations);
    var bins: seq<CalibrationBin>, error := [], 0.0;
    NothingBinned(answers, binCount);
    for index := 0 to binCount
      invariant Binned(answers, binCount, index, bins, error)
    {
      var members := Members(answers, index, binCount);
      BinNext(answers, binCount, index, bins, error);
      bins := bins + [BinFor(members)];
      if members == [] { continue; }
      error := error + BinError(members, |answers|);
    }
    var scores := if answers == [] then None else Some(ScoresWith(answers, error));
    m := Metrics(|observations|, |answers|, |observations| - |answers| - missing, missing, scores, bins,
      SelectiveCurve(answers, |observations|, thresholds));
    Concluded(observations, binCount, thresholds, bins, error, m);
  }

  method CalibrationMetrics(observations: seq<ValidObservation>, binCount: int, thresholds: seq<real>)
      returns (r: Result<Metrics, CalibrationError>)
    ensures r == Err(BadBinCount) <==> binCount <= 0
    ensures r == Err(DuplicateId) <==> binCount > 0 && DuplicateIds(observations)
    ensures r == Err(ThresholdOutOfRange) <==>
      binCount > 0 && !DuplicateIds(observations) && !InUnitInterval(thresholds)
    ensures r == Err(ThresholdsNotIncreasing) <==>
      binCount > 0 && !DuplicateIds(observations) && InUnitInterval(thresholds) && !Rising(thresholds)
    ensures r.Ok? ==>
      && Accounts(observations, binCount, thresholds, r.value)
      && Reports(observations, binCount, thresholds, r.value)
  {
    hide *;
    if binCount <= 0 { return Err(BadBinCount); }
    if DuplicateIds(observations) { return Err(DuplicateId); }
    if !InUnitInterval(thresholds) { return Err(ThresholdOutOfRange); }
    if !Rising(thresholds) { return Err(ThresholdsNotIncreasing); }
    var metrics := Measure(observations, binCount, thresholds);
    ReportAccounts(observations, binCount, thresholds, metrics);
    return Ok(metrics);
  }

  lemma NothingBinned(answers: seq<Answer>, binCount: nat)
    ensures Binned(answers, binCount, 0, [], 0.0)
  {}
}
