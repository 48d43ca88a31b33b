/** `assess_stop_rule`: when a predeclared stop rule ends the trials of a condition. */
module StopRule {
  import opened Prelude
  import opened Finite
  import opened Reals
  import opened Wilson

  datatype Rule = Rule(minimum: nat, maximum: nat, targetWidth: real, confidence: real, failureRate: real) {
    /** The record's own validator. */
    predicate Valid() {
      && 0 < minimum <= maximum && 0.0 < targetWidth <= 1.0
      && 0.0 < confidence < 1.0 && 0.0 <= failureRate <= 1.0
    }
  }

  datatype Tally = Tally(successes: int, failures: int, infrastructure: int, contaminated: int, other: int) {
    predicate NonNegative() {
      successes >= 0 && failures >= 0 && infrastructure >= 0 && contaminated >= 0 && other >= 0
    }

    function Observed(): int { successes + failures }

    function Missing(): int { infrastructure + contaminated + other }

    function Allocated(): int { Observed() + Missing() }

    function Swapped(): Tally { this.(successes := failures, failures := successes) }
  }

  datatype Decision = Continue | StopPrecision | StopMaximum | InvalidInfrastructure

  datatype Assessment = Assessment(decision: Decision, interval: Option<Interval>)

  datatype StopError = NegativeCount | OverMaximum

  function IntervalOf(rule: Rule, t: Tally, lib: Numerics): (r: Option<Interval>)
    requires rule.Valid() && t.NonNegative()
  {
    if t.Observed() == 0 then None
    else
      IntervalOutcome(t.successes, t.Observed(), rule.confidence, lib);
      Some(WilsonInterval(t.successes, t.Observed(), rule.confidence, lib).value)
  }

  function AssessStopRule(rule: Rule, t: Tally, lib: Numerics): (r: Result<Assessment, StopError>)
    requires rule.Valid()
  {
    if !t.NonNegative() then Err(NegativeCount)
    else if t.Allocated() > rule.maximum then Err(OverMaximum)
    else
      var interval := IntervalOf(rule, t, lib);
      var decision :=
        if t.Allocated() < rule.minimum then Continue
        else if t.infrastructure as real / t.Allocated() as real > rule.failureRate then InvalidInfrastructure
        else if t.Allocated() == rule.maximum then StopMaximum
        else if t.Missing() != 0 then Continue
        else if interval.Some? && interval.value.Width() <= rule.targetWidth then StopPrecision
        else Continue;
      Ok(Assessment(decision, interval))
  }

  // ----- each answer, exactly when

  ghost predicate EnoughTrials(rule: Rule, t: Tally) {
    rule.minimum <= t.successes + t.failures + t.infrastructure + t.contaminated + t.other
  }

  ghost predicate AtMaximum(rule: Rule, t: Tally) {
    t.successes + t.failures + t.infrastructure + t.contaminated + t.other == rule.maximum
  }

  /** More infrastructure failures than the tolerated share of all allocated trials. */
  ghost predicate TooManyBroken(rule: Rule, t: Tally) {
    t.infrastructure as real
      > rule.failureRate * (t.successes + t.failures + t.infrastructure + t.contaminated + t.other) as real
  }

  /** Every trial was scored, and the interval of the scored ones is narrow enough. */
  ghost predicate Precise(rule: Rule, t: Tally, lib: Numerics) {
    && t.infrastructure == 0 && t.contaminated == 0 && t.other == 0
    && t.successes >= 0 && t.successes + t.failures > 0
    && var r := WilsonInterval(t.successes, t.successes + t.failures, rule.confidence, lib);
       r.Ok? && r.value.upper - r.value.lower <= rule.targetWidth
  }

  /** Broken infrastructure goes before the maximum, the maximum before precision, and before the
      minimum the answer is always to continue. */
  lemma DecidesExactlyWhen(rule: Rule, t: Tally, lib: Numerics)
    requires rule.Valid()
    ensures var r := AssessStopRule(rule, t, lib);
            && (r == Err(NegativeCount) <==>
                 t.successes < 0 || t.failures < 0 || t.infrastructure < 0 || t.contaminated < 0 || t.other < 0)
            && (r == Err(OverMaximum) <==>
                 && t.successes >= 0 && t.failures >= 0 && t.infrastructure >= 0 && t.contaminated >= 0 && t.other >= 0
                 && t.successes + t.failures + t.infrastructure + t.contaminated + t.other > rule.maximum)
            && (r.Ok? ==>
                 && (r.value.interval.Some? <==> t.successes + t.failures > 0)
                 && (r.value.interval.Some? ==>
                      WilsonInterval(t.successes, t.successes + t.failures, rule.confidence, lib)
                        == Ok(r.value.interval.value))
                 && r.value.decision ==
                      if !EnoughTrials(rule, t) then Continue
                      else if TooManyBroken(rule, t) then InvalidInfrastructure
                      else if AtMaximum(rule, t) then StopMaximum
                      else if Precise(rule, t, lib) then StopPrecision
                      else Continue)
  {
    hide WilsonInterval, TooManyBroken, IntervalOf;
    if AssessStopRule(rule, t, lib).Ok? {
      IntervalIs(rule, t, lib);
      BrokenShare(rule, t);
    }
  }

  lemma IntervalIs(rule: Rule, t: Tally, lib: Numerics)
    requires rule.Valid() && t.NonNegative()
    ensures var interval := IntervalOf(rule, t, lib);
            && (interval.Some? <==> t.successes + t.failures > 0)
            && (interval.Some? ==>
                 WilsonInterval(t.successes, t.successes + t.failures, rule.confidence, lib) == Ok(interval.value))
  {
    hide WilsonInterval;
    if t.Observed() > 0 { IntervalOutcome(t.successes, t.Observed(), rule.confidence, lib); }
  }

  lemma BrokenShare(rule: Rule, t: Tally)
    requires rule.Valid() && t.NonNegative()
    ensures t.Allocated() > 0 ==>
      (t.infrastructure as real / t.Allocated() as real > rule.failureRate <==> TooManyBroken(rule, t))
  {
    if t.Allocated() > 0 {
      ShareExceeds(t.infrastructure as real, t.Allocated() as real, rule.failureRate);
    }
  }

  lemma ShareExceeds(x: real, n: real, rate: real)
    requires n > 0.0
    ensures x / n > rate <==> x > rate * n
  {
    QuotientTimes(x, n);
    OrderTimes(rate, x / n, n);
  }

  /** Stopping for precision means every allocated trial was scored, and the interval that is
      narrow enough contains the observed success rate. */
  lemma PrecisionIsComplete(rule: Rule, t: Tally, lib: Numerics)
    requires rule.Valid() && lib.Sound()
    requires AssessStopRule(rule, t, lib).Ok? && AssessStopRule(rule, t, lib).value.decision == StopPrecision
    ensures rule.minimum <= t.Observed() == t.Allocated() < rule.maximum
    ensures var interval := AssessStopRule(rule, t, lib).value.interval;
            && interval.Some? && interval.value.Width() <= rule.targetWidth
            && interval.value.lower <= Proportion(t.successes, t.Observed()) <= interval.value.upper
  {
    hide WilsonInterval, Proportion, Center, Margin;
    IntervalIsUnclamped(t.successes, t.Observed(), rule.confidence, lib);
  }

  /** The rule does not care which outcome is called a success: swapping them reflects the interval
      and leaves the decision alone. */
  lemma DecisionIsSymmetric(rule: Rule, t: Tally, lib: Numerics)
    requires rule.Valid() && t.NonNegative() && lib.Sound() && AssessStopRule(rule, t, lib).Ok?
    ensures var r, s := AssessStopRule(rule, t, lib), AssessStopRule(rule, t.Swapped(), lib);
            && s.Ok? && s.value.decision == r.value.decision
            && s.value.interval == match r.value.interval
                                   case None => None
                                   case Some(i) => Some(Interval(1.0 - i.upper, 1.0 - i.lower))
  {
    hide WilsonInterval;
    if t.Observed() > 0 {
      SwapReflects(t.successes, t.Observed(), rule.confidence, lib);
    }
  }

  // ----- assessing after every trial

  datatype Outcome = Success | Failure | Infrastructure | Contaminated | Other

  function Add(t: Tally, o: Outcome): Tally {
    match o
    case Success => t.(successes := t.successes + 1)
    case Failure => t.(failures := t.failures + 1)
    case Infrastructure => t.(infrastructure := t.infrastructure + 1)
    case Contaminated => t.(contaminated := t.contaminated + 1)
    case Other => t.(other := t.other + 1)
  }

  function TallyOf(outcomes: seq<Outcome>): (t: Tally)
    ensures t.NonNegative() && t.Allocated() == |outcomes|
  {
    if outcomes == [] then Tally(0, 0, 0, 0, 0)
    else Add(TallyOf(outcomes[..|outcomes| - 1]), outcomes[|outcomes| - 1])
  }

  function Ended(o: Outcome): Outcome -> bool { (x: Outcome) => x == o }

  function Counted(t: Tally, o: Outcome): int {
    match o
    case Success => t.successes
    case Failure => t.failures
    case Infrastructure => t.infrastructure
    case Contaminated => t.contaminated
    case Other => t.other
  }

  lemma TallyNext(outcomes: seq<Outcome>, x: Outcome, o: Outcome)
    ensures Counted(TallyOf(outcomes + [x]), o) == Counted(TallyOf(outcomes), o) + if x == o then 1 else 0
  {
    assert (outcomes + [x])[..|outcomes|] == outcomes;
    AddCounts(TallyOf(outcomes), x, o);
  }

  lemma AddCounts(t: Tally, x: Outcome, o: Outcome)
    ensures Counted(Add(t, x), o) == Counted(t, o) + if x == o then 1 else 0
  {}

  /** The tally counts the outcomes of each kind. */
  lemma {:induction false} TallyCounts(outcomes: seq<Outcome>, o: Outcome)
    ensures Counted(TallyOf(outcomes), o) == |Where(outcomes, Ended(o))|
  {
    if outcomes == [] {
      assert Where(outcomes, Ended(o)) == {};
    } else {
      var n := |outcomes| - 1;
      assert outcomes == outcomes[..n] + [outcomes[n]];
      hide Where, TallyOf, Counted;
      TallyCounts(outcomes[..n], o);
      TallyNext(outcomes[..n], outcomes[n], o);
      WhereNext(outcomes[..n], outcomes[n], Ended(o));
    }
  }

  /** Another trial was run only while the rule said to continue. */
  ghost predicate Obeys(rule: Rule, outcomes: seq<Outcome>, lib: Numerics)
    requires rule.Valid()
  {
    forall k :: 0 <= k < |outcomes| ==>
      var r := AssessStopRule(rule, TallyOf(outcomes[..k]), lib);
      r.Ok? && r.value.decision == Continue
  }

  /** Whatever the outcomes, obeying the rule never runs more than the maximum and never meets an
      error, the rule says nothing but continue before the minimum, and ends by the maximum. */
  lemma ObeyingStopsInTime(rule: Rule, outcomes: seq<Outcome>, lib: Numerics)
    requires rule.Valid() && Obeys(rule, outcomes, lib)
    ensures |outcomes| <= rule.maximum
    ensures var r := AssessStopRule(rule, TallyOf(outcomes), lib);
            && r.Ok?
            && (|outcomes| < rule.minimum ==> r.value.decision == Continue)
            && (|outcomes| == rule.maximum ==>
                 r.value.decision == StopMaximum || r.value.decision == InvalidInfrastructure)
  {
    if |outcomes| > rule.maximum {
      var r := AssessStopRule(rule, TallyOf(outcomes[..rule.maximum]), lib);
    }
  }
}
