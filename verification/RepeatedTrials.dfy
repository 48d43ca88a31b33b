/** `repeated_trial_analysis`: fixed-denominator accounting of a declared replicate plan. */
module RepeatedTrials {
  import opened Prelude
  import opened Finite
  import opened Trials
  import Pass = PassAtK
  import opened Wilson

  type Digest = nat

  datatype Outcome = Outcome(
    success: Option<bool>, digest: Option<Digest>, missingReason: bool,
    timeout: bool, infrastructureFailure: bool, contaminated: bool)
  {
    /** The record's own validator. */
    predicate Valid() {
      && (success.None? <==> missingReason)
      && (success.Some? ==> digest.Some?)
      && !(timeout && infrastructureFailure) && !(timeout && contaminated) && !(infrastructureFailure && contaminated)
      && (timeout || infrastructureFailure || contaminated ==> success.None?)
    }
  }

  type ValidOutcome = o: Outcome | o.Valid() witness Outcome(None, None, true, false, false, false)

  datatype Plan = Plan(items: seq<string>, trials: nat, passK: seq<nat>) {
    ghost predicate Valid() {
      && items != [] && trials > 0 && passK != []
      && NoRepeats(items)
      && forall i :: 0 <= i < |passK| ==> 0 < passK[i] <= trials
    }
  }

  datatype ItemSummary = ItemSummary(
    item: string, planned: nat, observed: nat, successes: nat, failures: nat, missing: nat,
    timeouts: nat, infrastructure: nat, contaminated: nat, unresolved: nat, passAtK: seq<Option<real>>)

  datatype Estimate = Estimate(value: real, interval: Interval)

  datatype Aggregate = Aggregate(
    estimate: Option<Estimate>, planned: nat, observed: nat, missing: nat,
    infrastructure: nat, contaminated: nat, evidence: seq<Digest>)

  datatype Analysis = Analysis(items: seq<ItemSummary>, aggregate: Aggregate)

  datatype TrialError =
    | DuplicateReplicate
    | UndeclaredItem
    | BeyondPlan
    | ReusedDigest
    | BadInterval(cause: WilsonError)

  function IsSuccess(): ValidOutcome -> bool { (o: ValidOutcome) => o.success == Some(true) }

  function IsFailure(): ValidOutcome -> bool { (o: ValidOutcome) => o.success == Some(false) }

  function IsTimeout(): ValidOutcome -> bool { (o: ValidOutcome) => o.timeout }

  function IsInfrastructure(): ValidOutcome -> bool { (o: ValidOutcome) => o.infrastructureFailure }

  function IsContaminated(): ValidOutcome -> bool { (o: ValidOutcome) => o.contaminated }

  function IsAny(): ValidOutcome -> bool { (o: ValidOutcome) => true }

  predicate UniqueDigests(obs: seq<Trial<ValidOutcome>>) {
    forall i, j :: 0 <= i < j < |obs| && obs[i].outcome.digest.Some? ==>
      obs[i].outcome.digest != obs[j].outcome.digest
  }

  /** Digests of the scored observations. */
  function ObservedDigests(obs: seq<Trial<ValidOutcome>>): set<Digest> {
    set i | 0 <= i < |obs| && obs[i].outcome.success.Some? && obs[i].outcome.digest.Some? ::
      obs[i].outcome.digest.value
  }

  function PassEstimates(successes: nat, plan: Plan, complete: bool): seq<Option<real>>
    requires plan.Valid() && successes <= plan.trials
  {
    seq(|plan.passK|, i requires 0 <= i < |plan.passK| =>
      if complete then Some(Pass.PassAtK(successes, plan.trials, plan.passK[i])) else None)
  }

  // ----- what the analysis reports, in terms of the observations alone

  /** The categories of one item exhaust and separate its observations. */
  lemma {:induction false} CategoriesSeparate(obs: seq<Trial<ValidOutcome>>, item: string)
    ensures Count(obs, item, IsSuccess()) + Count(obs, item, IsFailure()) + Count(obs, item, IsTimeout())
            + Count(obs, item, IsInfrastructure()) + Count(obs, item, IsContaminated())
         <= Count(obs, item, IsAny())
    ensures CountAll(obs, IsSuccess()) + CountAll(obs, IsFailure()) + CountAll(obs, IsTimeout())
            + CountAll(obs, IsInfrastructure()) + CountAll(obs, IsContaminated())
         <= CountAll(obs, IsAny())
  {
    if obs != [] {
      CategoriesSeparate(obs[..|obs| - 1], item);
    }
  }

  lemma {:induction false} CountPlannedBound<V>(table: map<(string, nat), V>, item: string, trials: nat, p: V -> bool)
    ensures CountPlanned(table, item, trials, p) <= trials
  {
    if trials > 0 {
      CountPlannedBound(table, item, trials - 1, p);
    }
  }

  lemma ItemBound(obs: seq<Trial<ValidOutcome>>, item: string, trials: nat)
    requires UniqueKeys(obs) && IndexedBelow(obs, trials)
    ensures Count(obs, item, IsSuccess()) + Count(obs, item, IsFailure()) + Count(obs, item, IsTimeout())
            + Count(obs, item, IsInfrastructure()) + Count(obs, item, IsContaminated()) <= trials
  {
    CategoriesSeparate(obs, item);
    LookupsCount(obs, item, trials, IsAny());
    CountPlannedBound(ByKey(obs), item, trials, IsAny());
  }

  /** The summary of one item: input counts, with nothing negative and nothing lost. */
  ghost function SummaryOf(plan: Plan, obs: seq<Trial<ValidOutcome>>, item: string): (s: ItemSummary)
    requires plan.Valid() && UniqueKeys(obs) && IndexedBelow(obs, plan.trials)
    ensures s.successes + s.failures == s.observed
    ensures s.observed + s.missing == s.planned == plan.trials
    ensures s.timeouts + s.infrastructure + s.contaminated + s.unresolved == s.missing
  {
    ItemBound(obs, item, plan.trials);
    var successes, failures := Count(obs, item, IsSuccess()), Count(obs, item, IsFailure());
    var timeouts, infrastructure, contaminated := Count(obs, item, IsTimeout()),
      Count(obs, item, IsInfrastructure()), Count(obs, item, IsContaminated());
    var missing := plan.trials - (successes + failures);
    ItemSummary(item, plan.trials, successes + failures, successes, failures, missing, timeouts,
      infrastructure, contaminated, missing - timeouts - infrastructure - contaminated,
      PassEstimates(successes, plan, missing == 0))
  }

  ghost predicate Accepted(plan: Plan, obs: seq<Trial<ValidOutcome>>) {
    && UniqueKeys(obs) && ItemsWithin(obs, plan.items)
    && IndexedBelow(obs, plan.trials) && UniqueDigests(obs)
  }

  /** The totals are those of the whole input. */
  ghost predicate AggregateOf(plan: Plan, obs: seq<Trial<ValidOutcome>>, confidence: real, lib: Numerics,
                              a: Aggregate)
  {
    var successes, failures := CountAll(obs, IsSuccess()), CountAll(obs, IsFailure());
    && a.planned == |plan.items| * plan.trials
    && a.observed == successes + failures
    && a.observed + a.missing == a.planned
    && a.infrastructure == CountAll(obs, IsInfrastructure()) + CountAll(obs, IsTimeout())
    && a.contaminated == CountAll(obs, IsContaminated())
    && a.infrastructure + a.contaminated <= a.missing
    && StrictlyIncreasing(a.evidence) && |a.evidence| == a.observed
    && (forall d :: d in a.evidence <==> d in ObservedDigests(obs))
    && (a.estimate.Some? <==> a.observed > 0)
    && (a.estimate.Some? ==>
         && a.estimate.value.value == Proportion(successes, a.observed)
         && WilsonInterval(successes, a.observed, confidence, lib) == Ok(a.estimate.value.interval))
  }

  ghost predicate IsAnalysis(plan: Plan, obs: seq<Trial<ValidOutcome>>, confidence: real, lib: Numerics, a: Analysis)
    requires plan.Valid() && Accepted(plan, obs)
  {
    && |a.items| == |plan.items|
    && (forall i :: 0 <= i < |plan.items| ==> a.items[i] == SummaryOf(plan, obs, plan.items[i]))
    && AggregateOf(plan, obs, confidence, lib, a.aggregate)
  }

  // ----- the report, read off the observations

  ghost function Sized(obs: seq<Trial<ValidOutcome>>, p: Trial<ValidOutcome> -> bool): nat { |Where(obs, p)| }

  /** The observations of the item with this result. */
  function ScoredAs(item: string, success: bool): Trial<ValidOutcome> -> bool {
    (o: Trial<ValidOutcome>) => o.item == item && o.outcome.success == Some(success)
  }

  function TimedOut(item: string): Trial<ValidOutcome> -> bool {
    (o: Trial<ValidOutcome>) => o.item == item && o.outcome.timeout
  }

  function BrokenDown(item: string): Trial<ValidOutcome> -> bool {
    (o: Trial<ValidOutcome>) => o.item == item && o.outcome.infrastructureFailure
  }

  function Tainted(item: string): Trial<ValidOutcome> -> bool {
    (o: Trial<ValidOutcome>) => o.item == item && o.outcome.contaminated
  }

  /** Every field of an item's summary. A pass@k estimate is given only for a complete item. */
  ghost predicate ItemAccount(plan: Plan, obs: seq<Trial<ValidOutcome>>, item: string, s: ItemSummary) {
    && s.item == item && s.planned == plan.trials
    && s.successes == Sized(obs, ScoredAs(item, true)) && s.failures == Sized(obs, ScoredAs(item, false))
    && s.observed == s.successes + s.failures && s.missing == plan.trials - s.observed
    && s.timeouts == Sized(obs, TimedOut(item)) && s.infrastructure == Sized(obs, BrokenDown(item))
    && s.contaminated == Sized(obs, Tainted(item))
    && s.unresolved == s.missing - s.timeouts - s.infrastructure - s.contaminated
    && |s.passAtK| == |plan.passK|
    && forall i :: 0 <= i < |plan.passK| ==>
         && (s.passAtK[i].Some? <==> s.successes + s.failures == plan.trials)
         && (s.passAtK[i].Some? ==>
              && s.successes <= plan.trials && 0 < plan.passK[i] <= plan.trials
              && s.passAtK[i].value == Pass.PassAtK(s.successes, plan.trials, plan.passK[i]))
  }

  lemma SummaryAccounts(plan: Plan, obs: seq<Trial<ValidOutcome>>, item: string)
    requires plan.Valid() && UniqueKeys(obs) && IndexedBelow(obs, plan.trials)
    ensures ItemAccount(plan, obs, item, SummaryOf(plan, obs, item))
  {
    hide UniqueKeys, IndexedBelow, Pass.PassAtK;
    SizesAgree(obs, item);
    hide Sized, Count;
  }

  lemma SizesAgree(obs: seq<Trial<ValidOutcome>>, item: string)
    ensures Count(obs, item, IsSuccess()) == Sized(obs, ScoredAs(item, true))
    ensures Count(obs, item, IsFailure()) == Sized(obs, ScoredAs(item, false))
    ensures Count(obs, item, IsTimeout()) == Sized(obs, TimedOut(item))
    ensures Count(obs, item, IsInfrastructure()) == Sized(obs, BrokenDown(item))
    ensures Count(obs, item, IsContaminated()) == Sized(obs, Tainted(item))
  {
    hide Count;
    CountsAreSizes(obs, item, IsSuccess());
    CountsAreSizes(obs, item, IsFailure());
    CountsAreSizes(obs, item, IsTimeout());
    CountsAreSizes(obs, item, IsInfrastructure());
    CountsAreSizes(obs, item, IsContaminated());
    assert Where(obs, Among(item, IsSuccess())) == Where(obs, ScoredAs(item, true));
    assert Where(obs, Among(item, IsFailure())) == Where(obs, ScoredAs(item, false));
    assert Where(obs, Among(item, IsTimeout())) == Where(obs, TimedOut(item));
    assert Where(obs, Among(item, IsInfrastructure())) == Where(obs, BrokenDown(item));
    assert Where(obs, Among(item, IsContaminated())) == Where(obs, Tainted(item));
  }

  function ResultIs(success: bool): Trial<ValidOutcome> -> bool {
    (o: Trial<ValidOutcome>) => o.outcome.success == Some(success)
  }

  function Unscored(): Trial<ValidOutcome> -> bool {
    (o: Trial<ValidOutcome>) => o.outcome.infrastructureFailure || o.outcome.timeout
  }

  function TaintedAnywhere(): Trial<ValidOutcome> -> bool {
    (o: Trial<ValidOutcome>) => o.outcome.contaminated
  }

  /** Every field of the aggregate. Timeouts count as infrastructure. */
  ghost predicate AggregateAccount(plan: Plan, obs: seq<Trial<ValidOutcome>>, confidence: real, lib: Numerics,
                                   a: Aggregate)
  {
    && a.planned == |plan.items| * plan.trials
    && a.observed == Sized(obs, ResultIs(true)) + Sized(obs, ResultIs(false)) && a.missing == a.planned - a.observed
    && a.infrastructure == Sized(obs, Unscored()) && a.contaminated == Sized(obs, TaintedAnywhere())
    && StrictlyIncreasing(a.evidence) && |a.evidence| == a.observed
    && (forall d :: d in a.evidence <==>
          exists o :: o in obs && o.outcome.success.Some? && o.outcome.digest == Some(d))
    && (a.estimate.Some? <==> a.observed > 0)
    && (a.estimate.Some? ==>
         && a.estimate.value.value * a.observed as real == Sized(obs, ResultIs(true)) as real
         && WilsonInterval(Sized(obs, ResultIs(true)), a.observed, confidence, lib) == Ok(a.estimate.value.interval))
  }

  lemma {:induction false} UnscoredSplit(obs: seq<Trial<ValidOutcome>>)
    ensures Sized(obs, Unscored())
         == |Where(obs, AmongAll(IsInfrastructure()))| + |Where(obs, AmongAll(IsTimeout()))|
  {
    var broken, late := Where(obs, AmongAll(IsInfrastructure())), Where(obs, AmongAll(IsTimeout()));
    assert Where(obs, Unscored()) == broken + late;
    assert broken !! late;
  }

  lemma TotalsAgree(obs: seq<Trial<ValidOutcome>>)
    ensures CountAll(obs, IsSuccess()) == Sized(obs, ResultIs(true))
    ensures CountAll(obs, IsFailure()) == Sized(obs, ResultIs(false))
    ensures CountAll(obs, IsInfrastructure()) + CountAll(obs, IsTimeout()) == Sized(obs, Unscored())
    ensures CountAll(obs, IsContaminated()) == Sized(obs, TaintedAnywhere())
  {
    hide CountAll;
    CountsAreSizes(obs, "", IsSuccess());
    CountsAreSizes(obs, "", IsFailure());
    CountsAreSizes(obs, "", IsTimeout());
    CountsAreSizes(obs, "", IsInfrastructure());
    CountsAreSizes(obs, "", IsContaminated());
    assert Where(obs, AmongAll(IsSuccess())) == Where(obs, ResultIs(true));
    assert Where(obs, AmongAll(IsFailure())) == Where(obs, ResultIs(false));
    assert Where(obs, AmongAll(IsContaminated())) == Where(obs, TaintedAnywhere());
    UnscoredSplit(obs);
  }

  lemma AggregateAccounts(plan: Plan, obs: seq<Trial<ValidOutcome>>, confidence: real, lib: Numerics, a: Aggregate)
    requires AggregateOf(plan, obs, confidence, lib, a)
    ensures AggregateAccount(plan, obs, confidence, lib, a)
  {
    hide WilsonInterval, CountAll, Sized, ObservedDigests;
    TotalsAgree(obs);
    DigestsAmong(obs);
    if a.observed > 0 {
      Reals.QuotientTimes(Sized(obs, ResultIs(true)) as real, a.observed as real);
    }
  }

  ghost predicate Accounts(plan: Plan, obs: seq<Trial<ValidOutcome>>, confidence: real, lib: Numerics, a: Analysis) {
    && |a.items| == |plan.items|
    && (forall i :: 0 <= i < |plan.items| ==> ItemAccount(plan, obs, plan.items[i], a.items[i]))
    && AggregateAccount(plan, obs, confidence, lib, a.aggregate)
  }

  lemma AnalysisAccounts(plan: Plan, obs: seq<Trial<ValidOutcome>>, confidence: real, lib: Numerics, a: Analysis)
    requires plan.Valid() && Accepted(plan, obs) && IsAnalysis(plan, obs, confidence, lib, a)
    ensures Accounts(plan, obs, confidence, lib, a)
  {
    forall i | 0 <= i < |plan.items| ensures ItemAccount(plan, obs, plan.items[i], a.items[i]) {
      SummaryAccounts(plan, obs, plan.items[i]);
    }
    hide ItemAccount, SummaryOf;
    AggregateAccounts(plan, obs, confidence, lib, a.aggregate);
  }

  function DigestsOf(obs: seq<Trial<ValidOutcome>>): set<Digest> {
    set o | o in obs && o.outcome.digest.Some? :: o.outcome.digest.value
  }

  function HasDigest(): Trial<ValidOutcome> -> bool { (o: Trial<ValidOutcome>) => o.outcome.digest.Some? }

  /** Digests are unique exactly when there are as many of them as observations that have one. */
  lemma {:induction false} DigestsAreUnique(obs: seq<Trial<ValidOutcome>>)
    ensures |DigestsOf(obs)| <= |Where(obs, HasDigest())|
    ensures UniqueDigests(obs) <==> |DigestsOf(obs)| == |Where(obs, HasDigest())|
  {
    if obs != [] {
      var n := |obs| - 1;
      var o := obs[n];
      assert obs == obs[..n] + [o];
      DigestsAreUnique(obs[..n]);
      WhereNext(obs[..n], o, HasDigest());
      DigestsNext(obs[..n], o);
      UniqueNext(obs[..n], o);
    }
  }

  lemma DigestsNext(obs: seq<Trial<ValidOutcome>>, o: Trial<ValidOutcome>)
    ensures DigestsOf(obs + [o])
         == if o.outcome.digest.Some? then DigestsOf(obs) + {o.outcome.digest.value} else DigestsOf(obs)
  {}

  lemma UniqueNext(obs: seq<Trial<ValidOutcome>>, o: Trial<ValidOutcome>)
    ensures UniqueDigests(obs + [o]) <==>
      UniqueDigests(obs) && (o.outcome.digest.Some? ==> o.outcome.digest.value !in DigestsOf(obs))
  {
    var all := obs + [o];
    if UniqueDigests(all) {
      forall i, j | 0 <= i < j < |obs| && obs[i].outcome.digest.Some?
        ensures obs[i].outcome.digest != obs[j].outcome.digest
      {
        assert all[i] == obs[i] && all[j] == obs[j];
      }
      forall i | 0 <= i < |obs| && obs[i].outcome.digest.Some? ensures obs[i].outcome.digest != o.outcome.digest {
        assert all[i] == obs[i] && all[|obs|] == o;
      }
    }
  }

  // ----- evidence

  lemma DigestsGrow(obs: seq<Trial<ValidOutcome>>)
    requires obs != []
    ensures var o := obs[|obs| - 1].outcome;
            ObservedDigests(obs)
              == ObservedDigests(obs[..|obs| - 1]) + (if o.success.Some? then {o.digest.value} else {})
  {
    var n := |obs| - 1;
    assert forall i :: 0 <= i < n ==> obs[..n][i] == obs[i];
  }

  /** Each scored observation contributes one digest of its own. */
  lemma {:induction false} EvidenceCounts(obs: seq<Trial<ValidOutcome>>)
    requires UniqueDigests(obs)
    ensures |ObservedDigests(obs)| == CountAll(obs, IsSuccess()) + CountAll(obs, IsFailure())
  {
    if obs != [] {
      var n := |obs| - 1;
      assert forall i :: 0 <= i < n ==> obs[..n][i] == obs[i];
      EvidenceCounts(obs[..n]);
      DigestsGrow(obs);
      DigestIsNew(obs);
      hide UniqueDigests, ObservedDigests;
      ScoredOnce(obs[n].outcome);
    }
  }

  lemma DigestIsNew(obs: seq<Trial<ValidOutcome>>)
    requires UniqueDigests(obs) && obs != []
    ensures var o := obs[|obs| - 1].outcome;
            o.success.Some? ==> o.digest.value !in ObservedDigests(obs[..|obs| - 1])
  {}

  lemma ScoredOnce(o: ValidOutcome)
    ensures (if IsSuccess()(o) then 1 else 0) + (if IsFailure()(o) then 1 else 0) == (if o.success.Some? then 1 else 0)
  {
    match o.success
    case None =>
    case Some(b) => assert b == true || b == false;
  }

  // ----- the totals

  ghost predicate Totals(plan: Plan, obs: seq<Trial<ValidOutcome>>, items: seq<string>,
                         successes: nat, failures: nat, timeouts: nat, infrastructure: nat, contaminated: nat)
  {
    && successes == SumOver(obs, items, IsSuccess())
    && failures == SumOver(obs, items, IsFailure())
    && timeouts == SumOver(obs, items, IsTimeout())
    && infrastructure == SumOver(obs, items, IsInfrastructure())
    && contaminated == SumOver(obs, items, IsContaminated())
    && successes + failures + timeouts + infrastructure + contaminated <= |items| * plan.trials
  }

  lemma TotalsStart(plan: Plan, obs: seq<Trial<ValidOutcome>>)
    ensures Totals(plan, obs, plan.items[..0], 0, 0, 0, 0, 0)
  {}

  lemma TotalsStep(plan: Plan, obs: seq<Trial<ValidOutcome>>, i: nat,
                   successes: nat, failures: nat, timeouts: nat, infrastructure: nat, contaminated: nat)
    requires UniqueKeys(obs) && IndexedBelow(obs, plan.trials) && i < |plan.items|
    requires Totals(plan, obs, plan.items[..i], successes, failures, timeouts, infrastructure, contaminated)
    ensures var item := plan.items[i];
            Totals(plan, obs, plan.items[..i + 1],
                   successes + Count(obs, item, IsSuccess()), failures + Count(obs, item, IsFailure()),
                   timeouts + Count(obs, item, IsTimeout()), infrastructure + Count(obs, item, IsInfrastructure()),
                   contaminated + Count(obs, item, IsContaminated()))
  {
    hide SumOver, Count;
    SumOverNext(obs, plan.items, i, IsSuccess());
    SumOverNext(obs, plan.items, i, IsFailure());
    SumOverNext(obs, plan.items, i, IsTimeout());
    SumOverNext(obs, plan.items, i, IsInfrastructure());
    SumOverNext(obs, plan.items, i, IsContaminated());
    ItemBound(obs, plan.items[i], plan.trials);
    assert (i + 1) * plan.trials == i * plan.trials + plan.trials;
  }

  /** `repeated_trial_analysis`: the first failing check, or the accounting of the whole input. */
  method RepeatedTrialAnalysis(plan: Plan, obs: seq<Trial<ValidOutcome>>, confidence: real, lib: Numerics)
    returns (r: Result<Analysis, TrialError>)
    requires plan.Valid()
    ensures !UniqueKeys(obs) ==> r == Err(DuplicateReplicate)
    ensures UniqueKeys(obs) && !ItemsWithin(obs, plan.items) ==> r == Err(UndeclaredItem)
    ensures UniqueKeys(obs) && ItemsWithin(obs, plan.items) && !IndexedBelow(obs, plan.trials) ==> r == Err(BeyondPlan)
    ensures UniqueKeys(obs) && ItemsWithin(obs, plan.items) && IndexedBelow(obs, plan.trials) && !UniqueDigests(obs)
            ==> r == Err(ReusedDigest)
    ensures Accepted(plan, obs) && ObservedDigests(obs) != {} && !(0.0 < confidence < 1.0)
            ==> r == Err(BadInterval(ConfidenceOutOfRange))
    ensures Accepted(plan, obs) && (ObservedDigests(obs) == {} || 0.0 < confidence < 1.0)
            ==> r.Ok? && IsAnalysis(plan, obs, confidence, lib, r.value)
    ensures Accepted(plan, obs) && r.Ok? ==> Accounts(plan, obs, confidence, lib, r.value)
  {
    hide UniqueKeys, ItemsWithin, IndexedBelow, UniqueDigests, SumOver, Count, CountAll, ObservedDigests;
    hide SummaryOf, Ascending, WilsonInterval, Accounts;
    if !UniqueKeys(obs) { return Err(DuplicateReplicate); }
    if !ItemsWithin(obs, plan.items) { return Err(UndeclaredItem); }
    if !IndexedBelow(obs, plan.trials) { return Err(BeyondPlan); }
    if !UniqueDigests(obs) { return Err(ReusedDigest); }
    var table := ByKey(obs);
    var summaries: seq<ItemSummary> := [];
    var successes: nat, failures: nat := 0, 0;
    var timeouts: nat, infrastructure: nat, contaminated: nat := 0, 0, 0;
    TotalsStart(plan, obs);
    for i := 0 to |plan.items|
      invariant |summaries| == i
      invariant forall j :: 0 <= j < i ==> summaries[j] == SummaryOf(plan, obs, plan.items[j])
      invariant Totals(plan, obs, plan.items[..i], successes, failures, timeouts, infrastructure, contaminated)
    {
      var summary := Summarize(plan, obs, table, plan.items[i]);
      TotalsStep(plan, obs, i, successes, failures, timeouts, infrastructure, contaminated);
      successes, failures := successes + summary.successes, failures + summary.failures;
      timeouts := timeouts + summary.timeouts;
      infrastructure := infrastructure + summary.infrastructure;
      contaminated := contaminated + summary.contaminated;
      summaries := summaries + [summary];
    }
    assert plan.items[..|plan.items|] == plan.items;
    AllCounts(plan, obs);
    var planned, observed := |plan.items| * plan.trials, successes + failures;
    var estimate := None;
    if observed > 0 {
      IntervalOutcome(successes, observed, confidence, lib);
      var interval := WilsonInterval(successes, observed, confidence, lib);
      if interval.Err? { return Err(BadInterval(interval.error)); }
      estimate := Some(Estimate(Proportion(successes, observed), interval.value));
    }
    r := Ok(Analysis(summaries, Aggregate(
      estimate, planned, observed, planned - observed, infrastructure + timeouts, contaminated,
      Ascending(ObservedDigests(obs)))));
    AnalysisAccounts(plan, obs, confidence, lib, r.value);
  }

  lemma AllCounts(plan: Plan, obs: seq<Trial<ValidOutcome>>)
    requires plan.Valid() && Accepted(plan, obs)
    ensures SumOver(obs, plan.items, IsSuccess()) == CountAll(obs, IsSuccess())
    ensures SumOver(obs, plan.items, IsFailure()) == CountAll(obs, IsFailure())
    ensures SumOver(obs, plan.items, IsTimeout()) == CountAll(obs, IsTimeout())
    ensures SumOver(obs, plan.items, IsInfrastructure()) == CountAll(obs, IsInfrastructure())
    ensures SumOver(obs, plan.items, IsContaminated()) == CountAll(obs, IsContaminated())
    ensures |ObservedDigests(obs)| == CountAll(obs, IsSuccess()) + CountAll(obs, IsFailure())
  {
    ItemsCount(obs, plan.items, IsSuccess());
    ItemsCount(obs, plan.items, IsFailure());
    ItemsCount(obs, plan.items, IsTimeout());
    ItemsCount(obs, plan.items, IsInfrastructure());
    ItemsCount(obs, plan.items, IsContaminated());
    EvidenceCounts(obs);
  }

  /** One turn of the loop: every planned trial of the item is looked up. */
  method Summarize(plan: Plan, obs: seq<Trial<ValidOutcome>>, table: map<(string, nat), ValidOutcome>, item: string)
    returns (s: ItemSummary)
    requires plan.Valid() && Accepted(plan, obs) && table == ByKey(obs)
    ensures s == SummaryOf(plan, obs, item)
    ensures s.successes == Count(obs, item, IsSuccess()) && s.failures == Count(obs, item, IsFailure())
    ensures s.timeouts == Count(obs, item, IsTimeout())
    ensures s.infrastructure == Count(obs, item, IsInfrastructure())
    ensures s.contaminated == Count(obs, item, IsContaminated())
  {
    ItemBound(obs, item, plan.trials);
    LookupsCount(obs, item, plan.trials, IsSuccess());
    LookupsCount(obs, item, plan.trials, IsFailure());
    LookupsCount(obs, item, plan.trials, IsTimeout());
    LookupsCount(obs, item, plan.trials, IsInfrastructure());
    LookupsCount(obs, item, plan.trials, IsContaminated());
    var successes := CountPlanned(table, item, plan.trials, IsSuccess());
    var failures := CountPlanned(table, item, plan.trials, IsFailure());
    var timeouts := CountPlanned(table, item, plan.trials, IsTimeout());
    var infrastructure := CountPlanned(table, item, plan.trials, IsInfrastructure());
    var contaminated := CountPlanned(table, item, plan.trials, IsContaminated());
    var missing := plan.trials - (successes + failures);
    s := ItemSummary(item, plan.trials, successes + failures, successes, failures, missing, timeouts,
      infrastructure, contaminated, missing - timeouts - infrastructure - contaminated,
      PassEstimates(successes, plan, missing == 0));
  }

  // ----- the order of the observations does not matter

  function KeysApart(): (Trial<ValidOutcome>, Trial<ValidOutcome>) -> bool {
    (x: Trial<ValidOutcome>, y: Trial<ValidOutcome>) => x.item != y.item || x.index != y.index
  }

  function DigestsApart(): (Trial<ValidOutcome>, Trial<ValidOutcome>) -> bool {
    (x: Trial<ValidOutcome>, y: Trial<ValidOutcome>) =>
      x.outcome.digest.None? || x.outcome.digest != y.outcome.digest
  }

  lemma AcceptedPermuted(plan: Plan, a: seq<Trial<ValidOutcome>>, b: seq<Trial<ValidOutcome>>)
    requires multiset(a) == multiset(b) && Accepted(plan, a)
    ensures Accepted(plan, b)
  {
    assert Pairwise(a, KeysApart()) && Pairwise(a, DigestsApart());
    PairwisePermuted(a, b, KeysApart());
    PairwisePermuted(a, b, DigestsApart());
    forall i | 0 <= i < |b| ensures b[i] in a {
      assert b[i] in multiset(b);
    }
  }

  lemma DigestsPermuted(a: seq<Trial<ValidOutcome>>, b: seq<Trial<ValidOutcome>>)
    requires multiset(a) == multiset(b)
    ensures ObservedDigests(a) == ObservedDigests(b)
  {
    PermutedMembers(a, b);
    DigestsAmong(a);
    DigestsAmong(b);
  }

  lemma DigestsAmong(s: seq<Trial<ValidOutcome>>)
    ensures forall d :: d in ObservedDigests(s) <==>
      exists o :: o in s && o.outcome.success.Some? && o.outcome.digest == Some(d)
  {}

  lemma SummaryPermuted(plan: Plan, a: seq<Trial<ValidOutcome>>, b: seq<Trial<ValidOutcome>>, item: string)
    requires plan.Valid() && multiset(a) == multiset(b) && Accepted(plan, a) && Accepted(plan, b)
    ensures SummaryOf(plan, a, item) == SummaryOf(plan, b, item)
  {
    hide Count, Accepted, UniqueKeys, IndexedBelow, PassEstimates;
    CountPermuted(a, b, item, IsSuccess());
    CountPermuted(a, b, item, IsFailure());
    CountPermuted(a, b, item, IsTimeout());
    CountPermuted(a, b, item, IsInfrastructure());
    CountPermuted(a, b, item, IsContaminated());
  }

  lemma AggregatePermuted(plan: Plan, a: seq<Trial<ValidOutcome>>, b: seq<Trial<ValidOutcome>>,
                          confidence: real, lib: Numerics, r: Aggregate)
    requires multiset(a) == multiset(b)
    ensures AggregateOf(plan, a, confidence, lib, r) <==> AggregateOf(plan, b, confidence, lib, r)
  {
    CountPermuted(a, b, "", IsSuccess());
    CountPermuted(a, b, "", IsFailure());
    CountPermuted(a, b, "", IsTimeout());
    CountPermuted(a, b, "", IsInfrastructure());
    CountPermuted(a, b, "", IsContaminated());
    DigestsPermuted(a, b);
    hide CountAll, ObservedDigests, WilsonInterval;
  }

  /** Whether an input is accepted, and everything reported about it, depend only on which
      observations it contains. */
  lemma OrderIsIrrelevant(plan: Plan, a: seq<Trial<ValidOutcome>>, b: seq<Trial<ValidOutcome>>,
                          confidence: real, lib: Numerics, r: Analysis)
    requires plan.Valid() && multiset(a) == multiset(b)
    ensures Accepted(plan, a) <==> Accepted(plan, b)
    ensures Accepted(plan, a) ==> (IsAnalysis(plan, a, confidence, lib, r) <==> IsAnalysis(plan, b, confidence, lib, r))
  {
    if Accepted(plan, b) {
      AcceptedPermuted(plan, b, a);
    }
    if Accepted(plan, a) {
      AcceptedPermuted(plan, a, b);
      forall i | 0 <= i < |plan.items|
        ensures SummaryOf(plan, a, plan.items[i]) == SummaryOf(plan, b, plan.items[i])
      {
        SummaryPermuted(plan, a, b, plan.items[i]);
      }
      AggregatePermuted(plan, a, b, confidence, lib, r.aggregate);
      hide SummaryOf, AggregateOf, Accepted;
    }
  }
}
