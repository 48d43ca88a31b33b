/** The live campaign plan: how it is built in three stages, and how it is checked independently. */
module CampaignPlan {
  import opened Prelude
  import opened Finite
  import opened Contracts
  import opened CampaignBudget

  datatype Campaign = Campaign(conditions: seq<Condition>, bindings: seq<Binding>)

  datatype Allocation = Allocation(slot: Slot, status: SuiteStatus)

  datatype Stage = Stage(
    id: string, allocations: seq<Allocation>, conditionIds: seq<Id>, suites: seq<Id>,
    plannedTrials: int, ceilings: Ceilings)

  datatype Plan = Plan(authorizationRequired: bool, stages: seq<Stage>, totals: Ceilings)

  datatype Coordinate = Coordinate(condition: Id, suite: Id)

  function At(s: Slot): Coordinate { Coordinate(s.condition, s.suite) }

  function Slots(allocations: seq<Allocation>): (r: seq<Slot>)
    ensures |r| == |allocations|
    ensures forall i :: 0 <= i < |r| ==> r[i] == allocations[i].slot
  {
    seq(|allocations|, i requires 0 <= i < |allocations| => allocations[i].slot)
  }

  lemma SlotsConcat(a: seq<Allocation>, b: seq<Allocation>)
    ensures Slots(a + b) == Slots(a) + Slots(b)
  {}

  ghost predicate DistinctCoordinates(slots: seq<Slot>) {
    forall i, j :: 0 <= i < j < |slots| ==> At(slots[i]) != At(slots[j])
  }

  // ----- the table of declared coordinates

  /** The trials declared at each coordinate; a repeated coordinate keeps its last entry. */
  function TableOf(slots: seq<Slot>): map<Coordinate, nat> {
    if slots == [] then map[]
    else TableOf(slots[..|slots| - 1])[At(slots[|slots| - 1]) := slots[|slots| - 1].trials]
  }

  lemma {:induction false} TableKeys(slots: seq<Slot>)
    ensures forall c :: c in TableOf(slots) <==> exists s :: s in slots && At(s) == c
  {
    if slots != [] {
      var n := |slots| - 1;
      TableKeys(slots[..n]);
      assert slots == slots[..n] + [slots[n]];
    }
  }

  lemma {:induction false} TableSize(slots: seq<Slot>)
    ensures |TableOf(slots)| <= |slots|
    ensures |TableOf(slots)| == |slots| <==> DistinctCoordinates(slots)
  {
    if slots != [] {
      var n := |slots| - 1;
      TableSize(slots[..n]);
      TableKeys(slots[..n]);
      MapInsertSize(TableOf(slots[..n]), At(slots[n]), slots[n].trials);
      LastIsDistinct(slots);
    }
  }

  lemma MapInsertSize<K, V>(m: map<K, V>, k: K, v: V)
    ensures |m[k := v]| == |m| + (if k in m then 0 else 1)
  {
    assert m[k := v].Keys == m.Keys + {k};
  }

  lemma LastIsDistinct(slots: seq<Slot>)
    requires slots != []
    ensures var n := |slots| - 1;
            DistinctCoordinates(slots) <==>
              DistinctCoordinates(slots[..n]) && forall s :: s in slots[..n] ==> At(s) != At(slots[n])
  {
    var n := |slots| - 1;
    forall i | 0 <= i < n ensures slots[..n][i] == slots[i] {}
  }

  lemma {:induction false} TableTrials(slots: seq<Slot>, s: Slot)
    requires DistinctCoordinates(slots) && s in slots
    ensures At(s) in TableOf(slots) && TableOf(slots)[At(s)] == s.trials
  {
    var n := |slots| - 1;
    if s != slots[n] {
      assert slots == slots[..n] + [slots[n]];
      TableTrials(slots[..n], s);
    }
  }

  /** With distinct coordinates, looking a slot up finds it exactly when it was declared. */
  lemma TableFinds(slots: seq<Slot>, s: Slot)
    requires DistinctCoordinates(slots)
    ensures s in slots <==> At(s) in TableOf(slots) && TableOf(slots)[At(s)] == s.trials
  {
    TableKeys(slots);
    if At(s) in TableOf(slots) {
      var t :| t in slots && At(t) == At(s);
      TableTrials(slots, t);
    }
  }

  // ----- what a plan has to satisfy

  function AllAllocations(stages: seq<Stage>): seq<Allocation> {
    if stages == [] then []
    else AllAllocations(stages[..|stages| - 1]) + stages[|stages| - 1].allocations
  }

  function SumStages(stages: seq<Stage>): Ceilings {
    if stages == [] then ZERO else SumStages(stages[..|stages| - 1]).Plus(stages[|stages| - 1].ceilings)
  }

  function ConditionsIn(allocations: seq<Allocation>): set<Id> {
    set a | a in allocations :: a.slot.condition
  }

  function SuitesIn(allocations: seq<Allocation>): set<Id> {
    set a | a in allocations :: a.slot.suite
  }

  ghost predicate Frozen(campaign: Campaign, suites: map<Id, SuiteStatus>, a: Allocation) {
    && a.slot in Declared(campaign.bindings)
    && Lookup(campaign.conditions, a.slot.condition).Some?
    && a.slot.suite in suites && a.status == suites[a.slot.suite]
  }

  ghost predicate StageExact(campaign: Campaign, suites: map<Id, SuiteStatus>, stage: Stage) {
    && stage.allocations != []
    && (forall a :: a in stage.allocations ==> Frozen(campaign, suites, a))
    && stage.ceilings == Spend(campaign.conditions, Slots(stage.allocations))
    && stage.plannedTrials == stage.ceilings.requests
    && stage.conditionIds == Ascending(ConditionsIn(stage.allocations))
    && stage.suites == Ascending(SuitesIn(stage.allocations))
  }

  predicate DistinctStages(stages: seq<Stage>) {
    forall i, j :: 0 <= i < j < |stages| ==> stages[i].id != stages[j].id
  }

  ghost predicate Exact(campaign: Campaign, suites: map<Id, SuiteStatus>, plan: Plan) {
    var slots := Slots(AllAllocations(plan.stages));
    && plan.authorizationRequired
    && DistinctStages(plan.stages)
    && DistinctCoordinates(Declared(campaign.bindings))
    && (forall i :: 0 <= i < |plan.stages| ==> StageExact(campaign, suites, plan.stages[i]))
    && DistinctCoordinates(slots)
    && (forall s :: s in Declared(campaign.bindings) ==> s in slots)
    && plan.totals == SumStages(plan.stages)
    && Reconciled(campaign.conditions, slots)
  }

  // ----- what acceptance means

  lemma {:induction false} StagesSpend(campaign: Campaign, suites: map<Id, SuiteStatus>, stages: seq<Stage>)
    requires forall i :: 0 <= i < |stages| ==> StageExact(campaign, suites, stages[i])
    ensures SumStages(stages) == Spend(campaign.conditions, Slots(AllAllocations(stages)))
  {
    if stages != [] {
      var n := |stages| - 1;
      StagesSpend(campaign, suites, stages[..n]);
      hide Spend, Slots, Frozen;
      SlotsConcat(AllAllocations(stages[..n]), stages[n].allocations);
      SpendConcat(campaign.conditions, Slots(AllAllocations(stages[..n])), Slots(stages[n].allocations));
    }
  }

  lemma {:induction false} StagesFrozen(campaign: Campaign, suites: map<Id, SuiteStatus>, stages: seq<Stage>)
    requires forall i :: 0 <= i < |stages| ==> StageExact(campaign, suites, stages[i])
    ensures forall a :: a in AllAllocations(stages) ==> Frozen(campaign, suites, a)
  {
    if stages != [] {
      StagesFrozen(campaign, suites, stages[..|stages| - 1]);
    }
  }

  /** Six totals, one equation: the global ceilings are the sum of the condition ceilings. */
  lemma TotalsAreConserved(campaign: Campaign, suites: map<Id, SuiteStatus>, plan: Plan)
    requires DistinctConditions(campaign.conditions) && Exact(campaign, suites, plan)
    ensures plan.totals == SumCeilings(campaign.conditions)
  {
    StagesSpend(campaign, suites, plan.stages);
    ReconciledConserves(campaign.conditions, Slots(AllAllocations(plan.stages)));
  }

  lemma DistinctHaveNoRepeats(slots: seq<Slot>)
    requires DistinctCoordinates(slots)
    ensures NoRepeats(slots)
  {}

  /** The stages partition the declared coordinates: each appears in exactly one place, with its
      declared number of trials. */
  lemma StagesPartition(campaign: Campaign, suites: map<Id, SuiteStatus>, plan: Plan)
    requires Exact(campaign, suites, plan)
    ensures multiset(Slots(AllAllocations(plan.stages))) == multiset(Declared(campaign.bindings))
    ensures NoRepeats(Declared(campaign.bindings))
    ensures forall a :: a in AllAllocations(plan.stages) ==> a.slot.suite in suites && a.status == suites[a.slot.suite]
  {
    var slots, declared := Slots(AllAllocations(plan.stages)), Declared(campaign.bindings);
    StagesFrozen(campaign, suites, plan.stages);
    SlotsDeclared(campaign, suites, plan.stages);
    DistinctHaveNoRepeats(slots);
    DistinctHaveNoRepeats(declared);
    SameElements(slots, declared);
  }

  // ----- the check

  datatype PlanError =
    | NoAuthorization
    | DuplicateStages
    | DuplicateDeclared
    | EmptyStage
    | UnknownAllocation
    | RepeatedAllocation
    | DriftedAllocation
    | DriftedCeilings
    | DriftedTrials
    | DriftedIndices
    | Omitted
    | DriftedTotals
    | DriftedCondition

  ghost predicate Unknown(campaign: Campaign, suites: map<Id, SuiteStatus>, a: Allocation) {
    || At(a.slot) !in TableOf(Declared(campaign.bindings))
    || Lookup(campaign.conditions, a.slot.condition).None?
    || a.slot.suite !in suites
  }

  /** The errors raised inside the loop over the stages. */
  predicate OfStage(e: PlanError) {
    || e.EmptyStage? || e.UnknownAllocation? || e.RepeatedAllocation? || e.DriftedAllocation?
    || e.DriftedCeilings? || e.DriftedTrials? || e.DriftedIndices?
  }

  /** What an error raised at `stage`, after the allocations `observed` before it, says. */
  ghost predicate StageViolates(e: PlanError, campaign: Campaign, suites: map<Id, SuiteStatus>, stage: Stage,
                                observed: seq<Allocation>)
  {
    match e
    case EmptyStage => stage.allocations == []
    case UnknownAllocation => exists a :: a in stage.allocations && Unknown(campaign, suites, a)
    case RepeatedAllocation => !DistinctCoordinates(Slots(observed + stage.allocations))
    case DriftedAllocation =>
      exists a :: a in stage.allocations && !Unknown(campaign, suites, a) && !Frozen(campaign, suites, a)
    case DriftedCeilings => stage.ceilings != Spend(campaign.conditions, Slots(stage.allocations))
    case DriftedTrials => stage.plannedTrials != Spend(campaign.conditions, Slots(stage.allocations)).requests
    case DriftedIndices =>
      || stage.conditionIds != Ascending(ConditionsIn(stage.allocations))
      || stage.suites != Ascending(SuitesIn(stage.allocations))
    case _ => false
  }

  ghost predicate Violates(e: PlanError, campaign: Campaign, suites: map<Id, SuiteStatus>, plan: Plan) {
    var slots := Slots(AllAllocations(plan.stages));
    match e
    case NoAuthorization => !plan.authorizationRequired
    case DuplicateStages => !DistinctStages(plan.stages)
    case DuplicateDeclared => !DistinctCoordinates(Declared(campaign.bindings))
    case Omitted => exists s :: s in Declared(campaign.bindings) && s !in slots
    case DriftedTotals => plan.totals != SumStages(plan.stages)
    case DriftedCondition => !Reconciled(campaign.conditions, slots)
    case _ =>
      exists i ::
        && 0 <= i < |plan.stages|
        && StageViolates(e, campaign, suites, plan.stages[i], AllAllocations(plan.stages[..i]))
  }

  /** Every allocation of the stage is the declared one, and none repeats a coordinate. */
  ghost predicate AllocationsFit(campaign: Campaign, suites: map<Id, SuiteStatus>, stage: Stage,
                                 observed: seq<Allocation>)
  {
    && (forall a :: a in stage.allocations ==> Frozen(campaign, suites, a))
    && DistinctCoordinates(Slots(observed + stage.allocations))
  }

  predicate Taken(observed: seq<Allocation>, c: Coordinate) {
    exists k :: 0 <= k < |observed| && At(observed[k].slot) == c
  }

  lemma DistinctNext(observed: seq<Allocation>, a: Allocation)
    requires DistinctCoordinates(Slots(observed))
    ensures DistinctCoordinates(Slots(observed + [a])) <==> !Taken(observed, At(a.slot))
  {
    var slots := Slots(observed + [a]);
    forall k | 0 <= k < |observed| ensures slots[k] == Slots(observed)[k] {}
    assert slots[|observed|] == a.slot;
  }

  lemma DistinctPrefix(a: seq<Allocation>, b: seq<Allocation>)
    requires a <= b && DistinctCoordinates(Slots(b))
    ensures DistinctCoordinates(Slots(a))
  {
    forall k | 0 <= k < |a| ensures Slots(a)[k] == Slots(b)[k] {}
  }

  lemma SpendAppends(conditions: seq<Condition>, allocations: seq<Allocation>, j: nat)
    requires j < |allocations| && Lookup(conditions, allocations[j].slot.condition).Some?
    ensures Spend(conditions, Slots(allocations[..j + 1]))
         == Spend(conditions, Slots(allocations[..j]))
              .Plus(UnitBudget(Lookup(conditions, allocations[j].slot.condition).value.factors)
                    .Times(allocations[j].slot.trials))
  {
    SpendNext(conditions, Slots(allocations[..j]), allocations[j].slot);
    assert Slots(allocations[..j + 1]) == Slots(allocations[..j]) + [allocations[j].slot];
  }

  lemma KnownIsFrozen(campaign: Campaign, suites: map<Id, SuiteStatus>, a: Allocation)
    requires DistinctCoordinates(Declared(campaign.bindings)) && !Unknown(campaign, suites, a)
    ensures Frozen(campaign, suites, a) <==>
      && TableOf(Declared(campaign.bindings))[At(a.slot)] == a.slot.trials
      && a.status == suites[a.slot.suite]
  {
    TableFinds(Declared(campaign.bindings), a.slot);
  }

  lemma UnknownIsNotFrozen(campaign: Campaign, suites: map<Id, SuiteStatus>, a: Allocation)
    requires Unknown(campaign, suites, a)
    ensures !Frozen(campaign, suites, a)
  {
    TableKeys(Declared(campaign.bindings));
  }

  /** The body of the loop over the stages. */
  method CheckStage(campaign: Campaign, suites: map<Id, SuiteStatus>, table: map<Coordinate, nat>, stage: Stage,
                    observed: seq<Allocation>)
    returns (e: Option<PlanError>)
    requires DistinctCoordinates(Declared(campaign.bindings)) && table == TableOf(Declared(campaign.bindings))
    requires DistinctCoordinates(Slots(observed))
    ensures e.None? <==>
      StageExact(campaign, suites, stage) && DistinctCoordinates(Slots(observed + stage.allocations))
    ensures e.Some? ==> OfStage(e.value) && StageViolates(e.value, campaign, suites, stage, observed)
    ensures e == Some(EmptyStage) <==> stage.allocations == []
    ensures e == Some(DriftedCeilings) <==>
      && stage.allocations != [] && AllocationsFit(campaign, suites, stage, observed)
      && stage.ceilings != Spend(campaign.conditions, Slots(stage.allocations))
    ensures e == Some(DriftedTrials) <==>
      && stage.allocations != [] && AllocationsFit(campaign, suites, stage, observed)
      && stage.ceilings == Spend(campaign.conditions, Slots(stage.allocations))
      && stage.plannedTrials != stage.ceilings.requests
  {
    hide Spend, TableOf, Lookup, DistinctCoordinates, Declared, Slots, ConditionsIn, SuitesIn, Ascending, UnitBudget;
    hide Ceilings.Plus, Ceilings.Times;
    if stage.allocations == [] { return Some(EmptyStage); }
    var expected := ZERO;
    SpendOfNothing(campaign.conditions);
    assert observed + stage.allocations[..0] == observed;
    EmptySlots(stage.allocations);
    for j := 0 to |stage.allocations|
      invariant forall k :: 0 <= k < j ==> Frozen(campaign, suites, stage.allocations[k])
      invariant DistinctCoordinates(Slots(observed + stage.allocations[..j]))
      invariant expected == Spend(campaign.conditions, Slots(stage.allocations[..j]))
    {
      var a := stage.allocations[j];
      var condition := Lookup(campaign.conditions, a.slot.condition);
      if At(a.slot) !in table || condition.None? || a.slot.suite !in suites {
        UnknownIsNotFrozen(campaign, suites, a);
        assert a in stage.allocations;
        return Some(UnknownAllocation);
      }
      var seen := observed + stage.allocations[..j];
      assert observed + stage.allocations[..j + 1] == seen + [a];
      DistinctNext(seen, a);
      if Taken(seen, At(a.slot)) {
        ghost var whole := observed + stage.allocations;
        if DistinctCoordinates(Slots(whole)) {
          DistinctPrefix(seen + [a], whole);
        }
        return Some(RepeatedAllocation);
      }
      KnownIsFrozen(campaign, suites, a);
      if a.slot.trials != table[At(a.slot)] || a.status != suites[a.slot.suite] {
        return Some(DriftedAllocation);
      }
      SpendAppends(campaign.conditions, stage.allocations, j);
      expected := expected.Plus(UnitBudget(condition.value.factors).Times(table[At(a.slot)]));
    }
    assert stage.allocations[..|stage.allocations|] == stage.allocations;
    if stage.ceilings != expected { return Some(DriftedCeilings); }
    if stage.plannedTrials != expected.requests { return Some(DriftedTrials); }
    var conditionIds := Ascending(ConditionsIn(stage.allocations));
    var suiteDigests := Ascending(SuitesIn(stage.allocations));
    if stage.conditionIds != conditionIds || stage.suites != suiteDigests { return Some(DriftedIndices); }
    e := None;
  }

  lemma EmptySlots(allocations: seq<Allocation>)
    ensures Slots(allocations[..0]) == []
  {}

  function CoordinatesOf(slots: seq<Slot>): set<Coordinate> {
    set s | s in slots :: At(s)
  }

  lemma CoversWhenKeysAgree(slots: seq<Slot>, declared: seq<Slot>)
    requires DistinctCoordinates(declared) && forall s :: s in slots ==> s in declared
    ensures CoordinatesOf(slots) == TableOf(declared).Keys <==> forall s :: s in declared ==> s in slots
  {
    TableKeys(declared);
    if CoordinatesOf(slots) == TableOf(declared).Keys {
      forall s | s in declared ensures s in slots {
        assert At(s) in TableOf(declared);
        var t :| t in slots && At(t) == At(s);
        TableTrials(declared, s);
        TableTrials(declared, t);
      }
    }
  }

  /** Trials per condition, added up allocation by allocation. */
  method CountByCondition(slots: seq<Slot>) returns (counter: map<Id, nat>)
    ensures Counts(counter, slots)
  {
    counter := map[];
    for i := 0 to |slots|
      invariant Counts(counter, slots[..i])
    {
      CountsNext(counter, slots[..i], slots[i]);
      counter := counter[slots[i].condition := Get(counter, slots[i].condition) + slots[i].trials];
      assert slots[..i + 1] == slots[..i] + [slots[i]];
    }
    assert slots[..|slots|] == slots;
  }

  /** The loop over the stages, which collects the allocations it has seen. */
  method CheckStages(campaign: Campaign, suites: map<Id, SuiteStatus>, table: map<Coordinate, nat>, stages: seq<Stage>)
    returns (e: Option<PlanError>, observed: seq<Allocation>)
    requires DistinctCoordinates(Declared(campaign.bindings)) && table == TableOf(Declared(campaign.bindings))
    ensures e.None? ==> observed == AllAllocations(stages)
    ensures e.None? <==>
      && (forall i :: 0 <= i < |stages| ==> StageExact(campaign, suites, stages[i]))
      && DistinctCoordinates(Slots(AllAllocations(stages)))
    ensures e.Some? ==> OfStage(e.value) && exists i ::
      && 0 <= i < |stages|
      && StageViolates(e.value, campaign, suites, stages[i], AllAllocations(stages[..i]))
  {
    hide TableOf, Declared, Slots, DistinctCoordinates, StageExact, StageViolates;
    e, observed := None, [];
    NothingIsDistinct();
    for i := 0 to |stages|
      invariant e.None? && forall k :: 0 <= k < i ==> StageExact(campaign, suites, stages[k])
      invariant observed == AllAllocations(stages[..i]) && DistinctCoordinates(Slots(observed))
    {
      PrefixOfAll(stages, i);
      e := CheckStage(campaign, suites, table, stages[i], observed);
      if e.Some? {
        if DistinctCoordinates(Slots(AllAllocations(stages))) {
          DistinctPrefix(AllAllocations(stages[..i + 1]), AllAllocations(stages));
        }
        return;
      }
      observed := observed + stages[i].allocations;
    }
    assert stages[..|stages|] == stages;
  }

  /** The last loop of the check: every condition's ceilings against its counted trials. */
  method CheckConditions(conditions: seq<Condition>, slots: seq<Slot>) returns (ok: bool)
    ensures ok <==> Reconciled(conditions, slots)
  {
    hide Share, TrialsFor;
    var counter := CountByCondition(slots);
    CounterGives(counter, slots);
    for i := 0 to |conditions|
      invariant forall k :: 0 <= k < i ==>
        conditions[k].ceilings == Share(conditions[k], TrialsFor(slots, conditions[k].id))
    {
      var c := conditions[i];
      if c.ceilings != Share(c, Get(counter, c.id)) { return false; }
    }
    ok := true;
  }

  /** What is checked before the stages. */
  ghost predicate Consistent(campaign: Campaign, plan: Plan) {
    && plan.authorizationRequired && DistinctStages(plan.stages)
    && DistinctCoordinates(Declared(campaign.bindings))
  }

  ghost predicate StagesFit(campaign: Campaign, suites: map<Id, SuiteStatus>, plan: Plan) {
    && (forall i :: 0 <= i < |plan.stages| ==> StageExact(campaign, suites, plan.stages[i]))
    && DistinctCoordinates(Slots(AllAllocations(plan.stages)))
  }

  ghost predicate Covers(campaign: Campaign, plan: Plan) {
    forall s :: s in Declared(campaign.bindings) ==> s in Slots(AllAllocations(plan.stages))
  }

  /** `_validate_live_campaign_plan`: passes exactly the exact plans, and an error names the
      first check that fails. */
  method ValidateLiveCampaignPlan(campaign: Campaign, suites: map<Id, SuiteStatus>, plan: Plan)
    returns (e: Option<PlanError>)
    ensures e.None? <==> Exact(campaign, suites, plan)
    ensures e.Some? ==> Violates(e.value, campaign, suites, plan)
    ensures e == Some(NoAuthorization) <==> !plan.authorizationRequired
    ensures e == Some(DuplicateStages) <==> plan.authorizationRequired && !DistinctStages(plan.stages)
    ensures e == Some(DuplicateDeclared) <==>
      plan.authorizationRequired && DistinctStages(plan.stages) && !DistinctCoordinates(Declared(campaign.bindings))
    ensures e.Some? && OfStage(e.value) <==> Consistent(campaign, plan) && !StagesFit(campaign, suites, plan)
    ensures e == Some(Omitted) <==>
      Consistent(campaign, plan) && StagesFit(campaign, suites, plan) && !Covers(campaign, plan)
    ensures e == Some(DriftedTotals) <==>
      && Consistent(campaign, plan) && StagesFit(campaign, suites, plan) && Covers(campaign, plan)
      && plan.totals != SumStages(plan.stages)
    ensures e == Some(DriftedCondition) <==>
      && Consistent(campaign, plan) && StagesFit(campaign, suites, plan) && Covers(campaign, plan)
      && plan.totals == SumStages(plan.stages)
      && !Reconciled(campaign.conditions, Slots(AllAllocations(plan.stages)))
  {
    hide Declared, TableOf, Slots, DistinctCoordinates, DistinctStages, StageExact, SumStages, Reconciled;
    hide StageViolates, Frozen, AllAllocations, CoordinatesOf, StagesFit, Covers, Exact;
    PartsOfExact(campaign, suites, plan);
    if !plan.authorizationRequired { return Some(NoAuthorization); }
    if !DistinctStages(plan.stages) { return Some(DuplicateStages); }
    var declared := Declared(campaign.bindings);
    var table := TableOf(declared);
    TableSize(declared);
    if |table| != |declared| { return Some(DuplicateDeclared); }
    var observed;
    e, observed := CheckStages(campaign, suites, table, plan.stages);
    if e.Some? { return; }
    SlotsDeclared(campaign, suites, plan.stages);
    CoversWhenKeysAgree(Slots(observed), declared);
    if CoordinatesOf(Slots(observed)) != table.Keys { return Some(Omitted); }
    if SumStages(plan.stages) != plan.totals { return Some(DriftedTotals); }
    var reconciled := CheckConditions(campaign.conditions, Slots(observed));
    if !reconciled { return Some(DriftedCondition); }
  }

  lemma PartsOfExact(campaign: Campaign, suites: map<Id, SuiteStatus>, plan: Plan)
    ensures var slots := Slots(AllAllocations(plan.stages));
            && (Exact(campaign, suites, plan) <==>
                 && Consistent(campaign, plan) && StagesFit(campaign, suites, plan) && Covers(campaign, plan)
                 && plan.totals == SumStages(plan.stages) && Reconciled(campaign.conditions, slots))
            && (StagesFit(campaign, suites, plan) <==>
                 && (forall i :: 0 <= i < |plan.stages| ==> StageExact(campaign, suites, plan.stages[i]))
                 && DistinctCoordinates(slots))
            && (Covers(campaign, plan) <==> forall s :: s in Declared(campaign.bindings) ==> s in slots)
  {
    hide Declared, Slots, DistinctCoordinates, DistinctStages, StageExact, SumStages, Reconciled, AllAllocations;
  }

  lemma CounterGives(counter: map<Id, nat>, slots: seq<Slot>)
    requires Counts(counter, slots)
    ensures forall id :: Get(counter, id) == TrialsFor(slots, id)
  {}

  lemma NothingIsDistinct()
    ensures DistinctCoordinates(Slots([]))
  {}

  lemma {:induction false} PrefixOfAll(stages: seq<Stage>, i: nat)
    requires i < |stages|
    ensures AllAllocations(stages[..i + 1]) == AllAllocations(stages[..i]) + stages[i].allocations
    ensures AllAllocations(stages[..i + 1]) <= AllAllocations(stages)
    decreases |stages|
  {
    var n := |stages| - 1;
    assert stages[..i + 1][..i] == stages[..i];
    if i == n {
      assert stages[..i + 1] == stages;
    } else {
      PrefixOfAll(stages[..n], i);
      assert stages[..n][..i + 1] == stages[..i + 1];
    }
  }

  lemma SlotsDeclared(campaign: Campaign, suites: map<Id, SuiteStatus>, stages: seq<Stage>)
    requires forall i :: 0 <= i < |stages| ==> StageExact(campaign, suites, stages[i])
    ensures forall s :: s in Slots(AllAllocations(stages)) ==> s in Declared(campaign.bindings)
  {
    StagesFrozen(campaign, suites, stages);
    var slots := Slots(AllAllocations(stages));
    forall s | s in slots ensures s in Declared(campaign.bindings) {
      var i :| 0 <= i < |slots| && slots[i] == s;
      assert Frozen(campaign, suites, AllAllocations(stages)[i]);
    }
  }
}
