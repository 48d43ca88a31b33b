/** `_live_plan`: the three stages built from the frozen bindings, and when the independent check
    accepts them. */
module CampaignBuild {
  import opened Prelude
  import opened Finite
  import opened Contracts
  import opened CampaignBudget
  import opened CampaignPlan

  function ArtifactOf(conditions: seq<Condition>, id: Id): Option<Artifact> {
    var c := Lookup(conditions, id);
    if c.Some? then Some(c.value.factors.artifact) else None
  }

  function W8Ready(conditions: seq<Condition>): Allocation -> bool {
    (a: Allocation) => ArtifactOf(conditions, a.slot.condition) == Some(W8A16) && a.status == Ready
  }

  function W8Blocked(conditions: seq<Condition>): Allocation -> bool {
    (a: Allocation) => ArtifactOf(conditions, a.slot.condition) == Some(W8A16) && a.status != Ready
  }

  function Bf16(conditions: seq<Condition>): Allocation -> bool {
    (a: Allocation) => ArtifactOf(conditions, a.slot.condition) == Some(SourceBF16)
  }

  function Select(allocations: seq<Allocation>, p: Allocation -> bool): seq<Allocation> {
    if allocations == [] then []
    else
      var a := allocations[|allocations| - 1];
      Select(allocations[..|allocations| - 1], p) + (if p(a) then [a] else [])
  }

  predicate KnownSuites(slots: seq<Slot>, suites: map<Id, SuiteStatus>) {
    forall i :: 0 <= i < |slots| ==> slots[i].suite in suites
  }

  predicate KnownConditions(slots: seq<Slot>, conditions: seq<Condition>) {
    forall i :: 0 <= i < |slots| ==> Lookup(conditions, slots[i].condition).Some?
  }

  /** `all_allocations` */
  function AllocationsFor(slots: seq<Slot>, suites: map<Id, SuiteStatus>): seq<Allocation>
    requires KnownSuites(slots, suites)
  {
    seq(|slots|, i requires 0 <= i < |slots| => Allocation(slots[i], suites[slots[i].suite]))
  }

  /** The stage over `allocations`, with ceilings that pay for exactly those. */
  ghost function StageOf(conditions: seq<Condition>, id: string, allocations: seq<Allocation>): Stage {
    var spend := Spend(conditions, Slots(allocations));
    Stage(id, allocations, Ascending(ConditionsIn(allocations)), Ascending(SuitesIn(allocations)),
          spend.requests, spend)
  }

  ghost function PlanOf(campaign: Campaign, suites: map<Id, SuiteStatus>): Plan
    requires KnownSuites(Declared(campaign.bindings), suites)
  {
    var all := AllocationsFor(Declared(campaign.bindings), suites);
    var stages := [
      StageOf(campaign.conditions, "w8a16-content-ready", Select(all, W8Ready(campaign.conditions))),
      StageOf(campaign.conditions, "w8a16-blocked-expansion", Select(all, W8Blocked(campaign.conditions))),
      StageOf(campaign.conditions, "source-bf16-reference", Select(all, Bf16(campaign.conditions)))];
    Plan(true, stages, SumStages(stages))
  }

  // ----- building

  lemma {:induction false} SelectMembers(allocations: seq<Allocation>, p: Allocation -> bool)
    ensures forall a :: a in Select(allocations, p) <==> a in allocations && p(a)
  {
    if allocations != [] {
      var n := |allocations| - 1;
      SelectMembers(allocations[..n], p);
      assert allocations == allocations[..n] + [allocations[n]];
    }
  }

  lemma SelectNothing(p: Allocation -> bool)
    ensures Select([], p) == []
  {}

  lemma SelectNext(allocations: seq<Allocation>, a: Allocation, p: Allocation -> bool)
    ensures Select(allocations + [a], p) == Select(allocations, p) + (if p(a) then [a] else [])
  {
    assert (allocations + [a])[..|allocations|] == allocations;
  }

  /** The inner `stage`. */
  method BuildStage(conditions: seq<Condition>, id: string, allocations: seq<Allocation>) returns (s: Stage)
    requires forall a :: a in allocations ==> Lookup(conditions, a.slot.condition).Some?
    ensures s == StageOf(conditions, id, allocations)
  {
    hide Lookup, UnitBudget, Spend, Slots, Ceilings.Plus, Ceilings.Times;
    var total := ZERO;
    SpendOfNothing(conditions);
    EmptySlots(allocations);
    for j := 0 to |allocations|
      invariant total == Spend(conditions, Slots(allocations[..j]))
    {
      var a := allocations[j];
      SpendAppends(conditions, allocations, j);
      total := total.Plus(UnitBudget(Lookup(conditions, a.slot.condition).value.factors).Times(a.slot.trials));
    }
    assert allocations[..|allocations|] == allocations;
    s := Stage(id, allocations, Ascending(ConditionsIn(allocations)), Ascending(SuitesIn(allocations)),
               total.requests, total);
  }

  datatype LookupFailure = UnknownSuite | UnknownCondition

  /** `_live_plan`; the lookups of an unknown suite or condition fail. */
  method LivePlan(campaign: Campaign, suites: map<Id, SuiteStatus>) returns (r: Result<Plan, LookupFailure>)
    ensures !KnownSuites(Declared(campaign.bindings), suites) ==> r == Err(UnknownSuite)
    ensures var slots := Declared(campaign.bindings);
            KnownSuites(slots, suites) && !KnownConditions(slots, campaign.conditions) ==> r == Err(UnknownCondition)
    ensures var slots := Declared(campaign.bindings);
            KnownSuites(slots, suites) && KnownConditions(slots, campaign.conditions) ==>
              r == Ok(PlanOf(campaign, suites))
  {
    hide StageOf, Select, Lookup, Declared;
    var slots, conditions := Declared(campaign.bindings), campaign.conditions;
    if !KnownSuites(slots, suites) { return Err(UnknownSuite); }
    if !KnownConditions(slots, conditions) { return Err(UnknownCondition); }
    var all := AllocationsFor(slots, suites);
    SelectMembers(all, W8Ready(conditions));
    SelectMembers(all, W8Blocked(conditions));
    SelectMembers(all, Bf16(conditions));
    var ready := BuildStage(conditions, "w8a16-content-ready", Select(all, W8Ready(conditions)));
    var blocked := BuildStage(conditions, "w8a16-blocked-expansion", Select(all, W8Blocked(conditions)));
    var reference := BuildStage(conditions, "source-bf16-reference", Select(all, Bf16(conditions)));
    var stages := [ready, blocked, reference];
    r := Ok(Plan(true, stages, SumStages(stages)));
  }

  // ----- when the check accepts what was built

  /** Every coordinate's artifact is one of the two that have a stage. */
  ghost predicate ArtifactsStaged(campaign: Campaign) {
    forall s :: s in Declared(campaign.bindings) ==>
      var artifact := ArtifactOf(campaign.conditions, s.condition);
      artifact == Some(W8A16) || artifact == Some(SourceBF16)
  }

  ghost predicate NoEmptyStage(campaign: Campaign, suites: map<Id, SuiteStatus>)
    requires KnownSuites(Declared(campaign.bindings), suites)
  {
    var all := AllocationsFor(Declared(campaign.bindings), suites);
    && Select(all, W8Ready(campaign.conditions)) != []
    && Select(all, W8Blocked(campaign.conditions)) != []
    && Select(all, Bf16(campaign.conditions)) != []
  }

  ghost function Staged(all: seq<Allocation>, conditions: seq<Condition>): seq<Allocation> {
    Select(all, W8Ready(conditions)) + Select(all, W8Blocked(conditions)) + Select(all, Bf16(conditions))
  }

  lemma StagedIsAll(campaign: Campaign, suites: map<Id, SuiteStatus>)
    requires KnownSuites(Declared(campaign.bindings), suites)
    ensures AllAllocations(PlanOf(campaign, suites).stages)
         == Staged(AllocationsFor(Declared(campaign.bindings), suites), campaign.conditions)
  {
    hide StageOf, Select, AllocationsFor, Declared;
    var all := AllocationsFor(Declared(campaign.bindings), suites);
    var a, b, c := Select(all, W8Ready(campaign.conditions)), Select(all, W8Blocked(campaign.conditions)),
      Select(all, Bf16(campaign.conditions));
    ThreeStages(StageOf(campaign.conditions, "w8a16-content-ready", a),
                StageOf(campaign.conditions, "w8a16-blocked-expansion", b),
                StageOf(campaign.conditions, "source-bf16-reference", c));
    StageOfAllocations(campaign.conditions, "w8a16-content-ready", a);
    StageOfAllocations(campaign.conditions, "w8a16-blocked-expansion", b);
    StageOfAllocations(campaign.conditions, "source-bf16-reference", c);
  }

  lemma StageOfAllocations(conditions: seq<Condition>, id: string, allocations: seq<Allocation>)
    ensures StageOf(conditions, id, allocations).allocations == allocations
    ensures StageOf(conditions, id, allocations).id == id
  {}

  lemma ThreeStages(a: Stage, b: Stage, c: Stage)
    ensures AllAllocations([a, b, c]) == a.allocations + b.allocations + c.allocations
  {
    assert [a, b, c][..2] == [a, b] && [a, b][..1] == [a] && [a][..0] == [];
    assert AllAllocations([a]) == a.allocations;
    assert AllAllocations([a, b]) == a.allocations + b.allocations;
  }

  /** The three selections rearrange the allocations whose artifact is staged. */
  lemma {:induction false} StagedPermutes(all: seq<Allocation>, conditions: seq<Condition>)
    requires forall a :: a in all ==>
      (var artifact := ArtifactOf(conditions, a.slot.condition);
       artifact == Some(W8A16) || artifact == Some(SourceBF16))
    ensures multiset(Staged(all, conditions)) == multiset(all)
  {
    hide Select, ArtifactOf;
    SelectNothing(W8Ready(conditions));
    SelectNothing(W8Blocked(conditions));
    SelectNothing(Bf16(conditions));
    if all != [] {
      var n := |all| - 1;
      assert all == all[..n] + [all[n]];
      StagedPermutes(all[..n], conditions);
      SelectNext(all[..n], all[n], W8Ready(conditions));
      SelectNext(all[..n], all[n], W8Blocked(conditions));
      SelectNext(all[..n], all[n], Bf16(conditions));
    }
  }

  function CoordinatesApart(): (Slot, Slot) -> bool {
    (x: Slot, y: Slot) => At(x) != At(y)
  }

  lemma {:induction false} SlotsPermuted(a: seq<Allocation>, b: seq<Allocation>)
    requires multiset(a) == multiset(b)
    ensures multiset(Slots(a)) == multiset(Slots(b))
    decreases |a|
  {
    if a == [] {
      assert |multiset(b)| == 0;
    } else {
      var n := |a| - 1;
      assert a == a[..n] + [a[n]];
      assert a[n] in multiset(b);
      var j :| 0 <= j < |b| && b[j] == a[n];
      RemoveAt(b, j);
      hide Slots;
      SlotsPermuted(a[..n], b[..j] + b[j + 1..]);
      SlotsWithout(a, n);
      SlotsWithout(b, j);
      assert a[..n] + a[n + 1..] == a[..n];
    }
  }

  lemma SlotsWithout(b: seq<Allocation>, j: nat)
    requires j < |b|
    ensures multiset(Slots(b)) == multiset(Slots(b[..j] + b[j + 1..])) + multiset{b[j].slot}
  {
    SlotsConcat(b[..j], b[j + 1..]);
    assert Slots(b) == Slots(b[..j]) + [b[j].slot] + Slots(b[j + 1..]);
  }

  lemma {:induction false} StagedSlots(campaign: Campaign, suites: map<Id, SuiteStatus>)
    requires KnownSuites(Declared(campaign.bindings), suites) && ArtifactsStaged(campaign)
    ensures multiset(Slots(AllAllocations(PlanOf(campaign, suites).stages))) == multiset(Declared(campaign.bindings))
  {
    var declared := Declared(campaign.bindings);
    var all := AllocationsFor(declared, suites);
    StagedIsAll(campaign, suites);
    StagedPermutes(all, campaign.conditions);
    SlotsPermuted(Staged(all, campaign.conditions), all);
    assert Slots(all) == declared;
  }

  lemma SelectedIsStaged(campaign: Campaign, suites: map<Id, SuiteStatus>, s: Slot)
    requires KnownSuites(Declared(campaign.bindings), suites)
    requires s in Slots(AllAllocations(PlanOf(campaign, suites).stages))
    ensures var artifact := ArtifactOf(campaign.conditions, s.condition);
            artifact == Some(W8A16) || artifact == Some(SourceBF16)
  {
    var all := AllocationsFor(Declared(campaign.bindings), suites);
    StagedIsAll(campaign, suites);
    var staged := Staged(all, campaign.conditions);
    var i :| 0 <= i < |staged| && staged[i].slot == s;
    assert staged[i] in staged;
    SelectMembers(all, W8Ready(campaign.conditions));
    SelectMembers(all, W8Blocked(campaign.conditions));
    SelectMembers(all, Bf16(campaign.conditions));
  }

  lemma SelectedIsExact(campaign: Campaign, suites: map<Id, SuiteStatus>, id: string, p: Allocation -> bool)
    requires KnownSuites(Declared(campaign.bindings), suites)
    requires KnownConditions(Declared(campaign.bindings), campaign.conditions)
    ensures var selected := Select(AllocationsFor(Declared(campaign.bindings), suites), p);
            StageExact(campaign, suites, StageOf(campaign.conditions, id, selected)) <==> selected != []
  {
    var all := AllocationsFor(Declared(campaign.bindings), suites);
    SelectMembers(all, p);
    forall a | a in Select(all, p) ensures Frozen(campaign, suites, a) {
      var i :| 0 <= i < |all| && all[i] == a;
      assert a.slot == Declared(campaign.bindings)[i];
    }
  }

  lemma PermutedSlotsAreExact(campaign: Campaign, slots: seq<Slot>)
    requires multiset(slots) == multiset(Declared(campaign.bindings))
    ensures DistinctCoordinates(Declared(campaign.bindings)) ==> DistinctCoordinates(slots)
    ensures forall s :: s in Declared(campaign.bindings) ==> s in slots
    ensures Reconciled(campaign.conditions, Declared(campaign.bindings)) <==> Reconciled(campaign.conditions, slots)
  {
    var declared := Declared(campaign.bindings);
    if DistinctCoordinates(declared) {
      assert Pairwise(declared, CoordinatesApart());
      PairwisePermuted(declared, slots, CoordinatesApart());
    }
    forall s | s in declared ensures s in slots {
      assert s in multiset(declared);
    }
    forall id ensures TrialsFor(slots, id) == TrialsFor(declared, id) {
      TrialsForPermuted(slots, declared, id);
    }
  }

  lemma StageNames()
    ensures "w8a16-content-ready" != "w8a16-blocked-expansion"
    ensures "w8a16-content-ready" != "source-bf16-reference" && "w8a16-blocked-expansion" != "source-bf16-reference"
  {
    assert |"w8a16-content-ready"| == 19 && |"w8a16-blocked-expansion"| == 23 && |"source-bf16-reference"| == 21;
  }

  lemma StageIdsDistinct(campaign: Campaign, suites: map<Id, SuiteStatus>)
    requires KnownSuites(Declared(campaign.bindings), suites)
    ensures DistinctStages(PlanOf(campaign, suites).stages)
  {
    hide Select, AllocationsFor, Declared, Slots, SumStages, Spend, ConditionsIn, SuitesIn, Ascending, KnownSuites;
    StageNames();
  }

  lemma ThreeExact(campaign: Campaign, suites: map<Id, SuiteStatus>, a: Stage, b: Stage, c: Stage)
    ensures var stages := [a, b, c];
            (forall i :: 0 <= i < |stages| ==> StageExact(campaign, suites, stages[i])) <==>
              StageExact(campaign, suites, a) && StageExact(campaign, suites, b) && StageExact(campaign, suites, c)
  {
    hide StageExact;
    var stages := [a, b, c];
    assert stages[0] == a && stages[1] == b && stages[2] == c;
  }

  /** The plan built from reconciled conditions passes the independent check exactly when no
      coordinate is declared twice, every artifact has a stage, and no stage is empty. */
  lemma BuiltPlanIsExact(campaign: Campaign, suites: map<Id, SuiteStatus>)
    requires KnownSuites(Declared(campaign.bindings), suites)
    requires KnownConditions(Declared(campaign.bindings), campaign.conditions)
    requires Reconciled(campaign.conditions, Declared(campaign.bindings))
    ensures Exact(campaign, suites, PlanOf(campaign, suites)) <==>
      && DistinctCoordinates(Declared(campaign.bindings))
      && ArtifactsStaged(campaign)
      && NoEmptyStage(campaign, suites)
  {
    hide Declared, StageOf, Select, StageExact, DistinctCoordinates, Reconciled, Lookup, Slots, SumStages;
    hide AllAllocations;
    hide AllocationsFor, DistinctStages, KnownSuites, KnownConditions;
    var plan := PlanOf(campaign, suites);
    StageIdsDistinct(campaign, suites);
    ThreeExact(campaign, suites, plan.stages[0], plan.stages[1], plan.stages[2]);
    SelectedIsExact(campaign, suites, "w8a16-content-ready", W8Ready(campaign.conditions));
    SelectedIsExact(campaign, suites, "w8a16-blocked-expansion", W8Blocked(campaign.conditions));
    SelectedIsExact(campaign, suites, "source-bf16-reference", Bf16(campaign.conditions));
    if ArtifactsStaged(campaign) {
      StagedSlots(campaign, suites);
      PermutedSlotsAreExact(campaign, Slots(AllAllocations(plan.stages)));
    }
    if Exact(campaign, suites, plan) {
      forall s | s in Declared(campaign.bindings)
        ensures (var artifact := ArtifactOf(campaign.conditions, s.condition);
                 artifact == Some(W8A16) || artifact == Some(SourceBF16))
      {
        SelectedIsStaged(campaign, suites, s);
      }
    }
  }
}
