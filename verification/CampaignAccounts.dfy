/** What the campaign's budgets and stages are, component by component and coordinate by coordinate. */
module CampaignAccounts {
  import opened Prelude
  import opened Finite
  import opened Contracts
  import opened CampaignBudget
  import opened CampaignPlan
  import opened CampaignBuild

  // ----- the unit budget

  /** The declared levels: input tokens follow the context, output tokens the budget tier, and the other
      three whether the condition uses tools, keeps state, or reads beyond 32k. */
  lemma UnitBudgetLevels(f: Factors)
    ensures var u := UnitBudget(f);
            var stateful := f.retention || f.compaction;
            && u.requests == 1
            && (u.inputs == 32768 <==> f.context == K32) && (u.inputs == 131072 <==> f.context == K128)
            && (u.inputs == 240000 <==> f.context == K240)
            && (u.outputs == 4096 <==> f.budget == Constrained) && (u.outputs == 16384 <==> f.budget == Standard)
            && (u.outputs == 32768 <==> f.budget == Extended)
            && (u.actions == 20 <==> f.bash) && (u.actions == 8 <==> !f.bash && stateful)
            && (u.actions == 1 <==> !f.bash && !stateful)
            && (u.cost == 4.0 <==> f.bash)
            && (u.cost == 1.5 <==> !f.bash && f.context == K32 && f.artifact != SourceBF16)
            && (u.cost == 2.5 <==> !f.bash && (f.context != K32 || f.artifact == SourceBF16))
            && (u.runtime == 30 <==> f.bash) && (u.runtime == 10 <==> !f.bash && f.context == K32 && !stateful)
            && (u.runtime == 20 <==> !f.bash && (f.context != K32 || stateful))
  {}

  // ----- declared trials

  /** The coordinates are the pairs each binding lists, with its items times its trials per item. */
  lemma {:induction false} DeclaredCoordinates(bindings: seq<Binding>, s: Slot)
    ensures s in Declared(bindings) <==> exists b ::
      b in bindings && s.condition in b.conditions && s.suite == b.suite && s.trials == b.items * b.trialsPerItem
  {
    if bindings != [] {
      var n := |bindings| - 1;
      var last := bindings[n];
      assert bindings == bindings[..n] + [last];
      DeclaredCoordinates(bindings[..n], s);
      BindingCoordinates(last, s);
      if s in Declared(bindings[..n]) {
        var b :| b in bindings[..n] && s.condition in b.conditions && s.suite == b.suite
          && s.trials == b.items * b.trialsPerItem;
        assert b in bindings;
      }
    }
  }

  lemma SlotIs(b: Binding, j: nat)
    requires j < |b.conditions|
    ensures |SlotsOf(b)| == |b.conditions|
    ensures SlotsOf(b)[j] == Slot(b.conditions[j], b.suite, b.items * b.trialsPerItem)
  {
    assert SlotsOf(b)[j] == Slot(b.conditions[j], b.suite, b.Trials());
    TrialsOf(b);
  }

  lemma TrialsOf(b: Binding)
    ensures b.Trials() == b.items * b.trialsPerItem
  {}

  lemma BindingCoordinates(b: Binding, s: Slot)
    ensures s in SlotsOf(b) <==>
      s.condition in b.conditions && s.suite == b.suite && s.trials == b.items * b.trialsPerItem
  {
    if s.condition in b.conditions && s.suite == b.suite && s.trials == b.items * b.trialsPerItem {
      var j :| 0 <= j < |b.conditions| && b.conditions[j] == s.condition;
      SlotIs(b, j);
    }
    if s in SlotsOf(b) {
      var j :| 0 <= j < |SlotsOf(b)| && SlotsOf(b)[j] == s;
      SlotIs(b, j);
    }
  }

  /** What a binding declares for a condition: its trials, as often as it lists it. */
  function DeclaredFor(id: Id): Binding -> nat {
    (b: Binding) => b.items * b.trialsPerItem * Occurrences(b.conditions, id)
  }

  function Occurrences(ids: seq<Id>, id: Id): nat { multiset(ids)[id] }

  lemma {:induction false} SlotsTrials(slots: seq<Slot>, more: seq<Slot>, id: Id)
    ensures TrialsFor(slots + more, id) == TrialsFor(slots, id) + TrialsFor(more, id)
  {
    if more == [] {
      assert slots + more == slots;
    } else {
      var n := |more| - 1;
      SlotsTrials(slots, more[..n], id);
      assert slots + more == slots + more[..n] + [more[n]];
      TrialsForNext(slots + more[..n], more[n], id);
    }
  }

  lemma {:induction false} BindingTrials(b: Binding, t: nat, k: nat, id: Id)
    requires k <= |b.conditions| && t == b.items * b.trialsPerItem
    ensures k <= |SlotsOf(b)| && TrialsFor(SlotsOf(b)[..k], id) == t * Occurrences(b.conditions[..k], id)
  {
    if k > 0 {
      BindingTrials(b, t, k - 1, id);
      SlotIs(b, k - 1);
      assert SlotsOf(b)[..k] == SlotsOf(b)[..k - 1] + [SlotsOf(b)[k - 1]];
      assert b.conditions[..k] == b.conditions[..k - 1] + [b.conditions[k - 1]];
      hide SlotsOf;
      TrialsForNext(SlotsOf(b)[..k - 1], SlotsOf(b)[k - 1], id);
      OneMore(t, Occurrences(b.conditions[..k - 1], id));
    }
  }

  lemma OneMore(t: nat, n: nat)
    ensures t * (n + 1) == t * n + t
  {}

  /** A condition's declared trials, binding by binding. */
  lemma {:induction false} TrialsAreDeclared(bindings: seq<Binding>, id: Id)
    ensures TrialsFor(Declared(bindings), id) == SumBy(bindings, DeclaredFor(id))
  {
    if bindings != [] {
      var n := |bindings| - 1;
      var b := bindings[n];
      TrialsAreDeclared(bindings[..n], id);
      SlotsTrials(Declared(bindings[..n]), SlotsOf(b), id);
      BindingTrials(b, b.items * b.trialsPerItem, |b.conditions|, id);
      assert SlotsOf(b)[..|b.conditions|] == SlotsOf(b) && b.conditions[..|b.conditions|] == b.conditions;
    }
  }

  /** A reconciled condition may use, of everything, its unit for each declared trial. */
  lemma ReconciledCeilings(conditions: seq<Condition>, bindings: seq<Binding>, i: nat)
    requires Reconciled(conditions, Declared(bindings)) && i < |conditions|
    ensures var c, u := conditions[i].ceilings, UnitBudget(conditions[i].factors);
            var trials := SumBy(bindings, DeclaredFor(conditions[i].id));
            && c.requests == trials && c.inputs == trials * u.inputs && c.outputs == trials * u.outputs
            && c.actions == trials * u.actions && c.cost == trials as real * u.cost && c.runtime == trials * u.runtime
  {
    hide UnitBudget, SumBy, TrialsFor, Declared;
    TrialsAreDeclared(bindings, conditions[i].id);
    UnitRequest(conditions[i].factors);
    ShareIs(conditions[i], SumBy(bindings, DeclaredFor(conditions[i].id)));
  }

  lemma ShareIs(c: Condition, trials: nat)
    ensures var r, u := Share(c, trials), UnitBudget(c.factors);
            && r.requests == trials * u.requests && r.inputs == trials * u.inputs && r.outputs == trials * u.outputs
            && r.actions == trials * u.actions && r.cost == trials as real * u.cost && r.runtime == trials * u.runtime
  {
    hide UnitBudget;
  }

  lemma UnitRequest(f: Factors)
    ensures UnitBudget(f).requests == 1
  {}

  // ----- what a stage costs

  ghost function Total(slots: seq<Slot>, w: Slot -> real): real {
    if slots == [] then 0.0 else Total(slots[..|slots| - 1], w) + w(slots[|slots| - 1])
  }

  ghost function EachTrial(): Slot -> real { (s: Slot) => s.trials as real }

  ghost function Inputs(conditions: seq<Condition>): Slot -> real {
    (s: Slot) => s.trials as real * UnitsOf(conditions, s.condition).inputs as real
  }

  ghost function Outputs(conditions: seq<Condition>): Slot -> real {
    (s: Slot) => s.trials as real * UnitsOf(conditions, s.condition).outputs as real
  }

  ghost function Actions(conditions: seq<Condition>): Slot -> real {
    (s: Slot) => s.trials as real * UnitsOf(conditions, s.condition).actions as real
  }

  ghost function Cost(conditions: seq<Condition>): Slot -> real {
    (s: Slot) => s.trials as real * UnitsOf(conditions, s.condition).cost
  }

  ghost function Runtime(conditions: seq<Condition>): Slot -> real {
    (s: Slot) => s.trials as real * UnitsOf(conditions, s.condition).runtime as real
  }

  ghost predicate AllKnown(conditions: seq<Condition>, slots: seq<Slot>) {
    forall s :: s in slots ==> Lookup(conditions, s.condition).Some?
  }

  /** Each component is its own sum over the slots. */
  ghost predicate ByComponent(conditions: seq<Condition>, slots: seq<Slot>, c: Ceilings) {
    && c.requests as real == Total(slots, EachTrial())
    && c.inputs as real == Total(slots, Inputs(conditions))
    && c.outputs as real == Total(slots, Outputs(conditions))
    && c.actions as real == Total(slots, Actions(conditions))
    && c.cost == Total(slots, Cost(conditions))
    && c.runtime as real == Total(slots, Runtime(conditions))
  }

  /** What some slots cost, component by component. */
  lemma {:induction false} SpendByComponent(conditions: seq<Condition>, slots: seq<Slot>)
    requires AllKnown(conditions, slots)
    ensures ByComponent(conditions, slots, Spend(conditions, slots))
  {
    if slots != [] {
      var n := |slots| - 1;
      assert slots == slots[..n] + [slots[n]];
      SpendByComponent(conditions, slots[..n]);
      hide Lookup, UnitBudget, Spend, ByComponent;
      assert Lookup(conditions, slots[n].condition).Some?;
      UnitRequest(Lookup(conditions, slots[n].condition).value.factors);
      SpendNext(conditions, slots[..n], slots[n]);
      ComponentsNext(conditions, slots[..n], slots[n], Spend(conditions, slots[..n]));
    }
  }

  lemma ComponentsNext(conditions: seq<Condition>, slots: seq<Slot>, s: Slot, c: Ceilings)
    requires ByComponent(conditions, slots, c) && UnitsOf(conditions, s.condition).requests == 1
    ensures ByComponent(conditions, slots + [s], c.Plus(UnitsOf(conditions, s.condition).Times(s.trials)))
  {
    hide Total, UnitsOf, Ceilings.Plus, Ceilings.Times;
    TotalNext(slots, s, EachTrial());
    TotalNext(slots, s, Inputs(conditions));
    TotalNext(slots, s, Outputs(conditions));
    TotalNext(slots, s, Actions(conditions));
    TotalNext(slots, s, Cost(conditions));
    TotalNext(slots, s, Runtime(conditions));
    AddByComponent(c, s.trials, UnitsOf(conditions, s.condition));
  }

  lemma TotalNext(slots: seq<Slot>, s: Slot, w: Slot -> real)
    ensures Total(slots + [s], w) == Total(slots, w) + w(s)
  {
    assert (slots + [s])[..|slots|] == slots;
  }

  lemma AddByComponent(c: Ceilings, k: nat, u: Ceilings)
    requires u.requests == 1
    ensures var d := c.Plus(u.Times(k));
            && d.requests as real == c.requests as real + k as real
            && d.inputs as real == c.inputs as real + k as real * u.inputs as real
            && d.outputs as real == c.outputs as real + k as real * u.outputs as real
            && d.actions as real == c.actions as real + k as real * u.actions as real
            && d.cost == c.cost + k as real * u.cost
            && d.runtime as real == c.runtime as real + k as real * u.runtime as real
  {
    CastProducts(k, u);
  }

  lemma CastProducts(k: nat, u: Ceilings)
    ensures (k * u.inputs) as real == k as real * u.inputs as real
    ensures (k * u.outputs) as real == k as real * u.outputs as real
    ensures (k * u.actions) as real == k as real * u.actions as real
    ensures (k * u.runtime) as real == k as real * u.runtime as real
  {}

  // ----- which allocations go where

  /** The coordinate is declared, its condition runs this artifact, and its suite has this status. */
  ghost predicate Offers(campaign: Campaign, suites: map<Id, SuiteStatus>, a: Allocation, artifact: Artifact) {
    && a.slot in Declared(campaign.bindings)
    && a.slot.suite in suites && a.status == suites[a.slot.suite]
    && Lookup(campaign.conditions, a.slot.condition).Some?
    && Lookup(campaign.conditions, a.slot.condition).value.factors.artifact == artifact
  }

  /** The first stage holds what is ready for W8A16, the second what is not, the third all of the
      reference artifact. */
  lemma StagesHold(campaign: Campaign, suites: map<Id, SuiteStatus>, a: Allocation)
    requires KnownSuites(Declared(campaign.bindings), suites)
    ensures var plan := PlanOf(campaign, suites);
            && plan.authorizationRequired && |plan.stages| == 3
            && plan.stages[0].id == "w8a16-content-ready"
            && plan.stages[1].id == "w8a16-blocked-expansion"
            && plan.stages[2].id == "source-bf16-reference"
            && (a in plan.stages[0].allocations <==> Offers(campaign, suites, a, W8A16) && a.status == Ready)
            && (a in plan.stages[1].allocations <==> Offers(campaign, suites, a, W8A16) && a.status != Ready)
            && (a in plan.stages[2].allocations <==> Offers(campaign, suites, a, SourceBF16))
  {
    hide Declared, Select, Spend, Slots, SumStages, Ascending, Lookup;
    var all := AllocationsFor(Declared(campaign.bindings), suites);
    SelectMembers(all, W8Ready(campaign.conditions));
    SelectMembers(all, W8Blocked(campaign.conditions));
    SelectMembers(all, Bf16(campaign.conditions));
    AllocationMembers(Declared(campaign.bindings), suites, a);
  }

  lemma AllocationMembers(slots: seq<Slot>, suites: map<Id, SuiteStatus>, a: Allocation)
    requires KnownSuites(slots, suites)
    ensures a in AllocationsFor(slots, suites) <==>
      a.slot in slots && a.slot.suite in suites && a.status == suites[a.slot.suite]
  {
    var all := AllocationsFor(slots, suites);
    if a in all {
      var i :| 0 <= i < |all| && all[i] == a;
      assert a.slot == slots[i];
    }
    if a.slot in slots && a.slot.suite in suites && a.status == suites[a.slot.suite] {
      var i :| 0 <= i < |slots| && slots[i] == a.slot;
      assert all[i] == a;
    }
  }

  /** The indices of an exact stage list, in order, the conditions and the suites of its allocations. */
  lemma StageIndices(campaign: Campaign, suites: map<Id, SuiteStatus>, stage: Stage)
    requires StageExact(campaign, suites, stage)
    ensures StrictlyIncreasing(stage.conditionIds) && StrictlyIncreasing(stage.suites)
    ensures forall id :: id in stage.conditionIds <==> exists a :: a in stage.allocations && a.slot.condition == id
    ensures forall id :: id in stage.suites <==> exists a :: a in stage.allocations && a.slot.suite == id
  {
    hide Frozen, Spend;
  }

  function IdsOf(stages: seq<Stage>): (r: seq<string>)
    ensures |r| == |stages| && forall i :: 0 <= i < |r| ==> r[i] == stages[i].id
  {
    seq(|stages|, i requires 0 <= i < |stages| => stages[i].id)
  }

  /** `len(stage_ids) == len(set(stage_ids))` */
  lemma StagesAreDistinct(stages: seq<Stage>)
    ensures DistinctStages(stages) <==> |set id | id in IdsOf(stages)| == |stages|
  {
    SizeOfSet(IdsOf(stages));
    if NoRepeats(IdsOf(stages)) {
      forall i, j | 0 <= i < j < |stages| ensures stages[i].id != stages[j].id {
        assert IdsOf(stages)[i] != IdsOf(stages)[j];
      }
    }
  }

  lemma {:induction false} LookupFinds(conditions: seq<Condition>, id: Id)
    ensures Lookup(conditions, id).Some? <==> exists c :: c in conditions && c.id == id
    ensures Lookup(conditions, id).Some? ==>
      Lookup(conditions, id).value in conditions && Lookup(conditions, id).value.id == id
  {
    if conditions != [] {
      var n := |conditions| - 1;
      assert conditions == conditions[..n] + [conditions[n]];
      LookupFinds(conditions[..n], id);
    }
  }

  /** The live plan is refused for a declared suite that is not given, and then for a declared condition
      that is not. */
  lemma LookupsFail(campaign: Campaign, suites: map<Id, SuiteStatus>)
    ensures var slots := Declared(campaign.bindings);
            && (KnownSuites(slots, suites) <==> forall s :: s in slots ==> s.suite in suites)
            && (KnownConditions(slots, campaign.conditions) <==>
                 forall s :: s in slots ==> exists c :: c in campaign.conditions && c.id == s.condition)
  {
    hide Declared, Lookup;
    var slots := Declared(campaign.bindings);
    forall s | s in slots
      ensures Lookup(campaign.conditions, s.condition).Some? <==>
        exists c :: c in campaign.conditions && c.id == s.condition
    {
      LookupFinds(campaign.conditions, s.condition);
    }
    assert forall i :: 0 <= i < |slots| ==> slots[i] in slots;
  }

  /** The order of demands has a top: tools, state, the longest context, the largest budget and the
      reference artifact together cost at least as much as any condition. */
  lemma MostDemanding(f: Factors)
    ensures NoLessDemanding(Factors(K240, true, true, true, Extended, SourceBF16), f) && NoLessDemanding(f, f)
  {}
}
