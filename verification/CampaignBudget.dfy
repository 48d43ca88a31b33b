/** Per-condition ceilings of an atlas campaign: unit budgets, and their reconciliation with the
    trials the suite bindings declare. */
module CampaignBudget {
  import opened Prelude

  /** Condition ids and suite digests; only their equality and order matter. */
  type Id = nat

  datatype Context = K32 | K128 | K240

  datatype Tier = Constrained | Standard | Extended

  datatype Artifact = W8A16 | SourceBF16 | OtherArtifact

  /** The factor levels the budget reads. */
  datatype Factors = Factors(
    context: Context, bash: bool, retention: bool, compaction: bool, budget: Tier, artifact: Artifact)

  /** The six ceilings, added component by component. */
  datatype Ceilings = Ceilings(requests: int, inputs: int, outputs: int, actions: int, cost: real, runtime: int) {
    function Plus(o: Ceilings): Ceilings {
      Ceilings(requests + o.requests, inputs + o.inputs, outputs + o.outputs, actions + o.actions,
               cost + o.cost, runtime + o.runtime)
    }

    function Times(k: nat): Ceilings {
      Ceilings(k * requests, k * inputs, k * outputs, k * actions, k as real * cost, k * runtime)
    }
  }

  const ZERO := Ceilings(0, 0, 0, 0, 0.0, 0)

  datatype Condition = Condition(id: Id, factors: Factors, ceilings: Ceilings)

  datatype Binding = Binding(suite: Id, items: nat, trialsPerItem: nat, conditions: seq<Id>) {
    function Trials(): nat { items * trialsPerItem }
  }

  /** The trials declared for one (condition, suite) coordinate. */
  datatype Slot = Slot(condition: Id, suite: Id, trials: nat)

  ghost predicate DistinctConditions(conditions: seq<Condition>) {
    forall i, j :: 0 <= i < j < |conditions| ==> conditions[i].id != conditions[j].id
  }

  /** The declared per-trial ceiling of a condition; its request component is the trial itself. */
  function UnitBudget(f: Factors): Ceilings {
    var inputs := match f.context case K32 => 32768 case K128 => 131072 case K240 => 240000;
    var stateful := f.retention || f.compaction;
    var outputs := match f.budget case Constrained => 4096 case Standard => 16384 case Extended => 32768;
    var actions := if f.bash then 20 else if stateful then 8 else 1;
    var base := if f.bash then 4.0 else if f.context != K32 then 2.5 else 1.5;
    var cost := if f.artifact.SourceBF16? && base < 2.5 then 2.5 else base;
    var runtime := if f.bash then 30 else if f.context != K32 || stateful then 20 else 10;
    Ceilings(1, inputs, outputs, actions, cost, runtime)
  }

  /** Each factor at least as demanding. */
  predicate NoLessDemanding(f: Factors, g: Factors) {
    && (g.context.K32? || f.context == g.context || f.context.K240?)
    && (g.bash ==> f.bash) && (g.retention ==> f.retention) && (g.compaction ==> f.compaction)
    && (g.budget.Constrained? || f.budget == g.budget || f.budget.Extended?)
    && (g.artifact.SourceBF16? ==> f.artifact.SourceBF16?)
  }

  /** The per-trial ceiling is conservative: a more demanding condition never has a lower one, in any
      of the components, and none of them is zero. */
  lemma UnitBudgetGrows(f: Factors, g: Factors)
    requires NoLessDemanding(f, g)
    ensures var u, v := UnitBudget(f), UnitBudget(g);
            && u.requests == v.requests == 1
            && u.inputs >= v.inputs > 0 && u.outputs >= v.outputs > 0 && u.actions >= v.actions > 0
            && u.cost >= v.cost > 0.0 && u.runtime >= v.runtime > 0
  {}

  // ----- the declared trials

  function SlotsOf(b: Binding): seq<Slot> {
    seq(|b.conditions|, j requires 0 <= j < |b.conditions| => Slot(b.conditions[j], b.suite, b.Trials()))
  }

  /** Every coordinate, binding by binding. */
  function Declared(bindings: seq<Binding>): seq<Slot> {
    if bindings == [] then []
    else Declared(bindings[..|bindings| - 1]) + SlotsOf(bindings[|bindings| - 1])
  }

  ghost function TrialsFor(slots: seq<Slot>, id: Id): nat {
    if slots == [] then 0
    else
      var s := slots[|slots| - 1];
      TrialsFor(slots[..|slots| - 1], id) + (if s.condition == id then s.trials else 0)
  }

  lemma TrialsForNext(slots: seq<Slot>, s: Slot, id: Id)
    ensures TrialsFor(slots + [s], id) == TrialsFor(slots, id) + (if s.condition == id then s.trials else 0)
  {
    assert (slots + [s])[..|slots|] == slots;
  }

  function TrialsAt(id: Id): Slot -> nat {
    (s: Slot) => if s.condition == id then s.trials else 0
  }

  lemma {:induction false} TrialsForIsSum(slots: seq<Slot>, id: Id)
    ensures TrialsFor(slots, id) == SumBy(slots, TrialsAt(id))
  {
    if slots != [] {
      TrialsForIsSum(slots[..|slots| - 1], id);
    }
  }

  lemma TrialsForPermuted(a: seq<Slot>, b: seq<Slot>, id: Id)
    requires multiset(a) == multiset(b)
    ensures TrialsFor(a, id) == TrialsFor(b, id)
  {
    TrialsForIsSum(a, id);
    TrialsForIsSum(b, id);
    SumByPermuted(a, b, TrialsAt(id));
  }

  // ----- a counter

  ghost predicate Counts(counter: map<Id, nat>, slots: seq<Slot>) {
    forall id :: Get(counter, id) == TrialsFor(slots, id)
  }

  lemma CountsNext(counter: map<Id, nat>, slots: seq<Slot>, s: Slot)
    requires Counts(counter, slots)
    ensures Counts(counter[s.condition := Get(counter, s.condition) + s.trials], slots + [s])
  {
    var next := counter[s.condition := Get(counter, s.condition) + s.trials];
    forall id ensures Get(next, id) == TrialsFor(slots + [s], id) {
      TrialsForNext(slots, s, id);
      assert Get(counter, id) == TrialsFor(slots, id);
    }
  }

  // ----- reconciliation

  /** The ceilings of a condition that runs `trials` trials. */
  function Share(c: Condition, trials: nat): Ceilings { UnitBudget(c.factors).Times(trials) }

  ghost predicate Reconciled(conditions: seq<Condition>, slots: seq<Slot>) {
    forall i :: 0 <= i < |conditions| ==>
      conditions[i].ceilings == Share(conditions[i], TrialsFor(slots, conditions[i].id))
  }

  /** `_reconcile_condition_budgets`: fails with the first condition that has no declared trial. */
  method ReconcileConditionBudgets(conditions: seq<Condition>, bindings: seq<Binding>)
    returns (r: Result<seq<Condition>, Id>)
    ensures r.Ok? ==>
      && |r.value| == |conditions|
      && (forall i :: 0 <= i < |conditions| ==>
            r.value[i].id == conditions[i].id && r.value[i].factors == conditions[i].factors)
      && (forall i :: 0 <= i < |conditions| ==> TrialsFor(Declared(bindings), conditions[i].id) > 0)
      && Reconciled(r.value, Declared(bindings))
    ensures r.Err? ==> exists i ::
      && 0 <= i < |conditions| && conditions[i].id == r.error && TrialsFor(Declared(bindings), r.error) == 0
      && forall j :: 0 <= j < i ==> TrialsFor(Declared(bindings), conditions[j].id) > 0
  {
    var counter: map<Id, nat> := map[];
    for i := 0 to |bindings|
      invariant Counts(counter, Declared(bindings[..i]))
    {
      var b := bindings[i];
      var trials := b.Trials();
      assert Declared(bindings[..i]) + SlotsOf(b)[..0] == Declared(bindings[..i]);
      for j := 0 to |b.conditions|
        invariant Counts(counter, Declared(bindings[..i]) + SlotsOf(b)[..j])
      {
        CountsNext(counter, Declared(bindings[..i]) + SlotsOf(b)[..j], Slot(b.conditions[j], b.suite, trials));
        counter := counter[b.conditions[j] := Get(counter, b.conditions[j]) + trials];
        assert Declared(bindings[..i]) + SlotsOf(b)[..j + 1]
            == Declared(bindings[..i]) + SlotsOf(b)[..j] + [Slot(b.conditions[j], b.suite, trials)];
      }
      assert bindings[..i + 1][..i] == bindings[..i];
      assert SlotsOf(b)[..|b.conditions|] == SlotsOf(b);
    }
    assert bindings[..|bindings|] == bindings;
    var reconciled: seq<Condition> := [];
    for i := 0 to |conditions|
      invariant |reconciled| == i
      invariant forall k :: 0 <= k < i ==>
        && TrialsFor(Declared(bindings), conditions[k].id) > 0
        && reconciled[k]
           == conditions[k].(ceilings := Share(conditions[k], TrialsFor(Declared(bindings), conditions[k].id)))
    {
      var trials := Get(counter, conditions[i].id);
      if trials <= 0 {
        return Err(conditions[i].id);
      }
      reconciled := reconciled + [conditions[i].(ceilings := Share(conditions[i], trials))];
    }
    r := Ok(reconciled);
  }

  // ----- two ways to add up a campaign: by slot, and by condition

  /** `condition_by_id.get(id)` */
  function Lookup(conditions: seq<Condition>, id: Id): Option<Condition> {
    if conditions == [] then None
    else if conditions[|conditions| - 1].id == id then Some(conditions[|conditions| - 1])
    else Lookup(conditions[..|conditions| - 1], id)
  }

  function UnitsOf(conditions: seq<Condition>, id: Id): Ceilings {
    var c := Lookup(conditions, id);
    if c.Some? then UnitBudget(c.value.factors) else ZERO
  }

  /** What the slots cost, slot by slot. */
  ghost function Spend(conditions: seq<Condition>, slots: seq<Slot>): Ceilings {
    if slots == [] then ZERO
    else
      var s := slots[|slots| - 1];
      Spend(conditions, slots[..|slots| - 1]).Plus(UnitsOf(conditions, s.condition).Times(s.trials))
  }

  /** What the slots cost, condition by condition. */
  ghost function Shares(conditions: seq<Condition>, slots: seq<Slot>): Ceilings {
    if conditions == [] then ZERO
    else
      var c := conditions[|conditions| - 1];
      Shares(conditions[..|conditions| - 1], slots).Plus(Share(c, TrialsFor(slots, c.id)))
  }

  lemma TimesAdds(u: Ceilings, j: nat, k: nat)
    ensures u.Times(j + k) == u.Times(j).Plus(u.Times(k))
    ensures ZERO.Times(k) == ZERO
  {}

  lemma PlusLaws(a: Ceilings, b: Ceilings, c: Ceilings)
    ensures a.Plus(ZERO) == a
    ensures a.Plus(b.Plus(c)) == a.Plus(b).Plus(c) && a.Plus(b).Plus(c) == a.Plus(c).Plus(b)
  {}

  lemma {:induction false} LookupMisses(conditions: seq<Condition>, c: Condition)
    requires DistinctConditions(conditions + [c])
    ensures Lookup(conditions, c.id) == None
  {
    if conditions != [] {
      var n := |conditions| - 1;
      assert (conditions + [c])[n] == conditions[n] && (conditions + [c])[n + 1] == c;
      assert forall i :: 0 <= i < n ==> (conditions + [c])[i] == (conditions[..n] + [c])[i];
      LookupMisses(conditions[..n], c);
    }
  }

  lemma {:induction false} SharesNext(conditions: seq<Condition>, slots: seq<Slot>, s: Slot)
    requires DistinctConditions(conditions)
    ensures Shares(conditions, slots + [s])
         == Shares(conditions, slots).Plus(UnitsOf(conditions, s.condition).Times(s.trials))
  {
    hide Ceilings.Plus, Ceilings.Times, UnitBudget;
    if conditions == [] {
      TimesAdds(ZERO, 0, s.trials);
      PlusLaws(ZERO, ZERO, ZERO);
    } else {
      var n := |conditions| - 1;
      var c := conditions[n];
      SharesNext(conditions[..n], slots, s);
      TrialsForNext(slots, s, c.id);
      var rest, share := Shares(conditions[..n], slots), Share(c, TrialsFor(slots, c.id));
      if c.id == s.condition {
        assert conditions == conditions[..n] + [c];
        LookupMisses(conditions[..n], c);
        TimesAdds(ZERO, 0, s.trials);
        TimesAdds(UnitBudget(c.factors), TrialsFor(slots, c.id), s.trials);
        PlusLaws(rest, share, UnitBudget(c.factors).Times(s.trials));
      } else {
        PlusLaws(rest, UnitsOf(conditions, s.condition).Times(s.trials), share);
      }
    }
  }

  lemma {:induction false} SharesOfNothing(conditions: seq<Condition>)
    ensures Shares(conditions, []) == ZERO
  {
    hide Ceilings.Plus, Ceilings.Times, UnitBudget;
    if conditions != [] {
      SharesOfNothing(conditions[..|conditions| - 1]);
      TimesZero(UnitBudget(conditions[|conditions| - 1].factors));
      PlusLaws(ZERO, ZERO, ZERO);
    }
  }

  lemma TimesZero(u: Ceilings)
    ensures u.Times(0) == ZERO
  {}

  lemma SpendOfNothing(conditions: seq<Condition>)
    ensures Spend(conditions, []) == ZERO
  {}

  lemma SpendNext(conditions: seq<Condition>, slots: seq<Slot>, s: Slot)
    ensures Spend(conditions, slots + [s])
         == Spend(conditions, slots).Plus(UnitsOf(conditions, s.condition).Times(s.trials))
  {
    assert (slots + [s])[..|slots|] == slots;
  }

  /** Adding up by condition is adding up by slot. */
  lemma {:induction false} SharesAreSpend(conditions: seq<Condition>, slots: seq<Slot>)
    requires DistinctConditions(conditions)
    ensures Shares(conditions, slots) == Spend(conditions, slots)
  {
    hide *;
    if slots == [] {
      SharesOfNothing(conditions);
      SpendOfNothing(conditions);
    } else {
      var n := |slots| - 1;
      assert slots == slots[..n] + [slots[n]];
      SharesAreSpend(conditions, slots[..n]);
      SharesNext(conditions, slots[..n], slots[n]);
      SpendNext(conditions, slots[..n], slots[n]);
    }
  }

  lemma {:induction false} SpendConcat(conditions: seq<Condition>, a: seq<Slot>, b: seq<Slot>)
    ensures Spend(conditions, a + b) == Spend(conditions, a).Plus(Spend(conditions, b))
  {
    hide *;
    if b == [] {
      assert a + b == a;
      SpendOfNothing(conditions);
      PlusLaws(Spend(conditions, a), ZERO, ZERO);
    } else {
      var n := |b| - 1;
      SpendConcat(conditions, a, b[..n]);
      assert b == b[..n] + [b[n]];
      assert a + b == a + b[..n] + [b[n]];
      SpendNext(conditions, b[..n], b[n]);
      SpendNext(conditions, a + b[..n], b[n]);
      PlusLaws(Spend(conditions, a), Spend(conditions, b[..n]), UnitsOf(conditions, b[n].condition).Times(b[n].trials));
    }
  }

  ghost function SumCeilings(conditions: seq<Condition>): Ceilings {
    if conditions == [] then ZERO
    else SumCeilings(conditions[..|conditions| - 1]).Plus(conditions[|conditions| - 1].ceilings)
  }

  /** Once reconciled, the condition ceilings together pay for the slots exactly. */
  lemma {:induction false} ReconciledSum(conditions: seq<Condition>, slots: seq<Slot>)
    requires Reconciled(conditions, slots)
    ensures SumCeilings(conditions) == Shares(conditions, slots)
  {
    if conditions != [] {
      ReconciledSum(conditions[..|conditions| - 1], slots);
    }
  }

  lemma ReconciledConserves(conditions: seq<Condition>, slots: seq<Slot>)
    requires DistinctConditions(conditions) && Reconciled(conditions, slots)
    ensures SumCeilings(conditions) == Spend(conditions, slots)
  {
    ReconciledSum(conditions, slots);
    SharesAreSpend(conditions, slots);
  }
}
