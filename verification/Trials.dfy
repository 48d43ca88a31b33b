/** Observations keyed by (item, trial index), as the repeated-trial and the consistency analyses
    both index them: looking each planned trial up counts every observation exactly once. */
module Trials {
  import opened Prelude
  import opened Finite

  datatype Trial<V> = Trial(item: string, index: nat, outcome: V)

  /** `len(keys) == len(set(keys))` */
  predicate UniqueKeys<V>(obs: seq<Trial<V>>) {
    forall i, j :: 0 <= i < j < |obs| ==> obs[i].item != obs[j].item || obs[i].index != obs[j].index
  }

  predicate IndexedBelow<V>(obs: seq<Trial<V>>, trials: nat) {
    forall i :: 0 <= i < |obs| ==> obs[i].index < trials
  }

  predicate ItemsWithin<V>(obs: seq<Trial<V>>, items: seq<string>) {
    forall i :: 0 <= i < |obs| ==> obs[i].item in items
  }

  function ByKey<V>(obs: seq<Trial<V>>): map<(string, nat), V> {
    if obs == [] then map[]
    else
      var o := obs[|obs| - 1];
      ByKey(obs[..|obs| - 1])[(o.item, o.index) := o.outcome]
  }

  function KeysOf<V>(obs: seq<Trial<V>>): (r: seq<(string, nat)>)
    ensures |r| == |obs| && forall i :: 0 <= i < |r| ==> r[i] == (obs[i].item, obs[i].index)
  {
    seq(|obs|, i requires 0 <= i < |obs| => (obs[i].item, obs[i].index))
  }

  /** Keys are unique exactly when there are as many of them as observations. */
  lemma KeysAreUnique<V>(obs: seq<Trial<V>>)
    ensures UniqueKeys(obs) <==> |set k | k in KeysOf(obs)| == |obs|
  {
    SizeOfSet(KeysOf(obs));
    if NoRepeats(KeysOf(obs)) {
      forall i, j | 0 <= i < j < |obs| ensures obs[i].item != obs[j].item || obs[i].index != obs[j].index {
        assert KeysOf(obs)[i] != KeysOf(obs)[j];
      }
    }
  }

  /** Each observation is within the plan. */
  lemma WithinPlan<V>(obs: seq<Trial<V>>, items: seq<string>, trials: nat)
    ensures IndexedBelow(obs, trials) <==> forall o :: o in obs ==> o.index < trials
    ensures ItemsWithin(obs, items) <==> forall o :: o in obs ==> o.item in items
  {
    assert forall i :: 0 <= i < |obs| ==> obs[i] in obs;
  }

  // ----- counting

  function Among<V>(item: string, p: V -> bool): Trial<V> -> bool {
    (o: Trial<V>) => o.item == item && p(o.outcome)
  }

  function AmongAll<V>(p: V -> bool): Trial<V> -> bool {
    (o: Trial<V>) => p(o.outcome)
  }

  /** How many observations of `item` have an outcome satisfying `p`. */
  ghost function Count<V>(obs: seq<Trial<V>>, item: string, p: V -> bool): nat {
    if obs == [] then 0
    else
      var o := obs[|obs| - 1];
      Count(obs[..|obs| - 1], item, p) + (if o.item == item && p(o.outcome) then 1 else 0)
  }

  ghost function CountAll<V>(obs: seq<Trial<V>>, p: V -> bool): nat {
    if obs == [] then 0
    else CountAll(obs[..|obs| - 1], p) + (if p(obs[|obs| - 1].outcome) then 1 else 0)
  }

  lemma {:induction false} CountsAreSizes<V>(obs: seq<Trial<V>>, item: string, p: V -> bool)
    ensures Count(obs, item, p) == |Where(obs, Among(item, p))|
    ensures CountAll(obs, p) == |Where(obs, AmongAll(p))|
  {
    if obs != [] {
      var n := |obs| - 1;
      assert obs == obs[..n] + [obs[n]];
      CountsAreSizes(obs[..n], item, p);
      WhereNext(obs[..n], obs[n], Among(item, p));
      WhereNext(obs[..n], obs[n], AmongAll(p));
    }
  }

  /** How many of the first `trials` planned trials of `item` are found with an outcome satisfying `p`. */
  function CountPlanned<V>(table: map<(string, nat), V>, item: string, trials: nat, p: V -> bool): nat {
    if trials == 0 then 0
    else
      CountPlanned(table, item, trials - 1, p)
      + (if (item, trials - 1) in table && p(table[(item, trials - 1)]) then 1 else 0)
  }

  lemma {:induction false} TableUpdate<V>(table: map<(string, nat), V>, o: Trial<V>, item: string, trials: nat,
                                          p: V -> bool)
    requires (o.item, o.index) !in table
    ensures CountPlanned(table[(o.item, o.index) := o.outcome], item, trials, p)
         == CountPlanned(table, item, trials, p)
            + (if o.item == item && o.index < trials && p(o.outcome) then 1 else 0)
  {
    if trials > 0 {
      TableUpdate(table, o, item, trials - 1, p);
    }
  }

  lemma {:induction false} TableKeys<V>(obs: seq<Trial<V>>, item: string, index: nat)
    ensures (item, index) in ByKey(obs) <==>
      exists i :: 0 <= i < |obs| && obs[i].item == item && obs[i].index == index
  {
    if obs != [] {
      var n := |obs| - 1;
      TableKeys(obs[..n], item, index);
      if i :| 0 <= i < n && obs[i].item == item && obs[i].index == index {
        assert obs[..n][i] == obs[i];
      }
      if i :| 0 <= i < n && obs[..n][i].item == item && obs[..n][i].index == index {
        assert obs[i] == obs[..n][i];
      }
    }
  }

  lemma {:induction false} EmptyTable<V>(item: string, trials: nat, p: V -> bool)
    ensures CountPlanned(map[], item, trials, p) == 0
  {
    if trials > 0 {
      EmptyTable(item, trials - 1, p);
    }
  }

  /** Looking every planned trial up counts each observation once. */
  lemma {:induction false} LookupsCount<V>(obs: seq<Trial<V>>, item: string, trials: nat, p: V -> bool)
    requires UniqueKeys(obs) && IndexedBelow(obs, trials)
    ensures CountPlanned(ByKey(obs), item, trials, p) == Count(obs, item, p)
  {
    if obs == [] {
      EmptyTable(item, trials, p);
    } else {
      var n := |obs| - 1;
      LookupsCount(obs[..n], item, trials, p);
      TableKeys(obs[..n], obs[n].item, obs[n].index);
      TableUpdate(ByKey(obs[..n]), obs[n], item, trials, p);
    }
  }

  ghost function SumOver<V>(obs: seq<Trial<V>>, items: seq<string>, p: V -> bool): nat {
    if items == [] then 0
    else SumOver(obs, items[..|items| - 1], p) + Count(obs, items[|items| - 1], p)
  }

  lemma {:induction false} SumOverNext<V>(obs: seq<Trial<V>>, items: seq<string>, i: nat, p: V -> bool)
    requires i < |items|
    ensures SumOver(obs, items[..i + 1], p) == SumOver(obs, items[..i], p) + Count(obs, items[i], p)
  {
    assert items[..i + 1][..i] == items[..i];
  }

  lemma {:induction false} SumOverAdds<V>(obs: seq<Trial<V>>, o: Trial<V>, items: seq<string>, p: V -> bool)
    requires NoRepeats(items)
    ensures SumOver(obs + [o], items, p)
         == SumOver(obs, items, p) + (if o.item in items && p(o.outcome) then 1 else 0)
  {
    if items != [] {
      var n := |items| - 1;
      SumOverAdds(obs, o, items[..n], p);
      assert (obs + [o])[..|obs|] == obs;
      assert items[n] !in items[..n];
      assert items == items[..n] + [items[n]];
    }
  }

  /** Summing item by item over a plan that declares every item counts every observation once. */
  lemma {:induction false} ItemsCount<V>(obs: seq<Trial<V>>, items: seq<string>, p: V -> bool)
    requires NoRepeats(items) && ItemsWithin(obs, items)
    ensures SumOver(obs, items, p) == CountAll(obs, p)
  {
    if obs == [] {
      SumOverNothing(items, p);
    } else {
      var n := |obs| - 1;
      assert obs == obs[..n] + [obs[n]];
      ItemsCount(obs[..n], items, p);
      SumOverAdds(obs[..n], obs[n], items, p);
    }
  }

  lemma {:induction false} SumOverNothing<V>(items: seq<string>, p: V -> bool)
    ensures SumOver<V>([], items, p) == 0
  {
    if items != [] {
      SumOverNothing(items[..|items| - 1], p);
    }
  }

  // ----- the order of the observations does not matter

  function Matching<V>(item: string, p: V -> bool): Trial<V> -> nat {
    (o: Trial<V>) => if o.item == item && p(o.outcome) then 1 else 0
  }

  function Satisfying<V>(p: V -> bool): Trial<V> -> nat {
    (o: Trial<V>) => if p(o.outcome) then 1 else 0
  }

  lemma {:induction false} CountsAreSums<V>(obs: seq<Trial<V>>, item: string, p: V -> bool)
    ensures Count(obs, item, p) == SumBy(obs, Matching(item, p))
    ensures CountAll(obs, p) == SumBy(obs, Satisfying(p))
  {
    if obs != [] {
      CountsAreSums(obs[..|obs| - 1], item, p);
    }
  }

  lemma CountPermuted<V>(a: seq<Trial<V>>, b: seq<Trial<V>>, item: string, p: V -> bool)
    requires multiset(a) == multiset(b)
    ensures Count(a, item, p) == Count(b, item, p) && CountAll(a, p) == CountAll(b, p)
  {
    CountsAreSums(a, item, p);
    CountsAreSums(b, item, p);
    SumByPermuted(a, b, Matching(item, p));
    SumByPermuted(a, b, Satisfying(p));
  }
}
