/** `consistency_metrics`: pairwise agreement between the repeated responses of each group. */
module Consistency {
  import opened Prelude
  import opened Trials

  /** A response key, or nothing when the response is missing. */
  type Response = Option<string>

  datatype ConsistencyMetrics = ConsistencyMetrics(
    plannedPairs: nat, observedPairs: nat, missingPairs: nat, agreeingPairs: nat, agreement: Option<real>)

  datatype ConsistencyError = TooFewTrials | DuplicateReplicate | BeyondPlan

  /** n * (n - 1) / 2 */
  function Choose2(n: nat): nat { if n == 0 then 0 else Choose2(n - 1) + (n - 1) }

  lemma {:induction false} Choose2Formula(n: nat)
    ensures Choose2(n) == n * (n - 1) / 2
  {
    if n > 0 {
      Choose2Formula(n - 1);
      assert n * (n - 1) == (n - 1) * (n - 2) + 2 * (n - 1);
    }
  }

  lemma {:induction false} Choose2Monotone(m: nat, n: nat)
    requires m <= n
    ensures Choose2(m) <= Choose2(n)
  {
    if m < n {
      Choose2Monotone(m, n - 1);
    }
  }

  function Present(): Response -> bool { (r: Response) => r.Some? }

  function Equals(key: string): Response -> bool { (r: Response) => r == Some(key) }

  // ----- one group

  /** What `by_group.get` leaves of one planned trial: absent and missing look the same. */
  function ResponseAt(table: map<(string, nat), Response>, group: string, index: nat): Response {
    if (group, index) in table then table[(group, index)] else None
  }

  /** The planned trials of one group, in order. */
  ghost function Row(table: map<(string, nat), Response>, group: string, trials: nat): (r: seq<Response>)
    ensures |r| == trials
    ensures forall i :: 0 <= i < trials ==> r[i] == ResponseAt(table, group, i)
  {
    seq(trials, i requires 0 <= i => ResponseAt(table, group, i))
  }

  ghost function CountIn(row: seq<Response>, p: Response -> bool): nat {
    if row == [] then 0 else (if p(row[0]) then 1 else 0) + CountIn(row[1..], p)
  }

  lemma {:induction false} CountInAppend(row: seq<Response>, x: Response, p: Response -> bool)
    ensures CountIn(row + [x], p) == CountIn(row, p) + (if p(x) then 1 else 0)
  {
    if row == [] {
      assert ([x])[1..] == [];
      assert row + [x] == [x];
    } else {
      CountInAppend(row[1..], x, p);
      assert (row + [x])[1..] == row[1..] + [x];
    }
  }

  lemma {:induction false} RowCounts(table: map<(string, nat), Response>, group: string, trials: nat,
                                     p: Response -> bool)
    requires !p(None)
    ensures CountIn(Row(table, group, trials), p) == CountPlanned(table, group, trials, p)
  {
    if trials > 0 {
      RowCounts(table, group, trials - 1, p);
      assert Row(table, group, trials) == Row(table, group, trials - 1) + [ResponseAt(table, group, trials - 1)];
      CountInAppend(Row(table, group, trials - 1), ResponseAt(table, group, trials - 1), p);
    }
  }

  /** Pairs of a present first response with later present ones, and those that agree. */
  ghost function PairsWith(first: Response, later: seq<Response>): nat {
    if first.None? then 0 else CountIn(later, Present())
  }

  ghost function AgreeWith(first: Response, later: seq<Response>): nat {
    if first.None? then 0 else CountIn(later, Equals(first.value))
  }

  ghost function PairsIn(row: seq<Response>): nat {
    if row == [] then 0 else PairsWith(row[0], row[1..]) + PairsIn(row[1..])
  }

  ghost function AgreeIn(row: seq<Response>): nat {
    if row == [] then 0 else AgreeWith(row[0], row[1..]) + AgreeIn(row[1..])
  }

  /** m present responses make m * (m - 1) / 2 observed pairs. */
  lemma {:induction false} PairsAreChoose2(row: seq<Response>)
    ensures PairsIn(row) == Choose2(CountIn(row, Present()))
  {
    if row != [] {
      PairsAreChoose2(row[1..]);
    }
  }

  ghost function ChooseByKey(row: seq<Response>, keys: seq<string>): nat {
    if keys == [] then 0
    else ChooseByKey(row, keys[..|keys| - 1]) + Choose2(CountIn(row, Equals(keys[|keys| - 1])))
  }

  lemma CountInHead(row: seq<Response>, key: string)
    requires row != []
    ensures CountIn(row, Equals(key)) == CountIn(row[1..], Equals(key)) + (if row[0] == Some(key) then 1 else 0)
  {}

  lemma {:induction false} ChooseByKeyAdds(row: seq<Response>, keys: seq<string>)
    requires NoRepeats(keys) && row != []
    ensures ChooseByKey(row, keys)
         == ChooseByKey(row[1..], keys)
            + (if row[0].Some? && row[0].value in keys then CountIn(row[1..], Equals(row[0].value)) else 0)
  {
    hide CountIn;
    if keys != [] {
      var n := |keys| - 1;
      ChooseByKeyAdds(row, keys[..n]);
      CountInHead(row, keys[n]);
      assert keys[n] !in keys[..n];
      assert keys == keys[..n] + [keys[n]];
    }
  }

  lemma {:induction false} ChooseByKeyNothing(keys: seq<string>)
    ensures ChooseByKey([], keys) == 0
  {
    if keys != [] {
      ChooseByKeyNothing(keys[..|keys| - 1]);
    }
  }

  /** Agreeing pairs are counted key by key. */
  lemma {:induction false} AgreementIsByKey(row: seq<Response>, keys: seq<string>)
    requires NoRepeats(keys)
    requires forall i :: 0 <= i < |row| && row[i].Some? ==> row[i].value in keys
    ensures AgreeIn(row) == ChooseByKey(row, keys)
  {
    if row == [] {
      ChooseByKeyNothing(keys);
    } else {
      AgreementIsByKey(row[1..], keys);
      ChooseByKeyAdds(row, keys);
    }
  }

  lemma {:induction false} CountInWeaker(row: seq<Response>, key: string)
    ensures CountIn(row, Equals(key)) <= CountIn(row, Present())
  {
    if row != [] {
      CountInWeaker(row[1..], key);
    }
  }

  lemma {:induction false} AgreeWithinPairs(row: seq<Response>)
    ensures AgreeIn(row) <= PairsIn(row)
  {
    if row != [] {
      AgreeWithinPairs(row[1..]);
      if row[0].Some? { CountInWeaker(row[1..], row[0].value); }
    }
  }

  lemma {:induction false} CountInBound(row: seq<Response>, p: Response -> bool)
    ensures CountIn(row, p) <= |row|
  {
    if row != [] {
      CountInBound(row[1..], p);
    }
  }

  // ----- all groups

  /** Each group once. The source lists them sorted; only sums over the groups are taken. */
  function Groups(obs: seq<Trial<Response>>): (r: seq<string>)
    ensures forall g :: g in r <==> exists i :: 0 <= i < |obs| && obs[i].item == g
    ensures forall i, j :: 0 <= i < j < |r| ==> r[i] != r[j]
  {
    if obs == [] then []
    else
      var before, o := Groups(obs[..|obs| - 1]), obs[|obs| - 1];
      assert forall i :: 0 <= i < |obs| - 1 ==> obs[..|obs| - 1][i] == obs[i];
      if o.item in before then before else before + [o.item]
  }

  ghost function SumPairs(obs: seq<Trial<Response>>, groups: seq<string>): nat {
    if groups == [] then 0
    else SumPairs(obs, groups[..|groups| - 1]) + Choose2(Count(obs, groups[|groups| - 1], Present()))
  }

  ghost function SumAgreeing(obs: seq<Trial<Response>>, group: string, keys: seq<string>): nat {
    if keys == [] then 0
    else SumAgreeing(obs, group, keys[..|keys| - 1]) + Choose2(Count(obs, group, Equals(keys[|keys| - 1])))
  }

  ghost function SumAllAgreeing(obs: seq<Trial<Response>>, groups: seq<string>, keys: seq<string>): nat {
    if groups == [] then 0
    else SumAllAgreeing(obs, groups[..|groups| - 1], keys) + SumAgreeing(obs, groups[|groups| - 1], keys)
  }

  /** The response keys that occur, each once. */
  ghost predicate ListsKeys(obs: seq<Trial<Response>>, keys: seq<string>) {
    && NoRepeats(keys)
    && forall i :: 0 <= i < |obs| && obs[i].outcome.Some? ==> obs[i].outcome.value in keys
  }

  lemma {:induction false} RowAgreement(obs: seq<Trial<Response>>, group: string, trials: nat, keys: seq<string>)
    requires UniqueKeys(obs) && IndexedBelow(obs, trials)
    ensures ChooseByKey(Row(ByKey(obs), group, trials), keys) == SumAgreeing(obs, group, keys)
  {
    if keys != [] {
      var n := |keys| - 1;
      RowAgreement(obs, group, trials, keys[..n]);
      RowCounts(ByKey(obs), group, trials, Equals(keys[n]));
      LookupsCount(obs, group, trials, Equals(keys[n]));
    }
  }

  lemma {:induction false} TableValues(obs: seq<Trial<Response>>, keys: seq<string>, at: (string, nat))
    requires ListsKeys(obs, keys) && at in ByKey(obs) && ByKey(obs)[at].Some?
    ensures ByKey(obs)[at].value in keys
  {
    var n := |obs| - 1;
    if at != (obs[n].item, obs[n].index) {
      assert ListsKeys(obs[..n], keys);
      TableValues(obs[..n], keys, at);
    }
  }

  /** One group's pairs, in terms of the observations. */
  lemma GroupPairs(obs: seq<Trial<Response>>, group: string, trials: nat, keys: seq<string>)
    requires UniqueKeys(obs) && IndexedBelow(obs, trials) && ListsKeys(obs, keys)
    ensures var row := Row(ByKey(obs), group, trials);
            && PairsIn(row) == Choose2(Count(obs, group, Present()))
            && AgreeIn(row) == SumAgreeing(obs, group, keys)
            && AgreeIn(row) <= PairsIn(row) <= Choose2(trials)
  {
    var row := Row(ByKey(obs), group, trials);
    PairsAreChoose2(row);
    RowCounts(ByKey(obs), group, trials, Present());
    LookupsCount(obs, group, trials, Present());
    forall i | 0 <= i < |row| && row[i].Some? ensures row[i].value in keys {
      TableValues(obs, keys, (group, i));
    }
    AgreementIsByKey(row, keys);
    RowAgreement(obs, group, trials, keys);
    AgreeWithinPairs(row);
    CountInBound(row, Present());
    Choose2Monotone(CountIn(row, Present()), trials);
  }

  /** `keys` is any listing of the response keys; the counts do not depend on which. */
  method Metrics(obs: seq<Trial<Response>>, trialsPerGroup: int, ghost keys: seq<string>)
      returns (r: Result<ConsistencyMetrics, ConsistencyError>)
    requires ListsKeys(obs, keys)
    ensures r == Err(TooFewTrials) <==> trialsPerGroup < 2
    ensures r == Err(DuplicateReplicate) <==> trialsPerGroup >= 2 && !UniqueKeys(obs)
    ensures r == Err(BeyondPlan) <==>
      trialsPerGroup >= 2 && UniqueKeys(obs) && !IndexedBelow(obs, trialsPerGroup)
    ensures r.Ok? ==>
      var m, groups := r.value, Groups(obs);
      && m.plannedPairs == |groups| * Choose2(trialsPerGroup)
      && m.observedPairs == SumPairs(obs, groups)
      && m.agreeingPairs == SumAllAgreeing(obs, groups, keys)
      && m.missingPairs == m.plannedPairs - m.observedPairs
      && m.agreeingPairs <= m.observedPairs
      && m.agreement == (if m.observedPairs == 0 then None
                         else Some(m.agreeingPairs as real / m.observedPairs as real))
  {
    hide *;
    if trialsPerGroup < 2 { return Err(TooFewTrials); }
    if !UniqueKeys(obs) { return Err(DuplicateReplicate); }
    if !IndexedBelow(obs, trialsPerGroup) { return Err(BeyondPlan); }
    var trials: nat := trialsPerGroup;
    var groups := Groups(obs);
    var table := ByKey(obs);
    var observed, agreeing := 0, 0;
    SumsStart(obs, keys);
    for g := 0 to |groups|
      invariant observed == SumPairs(obs, groups[..g]) && agreeing == SumAllAgreeing(obs, groups[..g], keys)
      invariant agreeing <= observed <= g * Choose2(trials)
    {
      var group := groups[g];
      ghost var row := Row(table, group, trials);
      ghost var observedBefore, agreeingBefore := observed, agreeing;
      GroupPairs(obs, group, trials, keys);
      RowStarts(row);
      for left := 0 to trials
        invariant observed + PairsIn(row[left..]) == observedBefore + PairsIn(row)
        invariant agreeing + AgreeIn(row[left..]) == agreeingBefore + AgreeIn(row)
      {
        PairsStep(row, left);
        for right := left + 1 to trials
          invariant observed + PairsWith(row[left], row[right..]) + PairsIn(row[left + 1..])
            == observedBefore + PairsIn(row)
          invariant agreeing + AgreeWith(row[left], row[right..]) + AgreeIn(row[left + 1..])
            == agreeingBefore + AgreeIn(row)
        {
          PairStep(row, left, right);
          var leftItem, rightItem := ResponseAt(table, group, left), ResponseAt(table, group, right);
          if leftItem.None? || rightItem.None? { continue; }
          observed := observed + 1;
          agreeing := agreeing + if leftItem == rightItem then 1 else 0;
        }
        PairsEnd(row, left);
      }
      RowEnds(row);
      SumsStep(obs, groups, g, trials, keys);
    }
    assert groups[..|groups|] == groups;
    var planned := |groups| * Pairs(trials);
    return Ok(ConsistencyMetrics(planned, observed, planned - observed, agreeing,
      if observed == 0 then None else Some(agreeing as real / observed as real)));
  }

  /** The code's trials * (trials - 1) // 2. */
  function Pairs(trials: nat): (n: nat)
    ensures n == Choose2(trials)
  {
    Choose2Formula(trials);
    trials * (trials - 1) / 2
  }

  // ----- the loop's arithmetic

  lemma SumsStart(obs: seq<Trial<Response>>, keys: seq<string>)
    ensures SumPairs(obs, []) == 0 && SumAllAgreeing(obs, [], keys) == 0
  {}

  lemma SumsStep(obs: seq<Trial<Response>>, groups: seq<string>, g: nat, trials: nat, keys: seq<string>)
    requires g < |groups|
    ensures SumPairs(obs, groups[..g + 1]) == SumPairs(obs, groups[..g]) + Choose2(Count(obs, groups[g], Present()))
    ensures SumAllAgreeing(obs, groups[..g + 1], keys)
         == SumAllAgreeing(obs, groups[..g], keys) + SumAgreeing(obs, groups[g], keys)
    ensures (g + 1) * Choose2(trials) == g * Choose2(trials) + Choose2(trials)
  {
    assert groups[..g + 1][..g] == groups[..g];
  }

  lemma RowStarts(row: seq<Response>)
    ensures row[0..] == row
  {}

  lemma RowEnds(row: seq<Response>)
    ensures PairsIn(row[|row|..]) == 0 && AgreeIn(row[|row|..]) == 0
  {}

  lemma PairsStep(row: seq<Response>, left: nat)
    requires left < |row|
    ensures PairsIn(row[left..]) == PairsWith(row[left], row[left + 1..]) + PairsIn(row[left + 1..])
    ensures AgreeIn(row[left..]) == AgreeWith(row[left], row[left + 1..]) + AgreeIn(row[left + 1..])
  {
    assert row[left..][1..] == row[left + 1..];
  }

  lemma PairStep(row: seq<Response>, left: nat, right: nat)
    requires left < right < |row|
    ensures var both := row[left].Some? && row[right].Some?;
            && PairsWith(row[left], row[right..]) == PairsWith(row[left], row[right + 1..]) + (if both then 1 else 0)
            && AgreeWith(row[left], row[right..])
               == AgreeWith(row[left], row[right + 1..]) + (if both && row[left] == row[right] then 1 else 0)
  {
    assert row[right..][1..] == row[right + 1..];
  }

  lemma PairsEnd(row: seq<Response>, left: nat)
    requires left < |row|
    ensures PairsWith(row[left], row[|row|..]) == 0 && AgreeWith(row[left], row[|row|..]) == 0
  {}
}
