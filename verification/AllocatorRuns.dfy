/** Runs of the allocator: every decision is carried out and recorded, with any outcome, before
    the next decision is made. */
module AllocatorRuns {
  import opened Finite
  import opened Allocator

  datatype Outcome = Success | Failure | Missing | Infrastructure | Contaminated

  datatype State = State(candidates: seq<Candidate>, log: seq<TrialAllocation>)

  function Record(c: Candidate, o: Outcome, result: Digest): Candidate {
    var known := c.(prior := c.prior + {result});
    match o
    case Success => known.(successes := c.successes + 1)
    case Failure => known.(failures := c.failures + 1)
    case Missing => known.(missing := c.missing + 1)
    case Infrastructure => known.(missing := c.missing + 1, infrastructure := c.infrastructure + 1)
    case Contaminated => known.(missing := c.missing + 1, contaminated := c.contaminated + 1)
  }

  /** The trial of `item` ends with outcome `o` and a result digest not seen before. */
  ghost predicate Recorded(cs: seq<Candidate>, item: Digest, o: Outcome, result: Digest, ds: seq<Candidate>) {
    && result !in AllPriors(cs) && |ds| == |cs|
    && forall i :: 0 <= i < |cs| ==> ds[i] == if cs[i].item == item then Record(cs[i], o, result) else cs[i]
  }

  ghost predicate Step(ctx: Context, s: State, t: State) {
    var r := AllocateNearBoundary(ctx, s.candidates);
    && r.Ok?
    && t.log == s.log + [r.value]
    && exists o, d :: Recorded(s.candidates, r.value.item, o, d, t.candidates)
  }

  ghost predicate CanContinue(ctx: Context, s: State) { exists t :: Step(ctx, s, t) }

  ghost predicate IsRun(ctx: Context, start: seq<Candidate>, run: seq<State>) {
    && run != [] && run[0] == State(start, [])
    && forall i :: 0 < i < |run| ==> Step(ctx, run[i - 1], run[i])
  }

  function Budget(cs: seq<Candidate>): nat {
    if cs == [] then 0 else Budget(cs[..|cs| - 1]) + cs[|cs| - 1].planned
  }

  // ----- what every run keeps

  /** (item, trial index) is unique over the log. */
  ghost predicate TrialsOnce(log: seq<TrialAllocation>) {
    forall i, j :: 0 <= i < j < |log| ==> log[i].item != log[j].item || log[i].trialIndex != log[j].trialIndex
  }

  /** Every logged trial lies between what was allocated at the start and what is allocated now. */
  ghost predicate LogWithin(start: seq<Candidate>, s: State)
    requires |s.candidates| == |start|
  {
    forall k :: 0 <= k < |s.log| ==>
      exists i ::
        && 0 <= i < |start| && s.log[k].item == start[i].item
        && start[i].Allocated() <= s.log[k].trialIndex < s.candidates[i].Allocated()
  }

  ghost predicate SamePlan(start: seq<Candidate>, cs: seq<Candidate>) {
    && |cs| == |start|
    && forall i :: 0 <= i < |start| ==>
         cs[i].item == start[i].item && cs[i].planned == start[i].planned && start[i].Allocated() <= cs[i].Allocated()
  }

  ghost predicate Good(start: seq<Candidate>, s: State) {
    && AllValid(s.candidates) && SamePlan(start, s.candidates)
    && LogWithin(start, s) && TrialsOnce(s.log)
    && (forall k :: 0 <= k < |s.log| ==> s.log[k].sequence == Total(start) + k)
    && Total(s.candidates) == Total(start) + |s.log|
  }

  // ----- one step

  lemma {:induction false} TotalUpdate(cs: seq<Candidate>, i: nat, c: Candidate)
    requires i < |cs|
    ensures Total(cs[i := c]) == Total(cs) - cs[i].Allocated() + c.Allocated()
  {
    var n := |cs| - 1;
    if i < n {
      TotalUpdate(cs[..n], i, c);
      assert cs[i := c][..n] == cs[..n][i := c];
    } else {
      assert cs[i := c][..n] == cs[..n];
    }
  }

  /** What one step changes: the next trial of one open candidate is logged and recorded. */
  lemma StepEffect(ctx: Context, s: State, t: State) returns (i: nat, o: Outcome, d: Digest)
    requires Step(ctx, s, t)
    ensures i < |s.candidates| && s.candidates[i].Open()
    ensures DistinctItems(s.candidates) && DisjointPriors(s.candidates) && d !in AllPriors(s.candidates)
    ensures t.candidates == s.candidates[i := Record(s.candidates[i], o, d)]
    ensures |t.log| == |s.log| + 1 && t.log[..|s.log|] == s.log
    ensures var entry := t.log[|s.log|];
            && entry.item == s.candidates[i].item && entry.trialIndex == s.candidates[i].Allocated()
            && entry.sequence == Total(s.candidates)
  {
    hide Priority, Total, ByDigest, AllPriors, Eligible, Best, Record;
    var cs := s.candidates;
    var r := AllocateNearBoundary(ctx, cs);
    var c := Choice(ctx, cs);
    i :| 0 <= i < |cs| && cs[i] == c;
    o, d :| Recorded(cs, r.value.item, o, d, t.candidates);
    forall j | 0 <= j < |cs| ensures t.candidates[j] == cs[i := Record(cs[i], o, d)][j] {
      if cs[j].item == c.item {
        assert j == i;
      }
    }
  }

  lemma RecordAdvances(c: Candidate, o: Outcome, d: Digest)
    requires c.Valid() && c.Open() && d !in c.prior
    ensures var r := Record(c, o, d);
            && r.Valid() && r.item == c.item && r.planned == c.planned && r.Allocated() == c.Allocated() + 1
            && r.prior == c.prior + {d}
            && r.successes == c.successes + (if o == Success then 1 else 0)
            && r.failures == c.failures + (if o == Failure then 1 else 0)
            && r.infrastructure == c.infrastructure + (if o == Infrastructure then 1 else 0)
            && r.contaminated == c.contaminated + (if o == Contaminated then 1 else 0)
  {}

  lemma StepKeepsPlan(start: seq<Candidate>, cs: seq<Candidate>, i: nat, o: Outcome, d: Digest)
    requires AllValid(cs) && SamePlan(start, cs) && i < |cs| && cs[i].Open() && d !in AllPriors(cs)
    ensures var ds := cs[i := Record(cs[i], o, d)];
            && AllValid(ds) && SamePlan(start, ds) && Total(ds) == Total(cs) + 1
            && forall j :: 0 <= j < |cs| ==> cs[j].Allocated() <= ds[j].Allocated()
  {
    assert d !in cs[i].prior;
    RecordAdvances(cs[i], o, d);
    TotalUpdate(cs, i, Record(cs[i], o, d));
  }

  lemma StepKeepsLog(start: seq<Candidate>, s: State, t: State, i: nat)
    requires SamePlan(start, s.candidates) && SamePlan(start, t.candidates) && DistinctItems(s.candidates)
    requires LogWithin(start, s) && TrialsOnce(s.log) && i < |start|
    requires |t.log| == |s.log| + 1 && t.log[..|s.log|] == s.log
    requires forall j :: 0 <= j < |start| ==> s.candidates[j].Allocated() <= t.candidates[j].Allocated()
    requires s.candidates[i].Allocated() < t.candidates[i].Allocated()
    requires t.log[|s.log|].item == s.candidates[i].item
    requires t.log[|s.log|].trialIndex == s.candidates[i].Allocated()
    ensures LogWithin(start, t) && TrialsOnce(t.log)
  {
    var n := |s.log|;
    forall k | 0 <= k < |t.log|
      ensures exists j ::
        && 0 <= j < |start| && t.log[k].item == start[j].item
        && start[j].Allocated() <= t.log[k].trialIndex < t.candidates[j].Allocated()
    {
      if k < n {
        assert t.log[k] == s.log[k];
        var j :| 0 <= j < |start| && s.log[k].item == start[j].item
          && start[j].Allocated() <= s.log[k].trialIndex < s.candidates[j].Allocated();
        assert s.candidates[j].Allocated() <= t.candidates[j].Allocated();
      } else {
        assert t.log[k].item == start[i].item;
      }
    }
    forall k | 0 <= k < n ensures t.log[k].item != t.log[n].item || t.log[k].trialIndex != t.log[n].trialIndex {
      assert t.log[k] == s.log[k];
      var j :| 0 <= j < |start| && s.log[k].item == start[j].item
        && start[j].Allocated() <= s.log[k].trialIndex < s.candidates[j].Allocated();
      assert s.candidates[j].item == start[j].item;
    }
    forall k, l | 0 <= k < l < |t.log|
      ensures t.log[k].item != t.log[l].item || t.log[k].trialIndex != t.log[l].trialIndex
    {
      assert t.log[k] == s.log[k];
      assert l < n ==> t.log[l] == s.log[l];
    }
  }

  lemma StepKeepsGood(ctx: Context, start: seq<Candidate>, s: State, t: State)
    requires Good(start, s) && Step(ctx, s, t)
    ensures Good(start, t)
  {
    var i, o, d := StepEffect(ctx, s, t);
    StepKeepsPlan(start, s.candidates, i, o, d);
    RecordAdvances(s.candidates[i], o, d);
    StepKeepsLog(start, s, t, i);
    forall k | 0 <= k < |t.log| ensures t.log[k].sequence == Total(start) + k {
      assert k < |s.log| ==> t.log[k] == s.log[k];
    }
  }

  /** Over every run: no trial of any item is decided twice, each decision's sequence number is one
      more than the last, and no candidate ever exceeds its plan. */
  lemma {:induction false} RunsFollowThePlan(ctx: Context, start: seq<Candidate>, run: seq<State>)
    requires AllValid(start) && IsRun(ctx, start, run)
    ensures Good(start, run[|run| - 1]) && |run[|run| - 1].log| == |run| - 1
  {
    hide *;
    RunParts(ctx, start, run);
    var n := |run| - 1;
    if n > 0 {
      RunsFollowThePlan(ctx, start, run[..n]);
      StepKeepsGood(ctx, start, run[n - 1], run[n]);
      StepLogs(ctx, run[n - 1], run[n]);
    } else {
      StartIsGood(start);
    }
  }

  /** A run is its start, or a shorter run and one more step. */
  lemma RunParts(ctx: Context, start: seq<Candidate>, run: seq<State>)
    requires IsRun(ctx, start, run)
    ensures run != [] && run[0] == State(start, [])
    ensures var n := |run| - 1;
            n > 0 ==> IsRun(ctx, start, run[..n]) && run[..n][n - 1] == run[n - 1] && Step(ctx, run[n - 1], run[n])
  {
    hide Step;
  }

  lemma StartIsGood(start: seq<Candidate>)
    requires AllValid(start)
    ensures Good(start, State(start, []))
  {}

  lemma StepLogs(ctx: Context, s: State, t: State)
    requires Step(ctx, s, t)
    ensures |t.log| == |s.log| + 1
  {}

  // ----- how long runs last

  /** What the allocator checks before it looks for an open candidate. */
  ghost predicate Admissible(ctx: Context, cs: seq<Candidate>) {
    && ctx.status.Ready? && ctx.evaluation.AdaptiveSearch? && 0.0 < ctx.boundary < 1.0
    && DistinctItems(cs) && DisjointPriors(cs)
  }

  lemma {:induction false} SamePlanSameBudget(start: seq<Candidate>, cs: seq<Candidate>)
    requires SamePlan(start, cs)
    ensures Budget(cs) == Budget(start)
  {
    if start != [] {
      SamePlanSameBudget(start[..|start| - 1], cs[..|cs| - 1]);
    }
  }

  lemma {:induction false} OpenBelowBudget(cs: seq<Candidate>)
    requires AllValid(cs)
    ensures Total(cs) <= Budget(cs)
    ensures Total(cs) < Budget(cs) <==> Eligible(cs) != []
  {
    if cs != [] {
      OpenBelowBudget(cs[..|cs| - 1]);
    }
  }

  lemma Fresh(used: set<Digest>) returns (d: Digest)
    ensures d !in used
  {
    BelowMembers(|used| + 1);
    if Below(|used| + 1) <= used {
      SubsetSize(Below(|used| + 1), used);
    }
    d :| d in Below(|used| + 1) && d !in used;
  }

  lemma SucceedsWhenAdmissible(ctx: Context, cs: seq<Candidate>)
    requires AllValid(cs)
    ensures AllocateNearBoundary(ctx, cs).Ok? <==> Admissible(ctx, cs) && Total(cs) < Budget(cs)
  {
    OpenBelowBudget(cs);
  }

  /** A step is possible exactly when the allocator succeeds: any outcome can then be recorded. */
  lemma StepWhenAllocated(ctx: Context, s: State)
    ensures AllocateNearBoundary(ctx, s.candidates).Ok? <==> CanContinue(ctx, s)
  {
    var r := AllocateNearBoundary(ctx, s.candidates);
    if r.Ok? {
      var d := Fresh(AllPriors(s.candidates));
      var ds := seq(|s.candidates|, i requires 0 <= i < |s.candidates| =>
        if s.candidates[i].item == r.value.item then Record(s.candidates[i], Success, d) else s.candidates[i]);
      assert Recorded(s.candidates, r.value.item, Success, d, ds);
      assert Step(ctx, s, State(ds, s.log + [r.value]));
    }
  }

  lemma StepKeepsAdmissible(ctx: Context, s: State, t: State)
    requires Step(ctx, s, t) && AllValid(s.candidates)
    ensures Admissible(ctx, s.candidates) && Admissible(ctx, t.candidates)
  {
    var i, o, d := StepEffect(ctx, s, t);
    RecordAdvances(s.candidates[i], o, d);
  }

  /** A run goes on exactly until the remaining budget is spent. */
  lemma {:induction false} RunsSpendTheBudget(ctx: Context, start: seq<Candidate>, run: seq<State>)
    requires AllValid(start) && IsRun(ctx, start, run)
    ensures |run| - 1 <= Budget(start) - Total(start)
    ensures CanContinue(ctx, run[|run| - 1])
        <==> Admissible(ctx, start) && |run| - 1 < Budget(start) - Total(start)
  {
    hide *;
    RunParts(ctx, start, run);
    var last := run[|run| - 1];
    RunsFollowThePlan(ctx, start, run);
    GoodCounts(start, last);
    SamePlanSameBudget(start, last.candidates);
    OpenBelowBudget(last.candidates);
    SucceedsWhenAdmissible(ctx, last.candidates);
    StepWhenAllocated(ctx, last);
    if |run| > 1 {
      RunsStayAdmissible(ctx, start, run);
    }
  }

  lemma GoodCounts(start: seq<Candidate>, s: State)
    requires Good(start, s)
    ensures AllValid(s.candidates) && SamePlan(start, s.candidates)
    ensures Total(s.candidates) == Total(start) + |s.log|
  {}

  lemma {:induction false} RunsStayAdmissible(ctx: Context, start: seq<Candidate>, run: seq<State>)
    requires AllValid(start) && IsRun(ctx, start, run) && |run| > 1
    ensures Admissible(ctx, start) && Admissible(ctx, run[|run| - 1].candidates)
  {
    hide *;
    RunParts(ctx, start, run);
    var n := |run| - 1;
    RunsFollowThePlan(ctx, start, run[..n]);
    GoodCounts(start, run[n - 1]);
    StepKeepsAdmissible(ctx, run[n - 1], run[n]);
    RunParts(ctx, start, run[..n]);
    if n > 1 {
      RunsStayAdmissible(ctx, start, run[..n]);
    }
  }
}
