/** What every interleaving of `drain_dispatch` keeps. */
module DispatchSafety {
  import opened Prelude
  import opened Finite
  import opened Dispatch

  // ----- runs

  /** A run: the state before each event, and the state it ends in. */
  datatype Run = Run(states: seq<State>, events: seq<Event>)

  ghost predicate IsRun(r: Run, ids: seq<string>, concurrency: nat, deadline: int, start: int) {
    && NoRepeats(ids) && concurrency >= 1
    && |r.states| == |r.events| + 1
    && r.states[0] == InitialState(ids, concurrency, start)
    && forall k :: 0 <= k < |r.events| ==>
         Enabled(r.states[k], r.events[k]) && r.states[k + 1] == Step(r.states[k], deadline, r.events[k])
  }

  // ----- the invariant

  ghost function InFlight(s: State): set<nat> {
    set w: nat | w < |s.workers| && s.workers[w].Running?
  }

  ghost predicate IsRunning(s: State, rid: string) {
    exists w :: 0 <= w < |s.workers| && s.workers[w] == Running(rid)
  }

  /** Dequeued requests that ended other than verified. */
  ghost function Spoiled(s: State): set<string> {
    set rid | rid in s.outcomes && rid in s.dispatched && !IsRunning(s, rid) && !Verified(s.outcomes[rid])
  }

  /** The queue, the outcomes and the running workers account for every job exactly once. */
  ghost predicate Accounted(ids: seq<string>, s: State) {
    && s.dispatched + s.queue == ids
    && s.outcomes.Keys == (set rid | rid in ids)
    && (forall rid :: rid in s.queue ==> s.outcomes[rid] == NOT_RUN)
    && (forall w :: 0 <= w < |s.workers| && s.workers[w].Running? ==> s.workers[w].rid in s.dispatched)
    && (forall v, w :: 0 <= v < w < |s.workers| && s.workers[v].Running? && s.workers[w].Running? ==>
         s.workers[v].rid != s.workers[w].rid)
  }

  /** A spoiled outcome sets `stopping`, and each worker can spoil at most one. */
  ghost predicate Contained(s: State) {
    && (!s.stopping ==> Spoiled(s) == {})
    && |Spoiled(s)| + |InFlight(s)| <= |s.workers|
  }

  ghost predicate Controlled(deadline: int, s: State) {
    && (s.controller.Draining? ==> s.stopping)
    && (s.Exited() && s.cancellations <= 1 ==> AllFinished(s))
    && (s.cancellations == 0 ==> !s.controller.Draining? && !s.controller.Raised?)
    && (s.cancellations > 0 ==> !s.controller.Awaiting? && !s.controller.Returned?)
    && (forall w :: 0 <= w < |s.workers| && s.workers[w].Finished? ==> Excused(deadline, s))
  }

  ghost predicate Inv(ids: seq<string>, deadline: int, s: State) {
    Accounted(ids, s) && Contained(s) && Controlled(deadline, s)
  }

  ghost predicate AllFinished(s: State) {
    forall w :: 0 <= w < |s.workers| ==> s.workers[w].Finished?
  }

  /** Why a worker may have finished. */
  ghost predicate Excused(deadline: int, s: State) {
    s.queue == [] || s.stopping || s.clock >= deadline || s.killed
  }

  // ----- one step

  lemma InFlightBound(s: State)
    ensures |InFlight(s)| <= |s.workers|
    ensures forall w :: 0 <= w < |s.workers| && !s.workers[w].Running? ==> |InFlight(s)| < |s.workers|
  {
    BelowMembers(|s.workers|);
    SubsetSize(InFlight(s), Below(|s.workers|));
    forall w | 0 <= w < |s.workers| && !s.workers[w].Running? ensures |InFlight(s)| < |s.workers| {
      SubsetSize(InFlight(s), Below(|s.workers|) - {w});
    }
  }

  lemma InitHolds(ids: seq<string>, concurrency: nat, deadline: int, start: int)
    requires NoRepeats(ids)
    ensures Inv(ids, deadline, InitialState(ids, concurrency, start))
  {
    var s := InitialState(ids, concurrency, start);
    assert s.dispatched + s.queue == ids;
    InFlightBound(s);
    assert Spoiled(s) == {};
  }

  /** A worker dequeues the head of the queue. */
  lemma TakeKeeps(ids: seq<string>, deadline: int, s: State, w: nat, admissionError: Option<string>)
    requires NoRepeats(ids) && Inv(ids, deadline, s) && Enabled(s, LoopHead(w, admissionError))
    requires !s.stopping && s.clock < deadline && s.queue != []
    ensures Inv(ids, deadline, Step(s, deadline, LoopHead(w, admissionError)))
  {
    hide Contained, Controlled, InfrastructureFailure;
    var rid := s.queue[0];
    var t := Step(s, deadline, LoopHead(w, admissionError));
    HeadIsFresh(ids, s);
    TakeAccounted(ids, s, t, w, rid);
    hide Accounted;
    TakeContained(s, t, w, rid);
    TakeControlled(deadline, s, t, w, rid);
  }

  lemma TakeAccounted(ids: seq<string>, s: State, t: State, w: nat, rid: string)
    requires Accounted(ids, s) && s.queue != [] && rid == s.queue[0]
    requires rid !in s.dispatched && rid !in s.queue[1..]
    requires t.queue == s.queue[1..] && t.dispatched == s.dispatched + [rid]
    requires t.outcomes.Keys == s.outcomes.Keys
    requires forall x :: x in s.outcomes && x != rid ==> t.outcomes[x] == s.outcomes[x]
    requires w < |s.workers| && s.workers[w].AtLoopHead?
    requires t.workers == s.workers || t.workers == s.workers[w := Running(rid)]
    ensures Accounted(ids, t) && rid in s.outcomes
  {
    assert s.queue == [rid] + s.queue[1..];
    assert t.dispatched + t.queue == s.dispatched + s.queue;
    assert rid in s.dispatched + s.queue;
  }

  lemma TakeControlled(deadline: int, s: State, t: State, w: nat, rid: string)
    requires Controlled(deadline, s) && !s.stopping && s.clock < deadline && s.queue != []
    requires w < |s.workers| && s.workers[w].AtLoopHead?
    requires t.workers == s.workers || t.workers == s.workers[w := Running(rid)]
    requires t.killed == s.killed && t.controller == s.controller && t.cancellations == s.cancellations
    ensures Controlled(deadline, t)
  {
  }

  lemma TakeContained(s: State, t: State, w: nat, rid: string)
    requires Contained(s) && !s.stopping && w < |s.workers| && s.workers[w].AtLoopHead?
    requires t.dispatched == s.dispatched + [rid] && rid !in s.dispatched && rid in s.outcomes
    requires t.outcomes.Keys == s.outcomes.Keys
    requires forall x :: x in s.outcomes && x != rid ==> t.outcomes[x] == s.outcomes[x]
    requires if t.stopping then t.workers == s.workers else t.workers == s.workers[w := Running(rid)]
    ensures Contained(t)
  {
    TakeSpoils(s, t, w, rid);
    SubsetSize(Spoiled(t), {rid});
    InFlightBound(s);
    InFlightBound(t);
    if t.stopping { assert InFlight(t) == InFlight(s); }
  }

  lemma HeadIsFresh(ids: seq<string>, s: State)
    requires NoRepeats(ids) && s.dispatched + s.queue == ids && s.queue != []
    ensures s.queue[0] !in s.dispatched && s.queue[0] !in s.queue[1..]
  {
    var n := |s.dispatched|;
    assert ids[n] == s.queue[0];
    forall i | 0 <= i < n ensures s.dispatched[i] != s.queue[0] { assert ids[i] == s.dispatched[i]; }
    forall i | 1 <= i < |s.queue| ensures s.queue[i] != s.queue[0] { assert ids[n + i] == s.queue[i]; }
  }

  lemma TakeSpoils(s: State, t: State, w: nat, rid: string)
    requires Spoiled(s) == {} && w < |s.workers| && s.workers[w].AtLoopHead?
    requires t.dispatched == s.dispatched + [rid]
    requires rid !in s.dispatched && rid in s.outcomes
    requires t.outcomes.Keys == s.outcomes.Keys
    requires forall x :: x in s.outcomes && x != rid ==> t.outcomes[x] == s.outcomes[x]
    requires t.workers == s.workers || t.workers == s.workers[w := Running(rid)]
    ensures Spoiled(t) <= {rid}
    ensures t.workers == s.workers[w := Running(rid)] ==> Spoiled(t) == {}
  {
    forall x | x in s.outcomes && x in s.dispatched && !Verified(s.outcomes[x]) ensures IsRunning(t, x) {
      assert x !in Spoiled(s);
      var v :| 0 <= v < |s.workers| && s.workers[v] == Running(x);
      assert t.workers[v] == Running(x);
    }
    if t.workers == s.workers[w := Running(rid)] {
      assert t.workers[w] == Running(rid);
      assert IsRunning(t, rid);
    }
  }

  lemma DispatchedIsNotQueued(ids: seq<string>, s: State, rid: string)
    requires NoRepeats(ids) && s.dispatched + s.queue == ids && rid in s.dispatched
    ensures rid in ids && rid !in s.queue
  {
    var i :| 0 <= i < |s.dispatched| && s.dispatched[i] == rid;
    assert ids[i] == rid;
    forall j | 0 <= j < |s.queue| ensures s.queue[j] != rid { assert ids[|s.dispatched| + j] == s.queue[j]; }
  }

  /** A worker comes back from its dispatch. */
  lemma ResumeKeeps(ids: seq<string>, deadline: int, s: State, w: nat, c: Completion)
    requires NoRepeats(ids) && Inv(ids, deadline, s) && Enabled(s, Resume(w, c))
    ensures Inv(ids, deadline, Step(s, deadline, Resume(w, c)))
  {
    hide Spoiled, InFlight, InfrastructureFailure;
    var rid, t := s.workers[w].rid, Step(s, deadline, Resume(w, c));
    DispatchedIsNotQueued(ids, s, rid);
    assert Accounted(ids, t);
    ResumeContained(s, t, w, rid, Recorded(rid, c).0);
    assert Controlled(deadline, t);
  }

  lemma ResumeContained(s: State, t: State, w: nat, rid: string, outcome: string)
    requires Contained(s) && w < |s.workers| && s.workers[w] == Running(rid)
    requires forall v :: 0 <= v < |s.workers| && v != w ==> s.workers[v] != Running(rid)
    requires t.dispatched == s.dispatched && rid in s.outcomes && t.outcomes == s.outcomes[rid := outcome]
    requires t.workers == s.workers[w := AtLoopHead] || t.workers == s.workers[w := Finished]
    requires t.stopping || (!s.stopping && Verified(outcome))
    ensures Contained(t)
  {
    assert InFlight(t) == InFlight(s) - {w} && w in InFlight(s);
    ResumeSpoils(s, t, w, rid, outcome);
    SubsetSize(Spoiled(t), Spoiled(s) + {rid});
  }

  lemma ResumeSpoils(s: State, t: State, w: nat, rid: string, outcome: string)
    requires w < |s.workers| && s.workers[w] == Running(rid)
    requires forall v :: 0 <= v < |s.workers| && v != w ==> s.workers[v] != Running(rid)
    requires t.dispatched == s.dispatched && rid in s.outcomes
    requires t.outcomes == s.outcomes[rid := outcome]
    requires |t.workers| == |s.workers| && !t.workers[w].Running?
    requires forall v :: 0 <= v < |s.workers| && v != w ==> t.workers[v] == s.workers[v]
    ensures Spoiled(t) <= Spoiled(s) + {rid}
    ensures Verified(outcome) ==> Spoiled(t) <= Spoiled(s)
  {
    forall x | x in Spoiled(t) && x != rid ensures x in Spoiled(s) {
      forall v | 0 <= v < |s.workers| ensures s.workers[v] != Running(x) {
        assert v != w ==> t.workers[v] != Running(x);
      }
    }
  }

  /** The steps that change neither the queue nor an outcome. */
  lemma QuietKeeps(ids: seq<string>, deadline: int, s: State, e: Event)
    requires NoRepeats(ids) && Inv(ids, deadline, s) && Enabled(s, e)
    requires !e.Resume? && !(e.LoopHead? && !s.stopping && s.clock < deadline && s.queue != [])
    ensures Inv(ids, deadline, Step(s, deadline, e))
  {
    hide Spoiled, InFlight;
    var t := Step(s, deadline, e);
    assert Accounted(ids, t);
    QuietContained(s, t);
    assert Controlled(deadline, t);
  }

  lemma QuietContained(s: State, t: State)
    requires Contained(s) && t.dispatched == s.dispatched && t.outcomes == s.outcomes
    requires s.stopping ==> t.stopping
    requires |t.workers| == |s.workers|
    requires forall v :: 0 <= v < |s.workers| ==>
      t.workers[v] == s.workers[v] || (!t.workers[v].Running? && !s.workers[v].Running?)
    ensures Contained(t)
  {
    assert InFlight(t) == InFlight(s);
    forall x ensures IsRunning(t, x) <==> IsRunning(s, x) {
      if IsRunning(s, x) {
        var v :| 0 <= v < |s.workers| && s.workers[v] == Running(x);
        assert t.workers[v] == Running(x);
      }
    }
    assert Spoiled(t) == Spoiled(s);
  }

  lemma StepKeeps(ids: seq<string>, deadline: int, s: State, e: Event)
    requires NoRepeats(ids) && Inv(ids, deadline, s) && Enabled(s, e)
    ensures Inv(ids, deadline, Step(s, deadline, e))
  {
    hide *;
    if e.Resume? {
      ResumeKeeps(ids, deadline, s, e.w, e.completion);
    } else if e.LoopHead? && !s.stopping && s.clock < deadline && s.queue != [] {
      TakeKeeps(ids, deadline, s, e.w, e.admissionError);
    } else {
      QuietKeeps(ids, deadline, s, e);
    }
  }

  lemma {:induction false} RunKeeps(r: Run, ids: seq<string>, concurrency: nat, deadline: int, start: int, k: nat)
    requires IsRun(r, ids, concurrency, deadline, start) && k < |r.states|
    ensures Inv(ids, deadline, r.states[k])
  {
    if k == 0 {
      InitHolds(ids, concurrency, deadline, start);
    } else {
      RunKeeps(r, ids, concurrency, deadline, start, k - 1);
      StepKeeps(ids, deadline, r.states[k - 1], r.events[k - 1]);
    }
  }

  // ----- the promises

  /** At every moment of every run: what was dequeued is a duplicate-free prefix of the jobs, at
      most min(concurrency, jobs) are in flight, and at most that many dequeued jobs have ever
      ended other than verified. */
  lemma BoundedDispatch(r: Run, ids: seq<string>, concurrency: nat, deadline: int, start: int, k: nat)
    requires IsRun(r, ids, concurrency, deadline, start) && k < |r.states|
    ensures var s := r.states[k];
            var limit := if concurrency <= |ids| then concurrency else |ids|;
            && s.dispatched <= ids && NoRepeats(s.dispatched)
            && |InFlight(s)| <= limit
            && |Spoiled(s)| + |InFlight(s)| <= limit
  {
    RunKeeps(r, ids, concurrency, deadline, start, k);
    WorkersFixed(r, ids, concurrency, deadline, start, k);
    var s := r.states[k];
    assert s.dispatched == ids[..|s.dispatched|];
  }

  lemma {:induction false} WorkersFixed(r: Run, ids: seq<string>, concurrency: nat, deadline: int, start: int, k: nat)
    requires IsRun(r, ids, concurrency, deadline, start) && k < |r.states|
    ensures |r.states[k].workers| == if concurrency <= |ids| then concurrency else |ids|
  {
    if k > 0 {
      WorkersFixed(r, ids, concurrency, deadline, start, k - 1);
      assert r.states[k] == Step(r.states[k - 1], deadline, r.events[k - 1]);
    }
  }

  /** Once `stopping` is set, or the deadline has passed, nothing more is ever dequeued. */
  lemma {:induction false} NoAdmissionAfterStop(
      r: Run, ids: seq<string>, concurrency: nat, deadline: int, start: int, j: nat, k: nat)
    requires IsRun(r, ids, concurrency, deadline, start) && j <= k < |r.states|
    requires r.states[j].stopping || r.states[j].clock >= deadline
    ensures r.states[k].dispatched == r.states[j].dispatched
    ensures r.states[j].stopping ==> r.states[k].stopping
    ensures r.states[k].clock >= r.states[j].clock
  {
    if j < k {
      NoAdmissionAfterStop(r, ids, concurrency, deadline, start, j, k - 1);
      assert r.states[k] == Step(r.states[k - 1], deadline, r.events[k - 1]);
    }
  }

  /** What a job ended with is never overwritten, and it never runs again. */
  lemma {:induction false} OutcomesAreFinal(
      r: Run, ids: seq<string>, concurrency: nat, deadline: int, start: int, j: nat, k: nat, rid: string)
    requires IsRun(r, ids, concurrency, deadline, start) && j <= k < |r.states|
    requires rid in r.states[j].dispatched && !IsRunning(r.states[j], rid)
    ensures rid in r.states[k].dispatched && !IsRunning(r.states[k], rid)
    ensures rid in r.states[j].outcomes && rid in r.states[k].outcomes
    ensures r.states[k].outcomes[rid] == r.states[j].outcomes[rid]
  {
    hide Step, Contained, Controlled, IsRunning, Enabled;
    RunKeeps(r, ids, concurrency, deadline, start, j);
    DispatchedIsNotQueued(ids, r.states[j], rid);
    if j < k {
      OutcomesAreFinal(r, ids, concurrency, deadline, start, j, k - 1, rid);
      RunKeeps(r, ids, concurrency, deadline, start, k - 1);
      EndedStays(ids, deadline, r.states[k - 1], r.events[k - 1], rid);
    }
  }

  lemma EndedStays(ids: seq<string>, deadline: int, s: State, e: Event, rid: string)
    requires NoRepeats(ids) && Accounted(ids, s) && Enabled(s, e)
    requires rid in s.dispatched && !IsRunning(s, rid) && rid in s.outcomes
    ensures var t := Step(s, deadline, e);
            rid in t.dispatched && !IsRunning(t, rid) && rid in t.outcomes && t.outcomes[rid] == s.outcomes[rid]
  {
    hide InfrastructureFailure, Verified;
    DispatchedIsNotQueued(ids, s, rid);
    var t := Step(s, deadline, e);
    if e.Resume? { assert s.workers[e.w].rid != rid; }
    forall v | 0 <= v < |t.workers| ensures t.workers[v] != Running(rid) {
      assert s.workers[v] != Running(rid);
    }
  }

  /** With at most one cancellation of the controller, the call is not left while an admitted job
      is still running; a plain return means there was no cancellation. */
  lemma DrainsBeforeExit(r: Run, ids: seq<string>, concurrency: nat, deadline: int, start: int, k: nat)
    requires IsRun(r, ids, concurrency, deadline, start) && k < |r.states|
    requires r.states[k].Exited() && r.states[k].cancellations <= 1
    ensures AllFinished(r.states[k]) && InFlight(r.states[k]) == {}
    ensures r.states[k].controller.Returned? <==> r.states[k].cancellations == 0
  {
    RunKeeps(r, ids, concurrency, deadline, start, k);
  }

  /** A second cancellation does leave work behind: the promise above cannot be extended. */
  lemma SecondCancellationAbandons(rid: string)
    ensures exists r: Run ::
      && IsRun(r, [rid], 1, 10, 0)
      && r.states[|r.events|].Exited() && r.states[|r.events|].cancellations == 2
      && InFlight(r.states[|r.events|]) != {}
  {
    var s0 := InitialState([rid], 1, 0);
    var e0, e1, e2 := LoopHead(0, None), CancelController, CancelController;
    var s1 := Step(s0, 10, e0);
    var s2 := Step(s1, 10, e1);
    var s3 := Step(s2, 10, e2);
    var r := Run([s0, s1, s2, s3], [e0, e1, e2]);
    assert s3.workers[0] == Running(rid);
    assert 0 in InFlight(s3);
    assert IsRun(r, [rid], 1, 10, 0);
  }

  /** Every run that is left after at most `limit` cancellations is left with nothing in flight. */
  ghost predicate AlwaysDrains(limit: nat) {
    forall r: Run, ids: seq<string>, concurrency: nat, deadline: int, start: int, k: nat ::
      (&& IsRun(r, ids, concurrency, deadline, start) && k < |r.states|
       && r.states[k].Exited() && r.states[k].cancellations <= limit) ==> InFlight(r.states[k]) == {}
  }

  /** Draining is guaranteed for one cancellation and for no more than one. */
  lemma DrainsExactlyWhen(limit: nat)
    ensures AlwaysDrains(limit) <==> limit <= 1
  {
    if limit <= 1 {
      forall r: Run, ids: seq<string>, concurrency: nat, deadline: int, start: int, k: nat
        | IsRun(r, ids, concurrency, deadline, start) && k < |r.states|
          && r.states[k].Exited() && r.states[k].cancellations <= limit
        ensures InFlight(r.states[k]) == {}
      {
        DrainsBeforeExit(r, ids, concurrency, deadline, start, k);
      }
    } else {
      SecondCancellationAbandons("job");
      var r: Run :| IsRun(r, ["job"], 1, 10, 0)
        && r.states[|r.events|].Exited() && r.states[|r.events|].cancellations == 2
        && InFlight(r.states[|r.events|]) != {};
      hide InFlight, IsRun;
      assert |r.events| < |r.states|;
    }
  }

  /** Exactly when the call is left with a job still in flight: it is left by a cancellation of the
      controller, and a job was in flight. */
  lemma AbandonsExactlyWhen(r: Run, ids: seq<string>, concurrency: nat, deadline: int, start: int, k: nat)
    requires IsRun(r, ids, concurrency, deadline, start) && k < |r.events|
    requires !r.states[k].Exited() && r.states[k + 1].Exited()
    ensures InFlight(r.states[k + 1]) == InFlight(r.states[k])
    ensures InFlight(r.states[k + 1]) != {} <==> r.events[k].CancelController? && InFlight(r.states[k]) != {}
    ensures r.events[k].CancelController? ==> r.states[k].controller.Draining? && r.states[k + 1].cancellations >= 2
  {
    RunKeeps(r, ids, concurrency, deadline, start, k);
    var s, t := r.states[k], r.states[k + 1];
    assert t == Step(s, deadline, r.events[k]);
    assert InFlight(t) == InFlight(s);
  }

  /** A returned result that was neither stopped, nor timed out, nor missing a worker has run
      every job, each with a verified outcome. */
  lemma CompleteReturn(r: Run, ids: seq<string>, concurrency: nat, deadline: int, start: int, k: nat)
    requires IsRun(r, ids, concurrency, deadline, start) && k < |r.states|
    requires r.states[k].controller.Returned?
    requires !r.states[k].stopping && r.states[k].clock < deadline && !r.states[k].killed
    ensures r.states[k].dispatched == ids
    ensures forall rid :: rid in ids ==> rid in r.states[k].outcomes && Verified(r.states[k].outcomes[rid])
  {
    var s := r.states[k];
    RunKeeps(r, ids, concurrency, deadline, start, k);
    WorkersFixed(r, ids, concurrency, deadline, start, k);
    assert AllFinished(s);
    if ids != [] {
      assert s.workers[0].Finished?;
      assert s.queue == [];
    }
    forall rid | rid in ids ensures rid in s.outcomes && Verified(s.outcomes[rid]) {
      assert rid in s.dispatched && rid !in Spoiled(s);
    }
  }

  // ----- progress

  /** Work left for the coroutines: the environment cannot add to it. */
  ghost function WorkLeft(s: State): nat {
    3 * |s.queue| + Pending(s.workers)
  }

  ghost function Pending(workers: seq<Worker>): nat {
    if workers == [] then 0
    else Pending(workers[1..]) + (if workers[0].AtLoopHead? then 1 else if workers[0].Running? then 2 else 0)
  }

  lemma {:induction false} PendingUpdate(workers: seq<Worker>, w: nat, x: Worker)
    requires w < |workers|
    ensures Pending(workers[w := x]) - Pending([x]) == Pending(workers) - Pending([workers[w]])
  {
    assert Pending([x]) == Pending([]) + Pending([x]);
    if w == 0 {
      assert workers[0 := x][1..] == workers[1..];
    } else {
      PendingUpdate(workers[1..], w - 1, x);
      assert workers[w := x][1..] == workers[1..][w - 1 := x];
    }
  }

  predicate WorkerStep(e: Event) { e.LoopHead? || e.Resume? || e.KillAtLoopHead? }

  ghost function WorkerSteps(events: seq<Event>): nat {
    if events == [] then 0
    else
      var before := WorkerSteps(events[..|events| - 1]);
      if WorkerStep(events[|events| - 1]) then before + 1 else before
  }

  function IsWorkerStep(): Event -> bool { (e: Event) => WorkerStep(e) }

  lemma {:induction false} WorkerStepsCount(events: seq<Event>)
    ensures WorkerSteps(events) == |Where(events, IsWorkerStep())|
  {
    if events != [] {
      var n := |events| - 1;
      assert events == events[..n] + [events[n]];
      WorkerStepsCount(events[..n]);
      WhereNext(events[..n], events[n], IsWorkerStep());
    }
  }

  /** Every worker step uses up work, and no other step adds any. */
  lemma StepUsesWork(s: State, deadline: int, e: Event)
    requires Enabled(s, e)
    ensures WorkerStep(e) ==> WorkLeft(Step(s, deadline, e)) < WorkLeft(s)
    ensures !WorkerStep(e) ==> WorkLeft(Step(s, deadline, e)) == WorkLeft(s)
  {
    if WorkerStep(e) {
      var t := Step(s, deadline, e);
      assert t.workers == s.workers[e.w := t.workers[e.w]];
      PendingUpdate(s.workers, e.w, t.workers[e.w]);
    }
  }

  lemma {:induction false} PendingAtStart(workers: seq<Worker>)
    requires forall w :: 0 <= w < |workers| ==> workers[w].AtLoopHead?
    ensures Pending(workers) == |workers|
  {
    if workers != [] { PendingAtStart(workers[1..]); }
  }

  lemma {:induction false} WorkIsUsedUp(r: Run, ids: seq<string>, concurrency: nat, deadline: int, start: int, k: nat)
    requires IsRun(r, ids, concurrency, deadline, start) && k <= |r.events|
    ensures WorkLeft(r.states[k]) + WorkerSteps(r.events[..k]) <= WorkLeft(r.states[0])
  {
    if k > 0 {
      WorkIsUsedUp(r, ids, concurrency, deadline, start, k - 1);
      StepUsesWork(r.states[k - 1], deadline, r.events[k - 1]);
      assert r.events[..k][..k - 1] == r.events[..k - 1];
    }
  }

  /** Whatever the clock, the stop event and the cancellations do, the workers of a run take at most
      three steps for each job and one more each. */
  lemma WorkersProgress(r: Run, ids: seq<string>, concurrency: nat, deadline: int, start: int)
    requires IsRun(r, ids, concurrency, deadline, start)
    ensures |Where(r.events, IsWorkerStep())| <= 3 * |ids| + if concurrency <= |ids| then concurrency else |ids|
  {
    WorkerStepsCount(r.events);
    var s := r.states[0];
    WorkIsUsedUp(r, ids, concurrency, deadline, start, |r.events|);
    assert r.events[..|r.events|] == r.events;
    PendingAtStart(s.workers);
  }

  /** While the controller waits for unfinished workers, some coroutine step is possible. */
  lemma SomeStep(s: State) returns (e: Event)
    requires !s.Exited()
    ensures Enabled(s, e) && (WorkerStep(e) || e.ControllerExits?)
  {
    if forall w :: 0 <= w < |s.workers| ==> s.workers[w].Finished? {
      return ControllerExits;
    }
    var w :| 0 <= w < |s.workers| && !s.workers[w].Finished?;
    e := if s.workers[w].AtLoopHead? then LoopHead(w, None) else Resume(w, Cancelled);
  }

  /** `longer` continues the run to an exit by coroutine steps alone, no more than there is work left. */
  ghost predicate Completes(r: Run, longer: Run) {
    && |r.states| == |r.events| + 1 && |longer.states| == |longer.events| + 1
    && r.states <= longer.states && r.events <= longer.events
    && |longer.events| - |r.events| <= WorkLeft(r.states[|r.events|]) + 1
    && var last, end := r.states[|r.events|], longer.states[|longer.events|];
       && end.cancellations == last.cancellations
       && if last.controller.Awaiting? then end.controller.Returned? else end.controller.Raised?
  }

  /** The run with one more step. */
  ghost function Longer(r: Run, deadline: int, e: Event): Run
    requires |r.states| == |r.events| + 1 && Enabled(r.states[|r.events|], e)
  {
    Run(r.states + [Step(r.states[|r.events|], deadline, e)], r.events + [e])
  }

  lemma LongerIsRun(r: Run, ids: seq<string>, concurrency: nat, deadline: int, start: int, e: Event)
    requires IsRun(r, ids, concurrency, deadline, start) && Enabled(r.states[|r.events|], e)
    ensures IsRun(Longer(r, deadline, e), ids, concurrency, deadline, start)
  {
    hide Step, Enabled, InitialState;
    var n, longer := |r.events|, Longer(r, deadline, e);
    forall k | 0 <= k < |longer.events|
      ensures Enabled(longer.states[k], longer.events[k])
      ensures longer.states[k + 1] == Step(longer.states[k], deadline, longer.events[k])
    {
      if k < n { assert r.states[k + 1] == Step(r.states[k], deadline, r.events[k]); }
    }
  }

  lemma CompletesLonger(r: Run, deadline: int, e: Event, longer: Run)
    requires |r.states| == |r.events| + 1 && Enabled(r.states[|r.events|], e) && WorkerStep(e)
    requires Completes(Longer(r, deadline, e), longer)
    ensures Completes(r, longer)
  {
    hide WorkLeft;
    StepUsesWork(r.states[|r.events|], deadline, e);
    assert r.states <= Longer(r, deadline, e).states && r.events <= Longer(r, deadline, e).events;
  }

  /** No run gets stuck: before exit it can be continued to one, without further cancellation; the
      outcomes are then returned unless the controller was cancelled before. */
  lemma {:induction false} NeverStuck(r: Run, ids: seq<string>, concurrency: nat, deadline: int, start: int)
    requires IsRun(r, ids, concurrency, deadline, start) && !r.states[|r.events|].Exited()
    ensures exists longer :: IsRun(longer, ids, concurrency, deadline, start) && Completes(r, longer)
    decreases WorkLeft(r.states[|r.events|])
  {
    hide WorkLeft, InitialState;
    var s := r.states[|r.events|];
    var e := SomeStep(s);
    var next := Longer(r, deadline, e);
    LongerIsRun(r, ids, concurrency, deadline, start, e);
    StepUsesWork(s, deadline, e);
    if e.ControllerExits? {
      assert Completes(r, next);
    } else {
      NeverStuck(next, ids, concurrency, deadline, start);
      var longer :| IsRun(longer, ids, concurrency, deadline, start) && Completes(next, longer);
      CompletesLonger(r, deadline, e, longer);
    }
  }
}
