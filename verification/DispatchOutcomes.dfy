/** What a dispatch reports of each job, and what stops it: told by the events of the run alone. */
module DispatchOutcomes {
  import opened Prelude
  import opened Dispatch
  import opened DispatchSafety

  // ----- how a job can end

  /** The dispatch of `rid` ends in the event. */
  ghost predicate Resumes(s: State, e: Event, rid: string, c: Completion) {
    exists w :: 0 <= w < |s.workers| && s.workers[w] == Running(rid) && e == Resume(w, c)
  }

  /** The dispatch of `rid` returns a value for it, and its receipt is accepted. */
  ghost predicate Returns(s: State, e: Event, rid: string, value: string) {
    exists values :: Resumes(s, e, rid, Result(values, None)) && values == map[rid := value]
  }

  ghost predicate IsCancelled(s: State, e: Event, rid: string) {
    Resumes(s, e, rid, Cancelled)
  }

  /** The dispatch or the receipt of `rid` raises an error of this kind, or another job's result
      comes back. */
  ghost predicate Breaks(s: State, e: Event, rid: string, kind: string) {
    || Resumes(s, e, rid, Failure(kind))
    || (exists values, receipt ::
          Resumes(s, e, rid, Result(values, receipt)) && values.Keys != {rid} && kind == "ValueError")
    || (exists values :: Resumes(s, e, rid, Result(values, Some(kind))) && values.Keys == {rid})
  }

  /** The worker takes a job: nothing stops it and the queue is not empty. */
  ghost predicate Takes(s: State, deadline: int, e: Event, rid: string) {
    && e.LoopHead? && e.w < |s.workers| && s.workers[e.w].AtLoopHead?
    && !s.stopping && s.clock < deadline && s.queue != [] && s.queue[0] == rid
  }

  /** The admission check refuses `rid` with an error of this kind. */
  ghost predicate IsRefused(s: State, deadline: int, e: Event, rid: string, kind: string) {
    Takes(s, deadline, e, rid) && e.admissionError == Some(kind)
  }

  ghost predicate Fails(s: State, deadline: int, e: Event, rid: string, kind: string) {
    Breaks(s, e, rid, kind) || IsRefused(s, deadline, e, rid, kind)
  }

  /** How a failure is reported: with the kind of the error, never its text. */
  ghost function FailureOf(kind: string): string { "dispatch_infrastructure_failure:" + kind }

  /** The job ends in the event, and is to be reported so. */
  ghost predicate EndsAs(s: State, deadline: int, e: Event, rid: string, outcome: string) {
    || Returns(s, e, rid, outcome)
    || (IsCancelled(s, e, rid) && outcome == "dispatch_cancelled")
    || exists kind :: Fails(s, deadline, e, rid, kind) && outcome == FailureOf(kind)
  }

  // ----- one event

  lemma SingleKey(values: map<string, string>, rid: string)
    requires values.Keys == {rid}
    ensures values == map[rid := values[rid]]
  {
    assert rid in values.Keys;
    forall x | x in values ensures x == rid { assert x in values.Keys; }
  }

  /** Every end of a dispatch is one of these. */
  lemma ResumeEnds(s: State, deadline: int, e: Event, rid: string, c: Completion) returns (outcome: string)
    requires Resumes(s, e, rid, c)
    ensures EndsAs(s, deadline, e, rid, outcome)
  {
    hide Resumes, Takes, FailureOf;
    match c
    case Cancelled => outcome := "dispatch_cancelled";
    case Failure(kind) =>
      assert Fails(s, deadline, e, rid, kind);
      outcome := FailureOf(kind);
    case Result(values, receipt) =>
      if values.Keys != {rid} {
        assert Fails(s, deadline, e, rid, "ValueError");
        outcome := FailureOf("ValueError");
      } else if receipt.Some? {
        assert Fails(s, deadline, e, rid, receipt.value);
        outcome := FailureOf(receipt.value);
      } else {
        SingleKey(values, rid);
        assert Returns(s, e, rid, values[rid]);
        outcome := values[rid];
      }
  }

  /** What the worker writes is what is to be reported. */
  lemma RecordedIs(s: State, deadline: int, e: Event, rid: string, outcome: string)
    requires e.Resume? && Enabled(s, e) && EndsAs(s, deadline, e, rid, outcome)
    ensures s.workers[e.w] == Running(rid)
    ensures Recorded(rid, e.completion)
         == (outcome, outcome != "verified_success" && outcome != "verified_failure")
  {
    FailuresAreNotVerified();
  }

  lemma FailuresAreNotVerified()
    ensures forall kind :: FailureOf(kind) != "verified_success" && FailureOf(kind) != "verified_failure"
    ensures "dispatch_cancelled" != "verified_success" && "dispatch_cancelled" != "verified_failure"
  {
    assert "dispatch_cancelled"[0] == 'd' && "verified_success"[0] == 'v' && "verified_failure"[0] == 'v';
    forall kind ensures FailureOf(kind) != "verified_success" && FailureOf(kind) != "verified_failure" {
      assert FailureOf(kind)[0] == 'd';
    }
  }

  /** The event that ends a job reports it, and the job is running no more. */
  lemma EndReports(ids: seq<string>, deadline: int, s: State, e: Event, rid: string, outcome: string)
    requires NoRepeats(ids) && Accounted(ids, s) && Enabled(s, e) && EndsAs(s, deadline, e, rid, outcome)
    ensures var t := Step(s, deadline, e);
            rid in t.dispatched && !IsRunning(t, rid) && rid in t.outcomes && t.outcomes[rid] == outcome
  {
    if e.LoopHead? {
      hide Resumes;
      HeadIsFresh(ids, s);
      RefusalReports(ids, deadline, s, e, rid, outcome);
    } else {
      RecordedIs(s, deadline, e, rid, outcome);
      hide EndsAs, Recorded;
    }
  }

  lemma RefusalReports(ids: seq<string>, deadline: int, s: State, e: Event, rid: string, outcome: string)
    requires Accounted(ids, s) && Enabled(s, e) && e.LoopHead? && EndsAs(s, deadline, e, rid, outcome)
    requires s.queue != [] ==> s.queue[0] !in s.dispatched
    ensures var t := Step(s, deadline, e);
            && rid in t.dispatched && !IsRunning(t, rid) && rid in t.outcomes && t.outcomes[rid] == outcome
            && t.stopping && outcome == FailureOf(e.admissionError.value)
  {}

  /** A job that neither ends nor has ended is as it was: not run. */
  ghost predicate Waiting(s: State, rid: string) { rid in s.queue || IsRunning(s, rid) }

  lemma WaitingStays(ids: seq<string>, deadline: int, s: State, e: Event, rid: string)
    requires NoRepeats(ids) && Accounted(ids, s) && Enabled(s, e) && rid in s.outcomes && Waiting(s, rid)
    ensures var t := Step(s, deadline, e);
            rid in t.outcomes
            && if Waiting(t, rid) then t.outcomes[rid] == s.outcomes[rid]
               else exists outcome :: EndsAs(s, deadline, e, rid, outcome)
  {
    hide InfrastructureFailure, Verified, FailureOf, Breaks, Returns, IsCancelled, Recorded;
    var t := Step(s, deadline, e);
    if e.Resume? && s.workers[e.w] == Running(rid) {
      var outcome := ResumeEnds(s, deadline, e, rid, e.completion);
      NotQueuedWhileRunning(ids, s, rid);
    } else if e.LoopHead? && s.queue != [] && s.queue[0] == rid && !s.stopping && s.clock < deadline {
      HeadIsFresh(ids, s);
      NotRunningWhileQueued(ids, s, rid);
      if e.admissionError.Some? {
        assert IsRefused(s, deadline, e, rid, e.admissionError.value);
        assert Fails(s, deadline, e, rid, e.admissionError.value);
        assert EndsAs(s, deadline, e, rid, FailureOf(e.admissionError.value));
      } else {
        assert t.workers[e.w] == Running(rid);
      }
    } else if IsRunning(s, rid) {
      var w :| 0 <= w < |s.workers| && s.workers[w] == Running(rid);
      assert t.workers[w] == Running(rid);
      NotQueuedWhileRunning(ids, s, rid);
    }
  }

  lemma NotQueuedWhileRunning(ids: seq<string>, s: State, rid: string)
    requires NoRepeats(ids) && Accounted(ids, s) && IsRunning(s, rid)
    ensures rid !in s.queue
  {
    DispatchedIsNotQueued(ids, s, rid);
  }

  lemma NotRunningWhileQueued(ids: seq<string>, s: State, rid: string)
    requires NoRepeats(ids) && Accounted(ids, s) && rid in s.queue
    ensures !IsRunning(s, rid)
  {
    if IsRunning(s, rid) { NotQueuedWhileRunning(ids, s, rid); }
  }

  // ----- runs

  /** Event `k` of the run ends the job, to be reported so. */
  ghost predicate EndsAt(r: Run, deadline: int, k: nat, rid: string, outcome: string)
    requires k < |r.events| && k < |r.states|
  {
    EndsAs(r.states[k], deadline, r.events[k], rid, outcome)
  }

  /** Every job is reported `not_run` until the event that ends it, and from then on as that event
      says: with the value its dispatch returned, as cancelled, or as failed with the kind of the
      error. */
  lemma {:induction false} OutcomesAreReported(
      r: Run, ids: seq<string>, concurrency: nat, deadline: int, start: int, m: nat, rid: string)
    requires IsRun(r, ids, concurrency, deadline, start) && m < |r.states| && rid in ids
    ensures rid in r.states[m].outcomes
    ensures forall k, outcome :: 0 <= k < m && EndsAt(r, deadline, k, rid, outcome) ==>
              r.states[m].outcomes[rid] == outcome
    ensures (forall k, outcome :: 0 <= k < m ==> !EndsAt(r, deadline, k, rid, outcome)) ==>
              Waiting(r.states[m], rid) && r.states[m].outcomes[rid] == "not_run"
  {
    hide Step, Enabled, EndsAs, IsRunning, InitialState, Waiting;
    RunKeeps(r, ids, concurrency, deadline, start, m);
    forall k, outcome | 0 <= k < m && EndsAt(r, deadline, k, rid, outcome)
      ensures r.states[m].outcomes[rid] == outcome
    {
      RunKeeps(r, ids, concurrency, deadline, start, k);
      EndReports(ids, deadline, r.states[k], r.events[k], rid, outcome);
      OutcomesAreFinal(r, ids, concurrency, deadline, start, k + 1, m, rid);
    }
    if m == 0 {
      StartsWaiting(ids, concurrency, start, rid);
    } else {
      OutcomesAreReported(r, ids, concurrency, deadline, start, m - 1, rid);
      RunKeeps(r, ids, concurrency, deadline, start, m - 1);
      if Waiting(r.states[m - 1], rid) {
        WaitingStays(ids, deadline, r.states[m - 1], r.events[m - 1], rid);
        if !Waiting(r.states[m], rid) {
          var outcome :| EndsAs(r.states[m - 1], deadline, r.events[m - 1], rid, outcome);
          assert EndsAt(r, deadline, m - 1, rid, outcome);
        }
      }
    }
  }

  lemma StartsWaiting(ids: seq<string>, concurrency: nat, start: int, rid: string)
    requires rid in ids
    ensures var s := InitialState(ids, concurrency, start); Waiting(s, rid) && s.outcomes[rid] == "not_run"
  {}

  // ----- what stops admission

  /** Stopped from outside, by the first cancellation of the controller, or by a job that ends other
      than verified. */
  ghost predicate Stops(s: State, deadline: int, e: Event) {
    || e.ExternalStop?
    || (e.CancelController? && s.controller.Awaiting?)
    || exists rid, outcome ::
         EndsAs(s, deadline, e, rid, outcome) && outcome != "verified_success" && outcome != "verified_failure"
  }

  lemma StopStep(ids: seq<string>, deadline: int, s: State, e: Event)
    requires NoRepeats(ids) && Accounted(ids, s) && Enabled(s, e)
    ensures Step(s, deadline, e).stopping <==> s.stopping || Stops(s, deadline, e)
  {
    hide FailureOf, EndsAs, Recorded;
    if e.Resume? {
      var rid := s.workers[e.w].rid;
      assert Resumes(s, e, rid, e.completion);
      var outcome := ResumeEnds(s, deadline, e, rid, e.completion);
      forall x, o | EndsAs(s, deadline, e, x, o)
        ensures x == rid && Recorded(rid, e.completion) == (o, o != "verified_success" && o != "verified_failure")
      {
        RecordedIs(s, deadline, e, x, o);
      }
    } else if e.LoopHead? {
      forall x, o | EndsAs(s, deadline, e, x, o) ensures Step(s, deadline, e).stopping {
        if s.queue != [] { HeadIsFresh(ids, s); }
        RefusalReports(ids, deadline, s, e, x, o);
      }
      if Step(s, deadline, e).stopping && !s.stopping { AdmissionStops(s, deadline, e); }
    } else {
      NothingEnds(s, deadline, e);
    }
  }

  lemma AdmissionStops(s: State, deadline: int, e: Event)
    requires Enabled(s, e) && e.LoopHead? && Step(s, deadline, e).stopping && !s.stopping
    ensures Stops(s, deadline, e)
  {
    var rid, kind := s.queue[0], e.admissionError.value;
    assert Fails(s, deadline, e, rid, kind);
    assert EndsAs(s, deadline, e, rid, FailureOf(kind));
    FailuresAreNotVerified();
  }

  lemma NothingEnds(s: State, deadline: int, e: Event)
    requires !e.LoopHead? && !e.Resume?
    ensures forall rid, outcome :: !EndsAs(s, deadline, e, rid, outcome)
  {}

  /** Event `k` of the run stops admission. */
  ghost predicate StopsAt(r: Run, deadline: int, k: nat)
    requires k < |r.events| && k < |r.states|
  {
    Stops(r.states[k], deadline, r.events[k])
  }

  /** Admission is stopped exactly when an earlier event stops it. */
  lemma {:induction false} StoppedExactlyWhen(
      r: Run, ids: seq<string>, concurrency: nat, deadline: int, start: int, m: nat)
    requires IsRun(r, ids, concurrency, deadline, start) && m < |r.states|
    ensures r.states[m].stopping <==> exists k :: 0 <= k < m && StopsAt(r, deadline, k)
  {
    hide Step, Enabled, Stops;
    if m > 0 {
      StoppedExactlyWhen(r, ids, concurrency, deadline, start, m - 1);
      RunKeeps(r, ids, concurrency, deadline, start, m - 1);
      StopStep(ids, deadline, r.states[m - 1], r.events[m - 1]);
      if StopsAt(r, deadline, m - 1) {}
    }
  }

  // ----- what a worker does next

  /** A worker at the head of its loop takes the first job left exactly when nothing stops it: it then
      runs the job, or comes back when admission is refused, and it finishes otherwise. */
  lemma AdmitsExactlyWhen(s: State, deadline: int, e: Event)
    requires Enabled(s, e) && e.LoopHead?
    ensures var t := Step(s, deadline, e);
            if !s.stopping && s.clock < deadline && s.queue != [] then
              && t.dispatched == s.dispatched + [s.queue[0]] && t.queue == s.queue[1..]
              && t.workers[e.w] == if e.admissionError.None? then Running(s.queue[0]) else AtLoopHead
            else
              t.dispatched == s.dispatched && t.queue == s.queue && t.workers[e.w] == Finished
  {}

  /** Short of an exit the surroundings can act at any moment: stop admission, cancel the controller, let
      time pass. */
  lemma SurroundingsAreFree(s: State, now: int)
    ensures Enabled(s, ExternalStop)
    ensures Enabled(s, Tick(now)) <==> now >= s.clock
    ensures Enabled(s, CancelController) <==> s.controller == Awaiting || s.controller == Draining
  {}

  /** After its dispatch a worker goes on, unless it was cancelled. */
  lemma GoesOn(s: State, deadline: int, e: Event, rid: string, c: Completion)
    requires Enabled(s, e) && Resumes(s, e, rid, c)
    ensures e.Resume? && e.w < |s.workers|
         && Step(s, deadline, e).workers[e.w] == if c == Cancelled then Finished else AtLoopHead
  {}
}
