/** `drain_dispatch` as a step machine: one step per stretch of code between two awaits, any
    interleaving of the workers, the clock, the stop event and cancellations. */
module Dispatch {
  import opened Prelude

  // ----- state

  /** A worker coroutine: about to test its loop condition, awaiting the dispatch of a request,
      or finished. */
  datatype Worker = AtLoopHead | Running(rid: string) | Finished

  /** The controlling coroutine: in its first or its second `await asyncio.shield(drain)`,
      returned, or raised. */
  datatype Controller = Awaiting | Draining | Returned | Raised

  datatype State = State(
    queue: seq<string>,
    outcomes: map<string, string>,
    stopping: bool,
    workers: seq<Worker>,
    controller: Controller,
    clock: int,
    dispatched: seq<string>,
    cancellations: nat,
    killed: bool)
  {
    predicate Exited() { controller.Returned? || controller.Raised? }
  }

  /** How an awaited `dispatch(job)` ends. `receipt` is the error `on_result` raises, if any. */
  datatype Completion =
    | Result(values: map<string, string>, receipt: Option<string>)
    | Failure(kind: string)
    | Cancelled

  datatype Event =
    | LoopHead(w: nat, admissionError: Option<string>)
    | Resume(w: nat, completion: Completion)
    | KillAtLoopHead(w: nat)
    | Tick(now: int)
    | ExternalStop
    | CancelController
    | ControllerExits

  const NOT_RUN := "not_run"
  const CANCELLED := "dispatch_cancelled"

  function InfrastructureFailure(kind: string): string { "dispatch_infrastructure_failure:" + kind }

  predicate Verified(outcome: string) {
    outcome == "verified_success" || outcome == "verified_failure"
  }

  function NotRunYet(ids: seq<string>): (m: map<string, string>)
    ensures m.Keys == set rid | rid in ids
    ensures forall rid :: rid in m ==> m[rid] == NOT_RUN
  {
    map rid | rid in ids :: NOT_RUN
  }

  function InitialState(ids: seq<string>, concurrency: nat, now: int): State {
    var count := if concurrency <= |ids| then concurrency else |ids|;
    State(ids, NotRunYet(ids), false, seq(count, _ => AtLoopHead), Awaiting, now, [], 0, false)
  }

  // ----- steps

  predicate Enabled(s: State, e: Event) {
    match e
    case LoopHead(w, _) => w < |s.workers| && s.workers[w].AtLoopHead?
    case Resume(w, _) => w < |s.workers| && s.workers[w].Running?
    case KillAtLoopHead(w) => w < |s.workers| && s.workers[w].AtLoopHead?
    case Tick(now) => s.clock <= now
    case ExternalStop => true
    case CancelController => !s.Exited()
    case ControllerExits => !s.Exited() && forall w :: 0 <= w < |s.workers| ==> s.workers[w].Finished?
  }

  /** What the worker records once its dispatch has ended, and whether it sets `stopping`. */
  function Recorded(rid: string, c: Completion): (string, bool) {
    match c
    case Cancelled => (CANCELLED, true)
    case Failure(kind) => (InfrastructureFailure(kind), true)
    case Result(values, receipt) =>
      if values.Keys != {rid} then (InfrastructureFailure("ValueError"), true)
      else if receipt.Some? then (InfrastructureFailure(receipt.value), true)
      else (values[rid], !Verified(values[rid]))
  }

  function Step(s: State, deadline: int, e: Event): State
    requires Enabled(s, e)
  {
    match e
    case LoopHead(w, admissionError) =>
      if s.stopping || s.clock >= deadline || s.queue == [] then
        s.(workers := s.workers[w := Finished])
      else
        var rid := s.queue[0];
        var taken := s.(queue := s.queue[1..], dispatched := s.dispatched + [rid]);
        match admissionError {
          case None => taken.(workers := s.workers[w := Running(rid)])
          case Some(kind) =>
            taken.(stopping := true, outcomes := s.outcomes[rid := InfrastructureFailure(kind)])
        }
    case Resume(w, completion) =>
      var rid := s.workers[w].rid;
      var (outcome, stops) := Recorded(rid, completion);
      s.(outcomes := s.outcomes[rid := outcome],
         stopping := s.stopping || stops,
         workers := s.workers[w := if completion.Cancelled? then Finished else AtLoopHead])
    case KillAtLoopHead(w) => s.(workers := s.workers[w := Finished], killed := true)
    case Tick(now) => s.(clock := now)
    case ExternalStop => s.(stopping := true)
    case CancelController =>
      s.(stopping := s.stopping || s.controller.Awaiting?,
         controller := if s.controller.Awaiting? then Draining else Raised,
         cancellations := s.cancellations + 1)
    case ControllerExits =>
      s.(controller := if s.controller.Awaiting? then Returned else Raised)
  }

  // ----- the coroutines over their shared mutable state

  datatype StartError = InvalidBounds | DuplicateRequest

  class DrainDispatch {
    const deadline: int
    var queue: seq<string>
    var outcomes: map<string, string>
    var stopping: bool
    var workers: seq<Worker>
    var controller: Controller
    var clock: int
    ghost var dispatched: seq<string>
    ghost var cancellations: nat
    ghost var killed: bool

    ghost function Abstract(): State
      reads this
    {
      State(queue, outcomes, stopping, workers, controller, clock, dispatched, cancellations, killed)
    }

    constructor (ids: seq<string>, concurrency: nat, dispatchDeadline: int, now: int)
      ensures deadline == dispatchDeadline
      ensures Abstract() == InitialState(ids, concurrency, now)
    {
      deadline := dispatchDeadline;
      queue := ids;
      outcomes := NotRunYet(ids);
      stopping := false;
      workers := seq(if concurrency <= |ids| then concurrency else |ids|, _ => AtLoopHead);
      controller := Awaiting;
      clock := now;
      dispatched := [];
      cancellations := 0;
      killed := false;
    }

    /** The loop test, `get_nowait` and the admission check, up to the await of `dispatch`. */
    method WorkerLoopHead(w: nat, admissionError: Option<string>)
      requires Enabled(Abstract(), LoopHead(w, admissionError))
      modifies this
      ensures Abstract() == Step(old(Abstract()), deadline, LoopHead(w, admissionError))
    {
      if stopping || clock >= deadline || queue == [] {
        workers := workers[w := Finished];
        return;
      }
      var rid := queue[0];
      queue := queue[1..];
      dispatched := dispatched + [rid];
      if admissionError.Some? {
        stopping := true;
        outcomes := outcomes[rid := InfrastructureFailure(admissionError.value)];
      } else {
        workers := workers[w := Running(rid)];
      }
    }

    /** From the end of the await of `dispatch` back to the loop test. */
    method WorkerResumes(w: nat, completion: Completion)
      requires Enabled(Abstract(), Resume(w, completion))
      modifies this
      ensures Abstract() == Step(old(Abstract()), deadline, Resume(w, completion))
    {
      var rid := workers[w].rid;
      workers := workers[w := AtLoopHead];
      match completion
      case Cancelled =>
        stopping := true;
        outcomes := outcomes[rid := CANCELLED];
        workers := workers[w := Finished];
      case Failure(kind) =>
        stopping := true;
        outcomes := outcomes[rid := InfrastructureFailure(kind)];
      case Result(values, receipt) =>
        if values.Keys != {rid} {
          stopping := true;
          outcomes := outcomes[rid := InfrastructureFailure("ValueError")];
        } else {
          outcomes := outcomes[rid := values[rid]];
          if !Verified(values[rid]) { stopping := true; }
          if receipt.Some? {
            stopping := true;
            outcomes := outcomes[rid := InfrastructureFailure(receipt.value)];
          }
        }
    }

    /** The controller is cancelled in one of its two awaits. */
    method ControllerCancelled()
      requires Enabled(Abstract(), CancelController)
      modifies this
      ensures Abstract() == Step(old(Abstract()), deadline, CancelController)
    {
      if controller == Awaiting {
        stopping := true;
        controller := Draining;
      } else {
        controller := Raised;
      }
      cancellations := cancellations + 1;
    }

    /** All workers have finished, so the await ends. */
    method ControllerResumes() returns (result: Option<map<string, string>>)
      requires Enabled(Abstract(), ControllerExits)
      modifies this
      ensures Abstract() == Step(old(Abstract()), deadline, ControllerExits)
      ensures result == if old(controller) == Awaiting then Some(outcomes) else None
    {
      if controller == Awaiting {
        controller := Returned;
        return Some(outcomes);
      }
      controller := Raised;
      return None;
    }
  }

  /** The checks before any worker is created. */
  method Start(ids: seq<string>, concurrency: int, aware: bool, deadline: int, now: int)
      returns (r: Result<DrainDispatch, StartError>)
    ensures r == Err(InvalidBounds) <==> concurrency < 1 || !aware
    ensures r == Err(DuplicateRequest) <==> concurrency >= 1 && aware && !NoRepeats(ids)
    ensures r.Ok? ==>
      && fresh(r.value) && r.value.deadline == deadline
      && r.value.Abstract() == InitialState(ids, concurrency, now)
  {
    if concurrency < 1 || !aware { return Err(InvalidBounds); }
    if exists i, j :: 0 <= i < j < |ids| && ids[i] == ids[j] { return Err(DuplicateRequest); }
    var d := new DrainDispatch(ids, concurrency, deadline, now);
    return Ok(d);
  }
}
