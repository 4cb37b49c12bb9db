/** Run records, the event log and the locked sections that touch them (platform/workflow/run.go and
    the closures handed to RunStore.Update in platform/workflow/service.go).

    Each method of `Run` that changes it is one critical section under the store lock.  `Interfere`
    stands for everything other goroutines may do between two of the runner's sections: any number of
    CancelRun calls at any stage, and the run's deadline. */
module Runs {
  import opened Wrappers
  import opened Templates

  // ---------------------------------------------------------------- records

  datatype RunStatus = RunQueued | RunRunning | RunCancelling | RunCompleted | RunFailed | RunCancelled | RunTimedOut

  predicate Terminal(s: RunStatus) {
    s.RunCompleted? || s.RunFailed? || s.RunCancelled? || s.RunTimedOut?
  }

  datatype StepStatus =
    StepPending | StepRunning | StepRetrying | StepCompleted | StepFailed | StepSkipped | StepCancelled | StepTimedOut

  /** Error codes of a run or step; `NoCode` is the empty string. */
  datatype Code =
    NoCode | TemplateRender | BudgetExceeded | NoEligible | StepTimeout | InvalidResponse | InputValidation | Cancelled

  /** Error codes of the backend contract. */
  datatype BackendCode =
    ErrInvalidRequest | ErrCapacityExhausted | ErrModelNotAvailable | ErrInferenceTimeout | ErrPlatformNotReady
    | ErrInternalContract | ErrOther(name: string)

  datatype RouteDecision = RouteDecision(
    attempt: nat, poolID: string, deploymentID: string, routeType: string, fallbackUsed: bool,
    errorCode: Option<BackendCode>)

  datatype StepState = StepState(
    stepID: string, status: StepStatus, attempts: nat, decisions: seq<RouteDecision>,
    inputTokens: int, outputTokens: int, errorCode: Code)

  /** The human-readable message that goes with a failure. */
  datatype Reason =
    BudgetExhausted | RenderFailed(error: RenderError) | RenderedTooLarge | Upstream(message: string)
    | Aborted | TimedOut | NoEligibleRuntime | NoReason

  datatype EventKind =
    | WorkflowQueued | WorkflowStarted | WorkflowCancelling
    | StepStartedEvent(stepID: string)
    | StepRetryingEvent(stepID: string, attempt: nat)
    | FallbackSelected(stepID: string, poolID: string)
    | StepFailedEvent(stepID: string, code: Code)
    | StepCompletedEvent(stepID: string, attempts: nat, inputTokens: int, outputTokens: int)
    | WorkflowCompleted(inputTokens: int, outputTokens: int)
    | WorkflowFailed(code: Code, reason: Reason)
    | WorkflowCancelled(code: Code)

  datatype Event = Event(seqNo: int, kind: EventKind)

  datatype Ctx = Live | Canceled | DeadlineExceeded

  predicate IsFinal(k: EventKind) {
    k.WorkflowCompleted? || k.WorkflowFailed? || k.WorkflowCancelled?
  }

  // ---------------------------------------------------------------- shapes

  /** Completed steps, then possibly one step in `mid`, then only steps in status `tail`. */
  ghost predicate Phased(steps: seq<StepState>, k: nat, mid: set<StepStatus>, tail: StepStatus) {
    && k <= |steps|
    && (forall j | 0 <= j < k :: steps[j].status == StepCompleted)
    && (k < |steps| ==> steps[k].status in mid + {tail})
    && (forall j | k < j < |steps| :: steps[j].status == tail)
  }

  ghost predicate InProgress(steps: seq<StepState>, k: nat) {
    Phased(steps, k, {StepRunning, StepRetrying, StepFailed, StepTimedOut}, StepPending)
  }

  ghost predicate Finished(steps: seq<StepState>, k: nat) {
    Phased(steps, k, {StepFailed, StepTimedOut, StepCancelled}, StepSkipped)
  }

  function SumInput(steps: seq<StepState>): int {
    if steps == [] then 0 else SumInput(steps[..|steps| - 1]) + steps[|steps| - 1].inputTokens
  }

  function SumOutput(steps: seq<StepState>): int {
    if steps == [] then 0 else SumOutput(steps[..|steps| - 1]) + steps[|steps| - 1].outputTokens
  }

  ghost predicate Numbered(events: seq<Event>) {
    forall k | 0 <= k < |events| :: events[k].seqNo == k + 1
  }

  /** The events numbered above `lastSeq`. */
  function After(events: seq<Event>, lastSeq: int): seq<Event> {
    if lastSeq < 0 then events else if lastSeq >= |events| then [] else events[lastSeq..]
  }

  /** The events emitted by the runner, in order: all but the announcements of CancelRun. */
  ghost function Own(events: seq<Event>): seq<EventKind> {
    if events == [] then [] else
    var kind := events[|events| - 1].kind;
    Own(events[..|events| - 1]) + (if kind.WorkflowCancelling? then [] else [kind])
  }

  ghost predicate NoneFinal(own: seq<EventKind>) {
    forall k <- own :: !IsFinal(k)
  }

  /** The final event announces this status. */
  predicate Fits(event: EventKind, status: RunStatus) {
    match event
    case WorkflowCompleted(_, _) => status == RunCompleted
    case WorkflowFailed(_, _) => status in {RunFailed, RunTimedOut}
    case WorkflowCancelled(_) => status == RunCancelled
    case _ => false
  }

  /** Exactly one final event, the last thing the runner says, and it agrees with the status. */
  ghost predicate OneFinal(own: seq<EventKind>, status: RunStatus) {
    own != [] && NoneFinal(own[..|own| - 1]) && Fits(own[|own| - 1], status)
  }

  function Skipping(st: StepState): StepState {
    if st.status == StepPending then st.(status := StepSkipped) else st
  }

  function Interrupting(st: StepState): StepState {
    match st.status
    case StepPending => st.(status := StepSkipped)
    case StepRunning => st.(status := StepCancelled)
    case StepRetrying => st.(status := StepCancelled)
    case _ => st
  }

  /** The step after one more recorded attempt; only a successful one is billed. */
  function WithAttempt(st: StepState, attempt: nat, decision: RouteDecision, ok: bool,
                       usageIn: Option<int>, usageOut: Option<int>): StepState
  {
    st.(attempts := attempt,
        decisions := st.decisions + [decision],
        inputTokens := st.inputTokens + (if ok && usageIn.Some? then usageIn.value else 0),
        outputTokens := st.outputTokens + (if ok && usageOut.Some? then usageOut.value else 0))
  }

  /** The fields of a run that outlive its execution. */
  datatype Snapshot = Snapshot(
    status: RunStatus, errorCode: Code, steps: seq<StepState>, inputTokens: int, outputTokens: int, output: string)

  // ---------------------------------------------------------------- what other goroutines see

  type RunID = string

  /** How far StartRun and the goroutine it spawns have come. */
  datatype Stage =
    | Admitted           // slot taken, run not yet created
    | Abandoned          // registered, but its first write failed: slot returned, never run
    | Created            // QUEUED, registered in the store
    | Spawned            // workflow.queued emitted, goroutine running
    | Started            // RUNNING written, cancel function published
    | Working            // workflow.started emitted
    | Decided            // terminal status written
    | FinalEmitted       // final event emitted
    | Closed             // done closed
    | Released           // slot returned

  predicate Over(stage: Stage) {
    stage in {Decided, FinalEmitted, Closed, Released}
  }

  predicate FinalSaid(stage: Stage) {
    stage in {FinalEmitted, Closed, Released}
  }

  datatype Outcome = Completes | Fails | IsCancelled | TimesOut

  function StatusOf(o: Outcome): RunStatus {
    match o
    case Completes => RunCompleted
    case Fails => RunFailed
    case IsCancelled => RunCancelled
    case TimesOut => RunTimedOut
  }

  datatype Proc = Proc(
    stage: Stage, status: RunStatus, log: seq<EventKind>, closes: nat, signalling: nat, announcing: nat)

  datatype ProcStep =
    | Admit(id: RunID) | CreateFails(id: RunID) | Create(id: RunID) | AnnounceQueued(id: RunID)
    | Begin(id: RunID) | AnnounceStarted(id: RunID) | Work(id: RunID, event: EventKind)
    | Decide(id: RunID, outcome: Outcome) | AnnounceFinal(id: RunID, event: EventKind)
    | Close(id: RunID) | Release(id: RunID)
    | RequestCancel(id: RunID) | SignalCancel(id: RunID) | AnnounceCancel(id: RunID)

  /** A step of the run's own goroutine or of CancelRun; one that is not enabled changes nothing. */
  function Advance(p: Proc, step: ProcStep): Proc {
    match step
    case Create(_) => if p.stage == Admitted then p.(stage := Created, status := RunQueued) else p
    case AnnounceQueued(_) => if p.stage == Created then p.(stage := Spawned, log := p.log + [WorkflowQueued]) else p
    case Begin(_) => if p.stage == Spawned then p.(stage := Started, status := RunRunning) else p
    case AnnounceStarted(_) => if p.stage == Started then p.(stage := Working, log := p.log + [WorkflowStarted]) else p
    case Work(_, event) => if p.stage == Working && !IsFinal(event) then p.(log := p.log + [event]) else p
    case Decide(_, outcome) => if p.stage == Working then p.(stage := Decided, status := StatusOf(outcome)) else p
    case AnnounceFinal(_, event) =>
      if p.stage == Decided && Fits(event, p.status) then p.(stage := FinalEmitted, log := p.log + [event]) else p
    case Close(_) => if p.stage == FinalEmitted then p.(stage := Closed, closes := p.closes + 1) else p
    case Release(_) => if p.stage == Closed then p.(stage := Released) else p
    // CancelRun: the store knows the run once it is created; the cancel function exists from Begin on
    case RequestCancel(_) =>
      if p.stage == Admitted || Terminal(p.status) then p
      else if p.stage in {Abandoned, Created, Spawned} then p.(status := RunCancelling, announcing := p.announcing + 1)
      else p.(status := RunCancelling, signalling := p.signalling + 1)
    case SignalCancel(_) =>
      if p.signalling > 0 then p.(signalling := p.signalling - 1, announcing := p.announcing + 1) else p
    case AnnounceCancel(_) =>
      if p.announcing > 0 then p.(announcing := p.announcing - 1, log := p.log + [WorkflowCancelling]) else p
    case _ => p
  }

  function Follow(p: Proc, steps: seq<ProcStep>): Proc {
    if steps == [] then p else Advance(Follow(p, steps[..|steps| - 1]), steps[|steps| - 1])
  }

  /** Steps of one run, or of CancelRun calls for it, after its start. */
  predicate StepsOf(id: RunID, steps: seq<ProcStep>) {
    forall step <- steps :: step.id == id && !step.Admit? && !step.CreateFails?
  }

  /** A run that StartRun has handed to its goroutine. */
  const SPAWNED := Proc(Spawned, RunQueued, [WorkflowQueued], 0, 0, 0)

  function Kinds(events: seq<Event>): seq<EventKind> {
    seq(|events|, i requires 0 <= i < |events| => events[i].kind)
  }

  /** The persisted part of a run; `code` is None for "interrupted", which only a restart writes. */
  datatype Record = Record(status: RunStatus, code: Option<Code>, steps: seq<StepState>)

  /** What a locked section ever hands to the disk: the steps fit the status. */
  ghost predicate Persistable(r: Record) {
    exists k: nat :: ShapedBy(r, k)
  }

  ghost predicate ShapedBy(r: Record, k: nat) {
    if Terminal(r.status) then Finished(r.steps, k) else InProgress(r.steps, k)
  }

  lemma Shapes(r: Record, k: nat)
    ensures ShapedBy(r, k) ==> Persistable(r)
  {
  }

  /** What other goroutines see of run `id` came about by the steps taken since it was spawned, and every record
      handed to the disk has a shape that a restart can count on. */
  ghost predicate Explains(id: RunID, seen: Proc, taken: seq<ProcStep>, trail: seq<Record>) {
    seen == Follow(SPAWNED, taken) && StepsOf(id, taken) && forall r <- trail :: Persistable(r)
  }

  lemma OneMoreStep(id: RunID, seen: Proc, taken: seq<ProcStep>, trail: seq<Record>, step: ProcStep)
    requires StepsOf(id, [step])
    ensures Explains(id, seen, taken, trail) ==> Explains(id, Advance(seen, step), taken + [step], trail)
  {
    hide Advance, Persistable;
    assert (taken + [step])[..|taken + [step]| - 1] == taken;
  }

  lemma OneMoreRecord(id: RunID, seen: Proc, taken: seq<ProcStep>, trail: seq<Record>, r: Record)
    ensures Explains(id, seen, taken, trail) && Persistable(r) ==> Explains(id, seen, taken, trail + [r])
  {
    hide Persistable;
  }

  // ---------------------------------------------------------------- the run

  class Run {
    const id: string
    // persisted
    var status: RunStatus
    var errorCode: Code
    var steps: seq<StepState>
    var inputTokens: int
    var outputTokens: int
    // in memory only
    var output: string
    var lastSeq: int
    var events: seq<Event>
    var doneClosed: nat       // how often `done` was closed; a second close would panic
    var cancelFn: bool        // whether CancelRun finds a cancel function to call
    var ctx: Ctx              // the context that function cancels
    var slotsReturned: nat    // receives from the semaphore on behalf of this run
    // CancelRun calls past their locked section: still to call `cancelFn`, still to announce
    var signalling: nat
    var announcing: nat
    ghost var stage: Stage
    ghost var taken: seq<ProcStep>   // what has happened to it since it was spawned, oldest first
    ghost var trail: seq<Record>     // the records handed to the disk, oldest first

    /** StartRun's record: everything pending, one slot held, `workflow.queued` announced. */
    constructor (id: string, stepIDs: seq<string>)
      ensures this.id == id && status == RunQueued && errorCode == NoCode && output == ""
      ensures |steps| == |stepIDs|
      ensures forall j | 0 <= j < |steps| :: steps[j] == StepState(stepIDs[j], StepPending, 0, [], 0, 0, NoCode)
      ensures inputTokens == 0 && outputTokens == 0 && doneClosed == 0 && slotsReturned == 0
      ensures !cancelFn && ctx == Live && signalling == 0 && announcing == 0
      ensures events == [Event(1, WorkflowQueued)] && Observable(0) && stage == Spawned
      ensures taken == [] && trail == [Persisted()]
    {
      this.id := id;
      status, errorCode, output := RunQueued, NoCode, "";
      steps := seq(|stepIDs|, j requires 0 <= j < |stepIDs| => StepState(stepIDs[j], StepPending, 0, [], 0, 0, NoCode));
      inputTokens, outputTokens, doneClosed, slotsReturned := 0, 0, 0, 0;
      cancelFn, ctx, signalling, announcing := false, Live, 0, 0;
      events, lastSeq, stage := [Event(1, WorkflowQueued)], 1, Spawned;
      taken, trail := [], [Record(RunQueued, Some(NoCode), steps)];
      new;
      assert ShapedBy(Persisted(), 0);
    }

    function Persisted(): Record
      reads this
    {
      Record(status, Some(errorCode), steps)
    }

    ghost function Seen(): Proc
      reads this
    {
      Proc(stage, status, Kinds(events), doneClosed, signalling, announcing)
    }

    ghost predicate Traced()
      reads this
    {
      Explains(id, Seen(), taken, trail)
    }

    /** The run shows a trace of a CancelRun call. */
    predicate Cancelling()
      reads this
    {
      status in {RunCancelling, RunCancelled} || signalling > 0 || announcing > 0 || ctx == Canceled
    }

    /** What every other goroutine may rely on whenever the store lock is free; the last record handed to the
        disk is the run as it is. */
    ghost predicate Observable(k: nat)
      reads this
    {
      && Numbered(events) && lastSeq == |events|
      && (if Terminal(status) then Finished(steps, k) else InProgress(steps, k))
      && (if FinalSaid(stage) then OneFinal(Own(events), status) else NoneFinal(Own(events)))
      && doneClosed <= 1
      && (!cancelFn ==> signalling == 0)
      && stage !in {Admitted, Abandoned, Created} && (cancelFn <==> stage != Spawned)
      && (Terminal(status) <==> Over(stage))
      && (doneClosed == 1 <==> stage in {Closed, Released})
      && Traced() && trail != [] && trail[|trail| - 1] == Persisted()
      && (Cancelling() ==> ProcStep.RequestCancel(id) in taken)
    }

    /** A run that is not terminal has not been called finished by anyone. */
    lemma Quiet(k: nat)
      requires Observable(k) && !Terminal(status)
      ensures doneClosed == 0 && NoneFinal(Own(events))
    {
    }

    /** Whoever finds the run being cancelled finds that CancelRun was called. */
    lemma CancelWasAsked(k: nat)
      requires Observable(k) && Cancelling()
      ensures ProcStep.RequestCancel(id) in taken
    {
    }

    lemma ClosedOnce(k: nat)
      requires Observable(k) && doneClosed == 1
      ensures Terminal(status) && Finished(steps, k) && OneFinal(Own(events), status)
    {
    }

    ghost function Snap(): Snapshot
      reads this
    {
      Snapshot(status, errorCode, steps, inputTokens, outputTokens, output)
    }

    method Emit(kind: EventKind)
      requires Numbered(events) && lastSeq == |events|
      modifies `lastSeq, `events
      ensures Numbered(events) && lastSeq == |events|
      ensures events == old(events) + [Event(|old(events)| + 1, kind)]
      ensures Kinds(events) == Kinds(old(events)) + [kind]
      ensures Own(events) == Own(old(events)) + (if kind.WorkflowCancelling? then [] else [kind])
    {
      lastSeq := lastSeq + 1;
      events := events + [Event(lastSeq, kind)];
      assert events[..|events| - 1] == old(events);
    }

    /** Subscribe's replay: the buffered events after `lastSeq`. */
    method Replay(lastSeq: int) returns (replay: seq<Event>)
      requires Numbered(events)
      ensures replay == After(events, lastSeq)
      ensures forall e :: e in replay <==> e in events && e.seqNo > lastSeq
    {
      replay := [];
      for i := 0 to |events|
        invariant replay == if i <= lastSeq then [] else events[if lastSeq < 0 then 0 else lastSeq..i]
      {
        if events[i].seqNo > lastSeq {
          replay := replay + [events[i]];
        }
      }
    }

    /** Notes a step that wrote the record. */
    ghost method Trace(before: Proc, step: ProcStep)
      requires StepsOf(id, [step]) && Seen() == Advance(before, step)
      modifies `taken, `trail
      ensures taken == old(taken) + [step] && trail == old(trail) + [Persisted()]
      ensures Explains(id, before, old(taken), old(trail)) && Persistable(Persisted()) ==> Traced()
    {
      hide Explains, Persistable, Advance, Kinds;
      OneMoreStep(id, before, taken, trail, step);
      OneMoreRecord(id, Seen(), taken + [step], trail, Persisted());
      taken, trail := taken + [step], trail + [Persisted()];
    }

    // -------------------------------------------------------------- CancelRun, section by section

    /** The locked section of CancelRun. */
    method RequestCancel(ghost k: nat) returns (already: bool)
      requires Observable(k)
      modifies `status, `signalling, `announcing, `taken, `trail
      ensures Observable(k) && taken == old(taken) + [ProcStep.RequestCancel(id)] && trail == old(trail) + [Persisted()]
      ensures already == Terminal(old(status))
      ensures already ==> status == old(status) && signalling == old(signalling) && announcing == old(announcing)
      ensures !already ==> status == RunCancelling
      ensures !already ==> signalling == old(signalling) + (if cancelFn then 1 else 0)
      ensures !already ==> announcing == old(announcing) + (if cancelFn then 0 else 1)
    {
      hide Explains, Persistable;
      hide Numbered, Own, OneFinal, NoneFinal, Finished, InProgress;
      ghost var before := Seen();
      already := Terminal(status);
      if !already {
        status := RunCancelling;
        if cancelFn {
          signalling := signalling + 1;
        } else {
          announcing := announcing + 1;
        }
      }
      assert ShapedBy(Persisted(), k) && Persistable(Persisted()) by { Shapes(Persisted(), k); }
      Trace(before, ProcStep.RequestCancel(id));
    }

    /** CancelRun calls the cancel function it captured; only the first cause of a context counts. */
    method SignalCancel(ghost k: nat)
      requires Observable(k) && signalling > 0
      modifies `ctx, `signalling, `announcing, `taken
      ensures Observable(k) && taken == old(taken) + [ProcStep.SignalCancel(id)]
      ensures ctx == if old(ctx) == Live then Canceled else old(ctx)
      ensures signalling == old(signalling) - 1 && announcing == old(announcing) + 1
    {
      hide Explains, Persistable;
      hide Numbered, Own, OneFinal, NoneFinal, Finished, InProgress;
      if ctx == Live {
        ctx := Canceled;
      }
      signalling, announcing := signalling - 1, announcing + 1;
      OneMoreStep(id, old(Seen()), taken, trail, ProcStep.SignalCancel(id));
      taken := taken + [ProcStep.SignalCancel(id)];
    }

    method AnnounceCancel(ghost k: nat)
      requires Observable(k) && announcing > 0
      modifies `announcing, `lastSeq, `events, `taken
      ensures Observable(k) && taken == old(taken) + [ProcStep.AnnounceCancel(id)]
      ensures announcing == old(announcing) - 1
      ensures events == old(events) + [Event(|old(events)| + 1, WorkflowCancelling)]
      ensures Own(events) == Own(old(events))
    {
      hide Explains, Persistable;
      hide Own, OneFinal, NoneFinal, Finished, InProgress;
      announcing := announcing - 1;
      Emit(WorkflowCancelling);
      OneMoreStep(id, old(Seen()), taken, trail, ProcStep.AnnounceCancel(id));
      assert Own(events) == Own(old(events));
      taken := taken + [ProcStep.AnnounceCancel(id)];
    }

    method ExpireDeadline(ghost k: nat)
      requires Observable(k)
      modifies `ctx
      ensures Observable(k)
      ensures ctx == if old(ctx) == Live then DeadlineExceeded else old(ctx)
    {
      if ctx == Live {
        ctx := DeadlineExceeded;
      }
    }

    /** What other goroutines can do to the run: ask for cancellation while it is not terminal, and end
        its context, once. */
    twostate predicate Interfered()
      reads this
    {
      && (status == old(status) || (!Terminal(old(status)) && status == RunCancelling))
      && (old(ctx) != Live ==> ctx == old(ctx)) && old(taken) <= taken
    }

    /** Any number of steps of other goroutines, in any order. */
    method Interfere(ghost k: nat)
      requires Observable(k)
      modifies `status, `ctx, `signalling, `announcing, `lastSeq, `events, `taken, `trail
      ensures Observable(k) && Interfered() && Own(events) == Own(old(events))
    {
      hide Observable, Own;
      var more: nat := *;
      while more > 0
        invariant Observable(k) && Interfered() && Own(events) == Own(old(events))
      {
        var choice: int := *;
        if choice == 0 {
          var _ := RequestCancel(k);
        } else if choice == 1 && signalling > 0 {
          SignalCancel(k);
        } else if choice == 2 && announcing > 0 {
          AnnounceCancel(k);
        } else {
          ExpireDeadline(k);
        }
        more := more - 1;
      }
    }

    // -------------------------------------------------------------- the runner's sections, others in between

    /** Announces that the run has started. */
    method SayStarted(ghost k: nat)
      requires Observable(k) && doneClosed == 0 && !Terminal(status) && stage == Started
      modifies `status, `ctx, `signalling, `announcing, `lastSeq, `events, `taken, `trail, `stage, `taken, `trail
      ensures Observable(k) && Interfered() && Own(events) == Own(old(events)) + [WorkflowStarted]
      ensures stage == Working
    {
      hide Observable, Own;
      AnnounceStart(k);
      Interfere(k);
    }

    method AnnounceStart(ghost k: nat)
      requires Observable(k) && stage == Started
      modifies `lastSeq, `events, `stage, `taken
      ensures Observable(k) && stage == Working && taken == old(taken) + [ProcStep.AnnounceStarted(id)]
      ensures events == old(events) + [Event(|old(events)| + 1, WorkflowStarted)]
      ensures Own(events) == Own(old(events)) + [WorkflowStarted]
    {
      hide Explains, Persistable;
      hide Own, OneFinal, Finished, InProgress;
      Emit(WorkflowStarted);
      stage := Working;
      OneMoreStep(id, old(Seen()), taken, trail, ProcStep.AnnounceStarted(id));
      taken := taken + [ProcStep.AnnounceStarted(id)];
    }

    /** Emits an event that is not a final one. */
    method Say(kind: EventKind, ghost k: nat)
      requires Observable(k) && !IsFinal(kind) && !kind.WorkflowCancelling? && doneClosed == 0 && !Terminal(status)
      requires stage == Working
      modifies `status, `ctx, `signalling, `announcing, `lastSeq, `events, `taken, `trail
      ensures Observable(k) && Interfered() && Own(events) == Own(old(events)) + [kind]
    {
      hide Observable, Own;
      Announce(kind, k);
      Interfere(k);
    }

    method Announce(kind: EventKind, ghost k: nat)
      requires Observable(k) && !IsFinal(kind) && stage == Working
      modifies `lastSeq, `events, `taken
      ensures Observable(k) && taken == old(taken) + [ProcStep.Work(id, kind)]
      ensures events == old(events) + [Event(|old(events)| + 1, kind)]
      ensures Own(events) == Own(old(events)) + (if kind.WorkflowCancelling? then [] else [kind])
    {
      hide Explains, Persistable;
      hide Own, OneFinal, Finished, InProgress;
      Emit(kind);
      OneMoreStep(id, old(Seen()), taken, trail, ProcStep.Work(id, kind));
      taken := taken + [ProcStep.Work(id, kind)];
    }

    /** Marks the step at the cursor as active again. */
    method MarkActive(i: nat, s: StepStatus)
      requires Observable(i) && !Terminal(status) && i < |steps| && s in {StepRunning, StepRetrying}
      modifies `status, `ctx, `signalling, `announcing, `lastSeq, `events, `taken, `trail, `steps
      ensures Observable(i) && Interfered() && Own(events) == Own(old(events))
      ensures steps == old(steps)[i := old(steps)[i].(status := s)]
    {
      SetStepStatus(i, s);
      Interfere(i);
    }

    // -------------------------------------------------------------- the runner's locked sections

    /** Overwrites whatever status it finds, a cancellation request included. */
    method Start(ghost k: nat)
      requires Observable(k) && !Terminal(status) && stage == Spawned
      modifies `status, `cancelFn, `stage, `taken, `trail
      ensures status == RunRunning && cancelFn && stage == Started && Observable(k)
      ensures taken == old(taken) + [ProcStep.Begin(id)] && trail == old(trail) + [Persisted()]
    {
      hide Explains, Persistable;
      hide Numbered, Own, OneFinal, NoneFinal, Finished, InProgress;
      ghost var before := Seen();
      status, cancelFn, stage := RunRunning, true, Started;
      assert ShapedBy(Persisted(), k) && Persistable(Persisted()) by { Shapes(Persisted(), k); }
      Trace(before, ProcStep.Begin(id));
    }

    method SetStepStatus(i: nat, s: StepStatus)
      requires i < |steps|
      modifies `steps, `trail
      ensures old(Observable(i)) && !Terminal(status) && s in {StepRunning, StepRetrying} ==> Observable(i)
      ensures old(Observable(i)) && !Terminal(status) && s == StepCompleted ==> Observable(i + 1)
      ensures steps == old(steps)[i := old(steps)[i].(status := s)]
      ensures trail == old(trail) + [Persisted()] && Seen() == old(Seen())
    {
      hide Explains, Persistable;
      steps := steps[i := steps[i].(status := s)];
      Shapes(Persisted(), i);
      Shapes(Persisted(), i + 1);
      OneMoreRecord(id, Seen(), taken, trail, Persisted());
      trail := trail + [Persisted()];
    }

    method RecordAttempt(i: nat, attempt: nat, decision: RouteDecision, ok: bool, usageIn: Option<int>,
                         usageOut: Option<int>)
      requires i < |steps|
      modifies `steps, `trail
      ensures old(Observable(i)) ==> Observable(i)
      ensures steps == old(steps)[i := WithAttempt(old(steps)[i], attempt, decision, ok, usageIn, usageOut)]
      ensures trail == old(trail) + [Persisted()] && Seen() == old(Seen())
    {
      hide Explains, Persistable;
      var st := steps[i];
      st := st.(attempts := attempt, decisions := st.decisions + [decision]);
      if ok {
        if usageIn.Some? {
          st := st.(inputTokens := st.inputTokens + usageIn.value);
        }
        if usageOut.Some? {
          st := st.(outputTokens := st.outputTokens + usageOut.value);
        }
      }
      steps := steps[i := st];
      Shapes(Persisted(), i);
      OneMoreRecord(id, Seen(), taken, trail, Persisted());
      trail := trail + [Persisted()];
    }

    method FailStep(i: nat, code: Code)
      requires i < |steps|
      modifies `steps, `trail
      ensures old(Observable(i)) && !Terminal(status) ==> Observable(i)
      ensures steps == old(steps)[i := old(steps)[i].(
        status := if code == StepTimeout then StepTimedOut else StepFailed, errorCode := code)]
      ensures trail == old(trail) + [Persisted()] && Seen() == old(Seen())
    {
      hide Explains, Persistable;
      var s := StepFailed;
      if code == StepTimeout {
        s := StepTimedOut;
      }
      steps := steps[i := steps[i].(status := s, errorCode := code)];
      Shapes(Persisted(), i);
      OneMoreRecord(id, Seen(), taken, trail, Persisted());
      trail := trail + [Persisted()];
    }

    method Complete(totalIn: int, totalOut: int, text: string)
      requires stage == Working
      modifies `status, `inputTokens, `outputTokens, `output, `stage, `taken, `trail
      ensures stage == Decided && status == RunCompleted
      ensures inputTokens == totalIn && outputTokens == totalOut && output == text
      ensures taken == old(taken) + [ProcStep.Decide(id, Completes)] && trail == old(trail) + [Persisted()]
      ensures old(Traced()) && Persistable(Persisted()) ==> Traced()
    {
      hide Explains, Persistable;
      ghost var before := Seen();
      status, inputTokens, outputTokens, output := RunCompleted, totalIn, totalOut, text;
      stage := Decided;
      Trace(before, ProcStep.Decide(id, Completes));
    }

    method SumUsage() returns (sumIn: int, sumOut: int)
      ensures sumIn == SumInput(steps) && sumOut == SumOutput(steps)
    {
      sumIn, sumOut := 0, 0;
      for j := 0 to |steps|
        invariant sumIn == SumInput(steps[..j]) && sumOut == SumOutput(steps[..j])
      {
        assert steps[..j + 1][..j] == steps[..j];
        sumIn, sumOut := sumIn + steps[j].inputTokens, sumOut + steps[j].outputTokens;
      }
      assert steps[..|steps|] == steps;
    }

    method SkipPending(nextStep: nat)
      requires nextStep <= |steps|
      modifies `steps
      ensures |steps| == |old(steps)|
      ensures forall j | 0 <= j < |steps| :: steps[j] == if j < nextStep then old(steps)[j] else Skipping(old(steps)[j])
    {
      for j := nextStep to |steps|
        invariant |steps| == |old(steps)|
        invariant forall k | 0 <= k < |steps| ::
          steps[k] == if nextStep <= k < j then Skipping(old(steps)[k]) else old(steps)[k]
      {
        if steps[j].status == StepPending {
          steps := steps[j := steps[j].(status := StepSkipped)];
        }
      }
    }

    /** failRun's locked section. */
    method Fail(nextStep: nat, code: Code)
      requires nextStep <= |steps| && stage == Working
      modifies `status, `errorCode, `steps, `inputTokens, `outputTokens, `stage, `taken, `trail
      ensures stage == Decided && status == RunFailed && errorCode == code
      ensures |steps| == |old(steps)|
      ensures forall j | 0 <= j < |steps| :: steps[j] == if j < nextStep then old(steps)[j] else Skipping(old(steps)[j])
      ensures inputTokens == SumInput(steps) && outputTokens == SumOutput(steps)
      ensures taken == old(taken) + [ProcStep.Decide(id, Fails)] && trail == old(trail) + [Persisted()]
      ensures old(Traced()) && Persistable(Persisted()) ==> Traced()
    {
      hide Explains, Persistable, SumInput, SumOutput, Skipping;
      ghost var before := Seen();
      status, errorCode, stage := RunFailed, code, Decided;
      SkipPending(nextStep);
      inputTokens, outputTokens := SumUsage();
      Trace(before, ProcStep.Decide(id, Fails));
    }

    /** finishInterrupted's locked section. */
    method Interrupt(stepIdx: nat, ghost outcome: Outcome, s: RunStatus, code: Code)
      requires s == StatusOf(outcome) && stepIdx <= |steps| && stage == Working
      modifies `status, `errorCode, `steps, `stage, `taken, `trail
      ensures stage == Decided && status == s && errorCode == code
      ensures |steps| == |old(steps)|
      ensures forall j | 0 <= j < |steps| ::
        steps[j] == if j < stepIdx then old(steps)[j] else Interrupting(old(steps)[j])
      ensures taken == old(taken) + [ProcStep.Decide(id, outcome)] && trail == old(trail) + [Persisted()]
      ensures old(Traced()) && Persistable(Persisted()) ==> Traced()
    {
      hide Explains, Persistable;
      ghost var before := Seen();
      status, errorCode, stage := s, code, Decided;
      for j := stepIdx to |steps|
        modifies `steps
        invariant |steps| == |old(steps)|
        invariant forall k | 0 <= k < |steps| ::
          steps[k] == if stepIdx <= k < j then Interrupting(old(steps)[k]) else old(steps)[k]
      {
        match steps[j].status
        case StepPending => steps := steps[j := steps[j].(status := StepSkipped)];
        case StepRunning => steps := steps[j := steps[j].(status := StepCancelled)];
        case StepRetrying => steps := steps[j := steps[j].(status := StepCancelled)];
        case _ =>
      }
      Trace(before, ProcStep.Decide(id, outcome));
    }

    method CloseDone(ghost k: nat)
      requires Observable(k) && stage == FinalEmitted
      modifies `doneClosed, `stage, `taken
      ensures Observable(k) && doneClosed == 1 && stage == Closed && taken == old(taken) + [ProcStep.Close(id)]
    {
      hide Explains, Persistable;
      hide Numbered, Own, OneFinal, NoneFinal, Finished, InProgress;
      doneClosed, stage := doneClosed + 1, Closed;
      OneMoreStep(id, old(Seen()), taken, trail, ProcStep.Close(id));
      taken := taken + [ProcStep.Close(id)];
    }

    method ReturnSlot(ghost k: nat)
      requires Observable(k) && stage == Closed
      modifies `slotsReturned, `stage, `taken
      ensures Observable(k) && stage == Released && taken == old(taken) + [ProcStep.Release(id)]
      ensures slotsReturned == old(slotsReturned) + 1
    {
      hide Explains, Persistable;
      hide Numbered, Own, OneFinal, NoneFinal, Finished, InProgress;
      slotsReturned, stage := slotsReturned + 1, Released;
      OneMoreStep(id, old(Seen()), taken, trail, ProcStep.Release(id));
      taken := taken + [ProcStep.Release(id)];
    }

    /** Announces the outcome and releases the waiters, with other goroutines in between. */
    method Conclude(event: EventKind, ghost k: nat)
      requires Observable(k) && Terminal(status) && stage == Decided && OneFinal([event], status)
      modifies `status, `ctx, `signalling, `announcing, `lastSeq, `events, `taken, `trail, `doneClosed, `stage
      ensures Observable(k) && doneClosed == 1 && stage == Closed && status == old(status)
      ensures (old(ctx) != Live ==> ctx == old(ctx)) && old(taken) <= taken
      ensures Own(events) == Own(old(events)) + [event]
    {
      hide Observable, NoneFinal, OneFinal, Own;
      Interfere(k);
      AnnounceFinal(event, k);
      Interfere(k);
      CloseDone(k);
    }

    method AnnounceFinal(event: EventKind, ghost k: nat)
      requires Observable(k) && stage == Decided && OneFinal([event], status)
      modifies `lastSeq, `events, `stage, `taken
      ensures Observable(k) && stage == FinalEmitted && taken == old(taken) + [ProcStep.AnnounceFinal(id, event)]
      ensures events == old(events) + [Event(|old(events)| + 1, event)]
      ensures Own(events) == Own(old(events)) + [event] && OneFinal(Own(events), status)
    {
      hide Explains, Persistable;
      hide Own, Finished, InProgress;
      Emit(event);
      stage := FinalEmitted;
      OneFinalAfter(Own(old(events)), event, status);
      OneMoreStep(id, old(Seen()), taken, trail, ProcStep.AnnounceFinal(id, event));
      taken := taken + [ProcStep.AnnounceFinal(id, event)];
    }
  }

  lemma OneFinalAfter(own: seq<EventKind>, event: EventKind, status: RunStatus)
    requires NoneFinal(own) && OneFinal([event], status)
    ensures OneFinal(own + [event], status)
  {
    assert (own + [event])[..|own|] == own;
  }

  /** Skipping what is pending finishes a run whose cursor step is pending or has failed. */
  lemma SkippingFinishes(before: seq<StepState>, after: seq<StepState>, k: nat, nextStep: nat)
    requires InProgress(before, k) && |after| == |before|
    requires if k < |before| && before[k].status != StepPending
             then nextStep == k + 1 && before[k].status in {StepFailed, StepTimedOut}
             else nextStep == k
    requires forall j | 0 <= j < |after| :: after[j] == if j < nextStep then before[j] else Skipping(before[j])
    ensures Finished(after, k)
    ensures forall j | 0 <= j < |after| ::
      after[j] == if j < nextStep then before[j] else before[j].(status := StepSkipped)
  {
  }

  lemma InterruptingFinishes(before: seq<StepState>, after: seq<StepState>, k: nat)
    requires InProgress(before, k) && |after| == |before| && k < |before|
    requires before[k].status in {StepPending, StepRunning, StepRetrying}
    requires forall j | 0 <= j < |after| :: after[j] == if j < k then before[j] else Interrupting(before[j])
    ensures Finished(after, k)
    ensures forall j | 0 <= j < |after| && j != k ::
      after[j] == if j < k then before[j] else before[j].(status := StepSkipped)
    ensures after[k] == before[k].(status := if before[k].status == StepPending then StepSkipped else StepCancelled)
  {
  }
}
