/** The sequential runner (execute, failRun and finishInterrupted in platform/workflow/service.go).

    `Execute` is proved against `FinalRecord`, which explains every field of the finished record by the
    definition, the inputs and the executor's answers, whatever other goroutines did meanwhile. */
module Runner {
  import opened Wrappers
  import opened Templates
  import opened FlowDefinitions
  import opened Runs
  import opened Attempts

  // ---------------------------------------------------------------- variables

  /** The values of `m` under their variable names. */
  function AsInputVars(m: map<string, string>): Vars {
    map v | v in (set name | name in m :: InputVar(name)) :: m[v[|InputVar("")|..]]
  }

  /** run.id, every declared input (absent optional ones empty), and the inputs given. */
  function BaseVars(id: string, d: Definition, inputs: map<string, string>): Vars {
    map[RUN_ID_VAR := id] + AsInputVars(map name | name in InputNames(d) :: "") + AsInputVars(inputs)
  }

  /** The variables once the first steps have produced `outputs`. */
  function VarsAfter(id: string, d: Definition, inputs: map<string, string>, outputs: seq<string>): Vars
    requires |outputs| <= |d.steps|
  {
    if outputs == [] then BaseVars(id, d, inputs) else
    var n := |outputs| - 1;
    VarsAfter(id, d, inputs, outputs[..n])[OutputVar(d.steps[n].stepID) := outputs[n]]
  }

  lemma AsInputVarsAt(m: map<string, string>, name: string)
    ensures InputVar(name) in AsInputVars(m) <==> name in m
    ensures name in m ==> AsInputVars(m)[InputVar(name)] == m[name]
  {
    var stripped := InputVar(name)[|InputVar("")|..];
    assert stripped == name;
    if InputVar(name) in AsInputVars(m) {
      var k :| k in m && InputVar(name) == InputVar(k);
      assert InputVar(k)[|InputVar("")|..] == k;
    }
  }

  lemma BaseVarsBind(id: string, d: Definition, inputs: map<string, string>)
    ensures BoundVars(d, 0) <= BaseVars(id, d, inputs).Keys
  {
    hide AsInputVars, InputVar, OutputVar;
    var declared := map name | name in InputNames(d) :: "";
    forall name | name in InputNames(d) ensures InputVar(name) in BaseVars(id, d, inputs) {
      AsInputVarsAt(declared, name);
    }
  }

  lemma BoundVarsStep(d: Definition, n: nat)
    requires n < |d.steps|
    ensures BoundVars(d, n + 1) <= BoundVars(d, n) + {OutputVar(d.steps[n].stepID)}
  {
    forall v | v in BoundVars(d, n + 1) ensures v in BoundVars(d, n) + {OutputVar(d.steps[n].stepID)} {
      if j :| 0 <= j < n + 1 && v == OutputVar(d.steps[j].stepID) {
        assert j < n ==> v in BoundVars(d, n);
      }
    }
  }

  /** Before step `n` the runner has bound everything validation promised. */
  lemma {:induction false} VarsAfterBind(id: string, d: Definition, inputs: map<string, string>, outputs: seq<string>)
    requires |outputs| <= |d.steps|
    ensures BoundVars(d, |outputs|) <= VarsAfter(id, d, inputs, outputs).Keys
  {
    hide BoundVars, BaseVars;
    if outputs == [] {
      BaseVarsBind(id, d, inputs);
    } else {
      var n := |outputs| - 1;
      VarsAfterBind(id, d, inputs, outputs[..n]);
      BoundVarsStep(d, n);
    }
  }

  lemma NoInputVars()
    ensures AsInputVars(map[]) == map[]
  {
  }

  lemma AsInputVarsStep(m: map<string, string>, name: string, value: string)
    ensures AsInputVars(m[name := value]) == AsInputVars(m)[InputVar(name) := value]
  {
    var m' := m[name := value];
    var l, r := AsInputVars(m'), AsInputVars(m)[InputVar(name) := value];
    forall v | v in l ensures v in r && l[v] == r[v] {
      var k :| k in m' && v == InputVar(k);
      AsInputVarsAt(m, k);
      AsInputVarsAt(m', k);
      AsInputVarsAt(m', name);
    }
    forall v | v in r ensures v in l {
      AsInputVarsAt(m', name);
      if v != InputVar(name) {
        var k :| k in m && v == InputVar(k);
        AsInputVarsAt(m', k);
      }
    }
  }

  method BindInputs(start: Vars, m: map<string, string>) returns (vars: Vars)
    ensures vars == start + AsInputVars(m)
  {
    hide InputVar, AsInputVars;
    NoInputVars();
    vars := start;
    ghost var bound: map<string, string> := map[];
    var todo := m.Keys;
    while todo != {}
      invariant todo <= m.Keys && bound.Keys == m.Keys - todo
      invariant forall name <- bound :: bound[name] == m[name]
      invariant vars == start + AsInputVars(bound)
      decreases todo
    {
      var name :| name in todo;
      AsInputVarsStep(bound, name, m[name]);
      vars := vars[InputVar(name) := m[name]];
      bound := bound[name := m[name]];
      todo := todo - {name};
    }
    assert bound == m;
  }

  method InitialVars(id: string, d: Definition, inputs: map<string, string>) returns (vars: Vars)
    ensures vars == BaseVars(id, d, inputs)
  {
    vars := map[RUN_ID_VAR := id];
    vars := BindInputs(vars, map name | name in InputNames(d) :: "");
    vars := BindInputs(vars, inputs);
  }

  // ---------------------------------------------------------------- what a record means

  /** One execution: which run of which definition, on which inputs, answered by which executor. */
  datatype Job = Job(exec: Exec, id: string, d: Definition, inputs: map<string, string>)

  /** A missing "text" entry reads as the empty string. */
  function TextOf(mapping: map<string, string>): string {
    if "text" in mapping then mapping["text"] else ""
  }

  /** What step `i` is sent, given the outputs of the steps before it. */
  ghost function InputOf(j: Job, outputs: seq<string>, i: nat): Result<string, RenderError>
    requires i <= |outputs| && i < |j.d.steps|
  {
    Rendering(TextOf(j.d.steps[i].inputMapping), VarsAfter(j.id, j.d, j.inputs, outputs[..i]))
  }

  ghost predicate BudgetLeft(d: Definition, steps: seq<StepState>, i: nat)
    requires i <= |steps|
  {
    d.limits.maxTotalTokens > 0 ==> SumInput(steps[..i]) + SumOutput(steps[..i]) < d.limits.maxTotalTokens
  }

  /** Step `i` may start: there is budget left, and its input renders and is not too large. */
  ghost predicate MayStart(j: Job, outputs: seq<string>, steps: seq<StepState>, i: nat)
    requires i <= |outputs| && i < |j.d.steps| && i <= |steps|
  {
    && BudgetLeft(j.d, steps, i)
    && InputOf(j, outputs, i).Success? && |InputOf(j, outputs, i).value| <= MAX_TEMPLATE_OUT_BYTES
  }

  ghost predicate Untouched(d: Definition, steps: seq<StepState>, i: nat, s: StepStatus)
    requires i < |steps| == |d.steps|
  {
    steps[i] == StepState(d.steps[i].stepID, s, 0, [], 0, 0, NoCode)
  }

  /** Step `i` was sent its input, walked its targets to a success and carries that attempt's usage. */
  ghost predicate Done(j: Job, outputs: seq<string>, steps: seq<StepState>, i: nat)
    requires i < |outputs| <= |steps| == |j.d.steps|
  {
    var s, st := j.d.steps[i], steps[i];
    && MayStart(j, outputs, steps, i)
    && var text := InputOf(j, outputs, i).value;
    && st.status == StepCompleted && st.stepID == s.stepID && st.errorCode == NoCode
    && st.decisions == Walk(j.exec, i, s, text) && st.attempts == |st.decisions|
    && WalkCode(j.exec, i, s, text) == NoCode && Billed(j.exec, i, text, st)
    && outputs[i] == Answer(j.exec, i, text, st.attempts - 1).output
  }

  /** The first steps completed with these outputs. */
  ghost predicate Chain(j: Job, outputs: seq<string>, steps: seq<StepState>) {
    && |outputs| <= |steps| == |j.d.steps|
    && forall i | 0 <= i < |outputs| :: Done(j, outputs, steps, i)
  }

  ghost predicate Underway(j: Job, outputs: seq<string>, steps: seq<StepState>) {
    && |steps| == |j.d.steps| && Chain(j, outputs, steps)
    && forall i | |outputs| <= i < |steps| :: Untouched(j.d, steps, i, StepPending)
  }

  ghost predicate WasInterrupted(r: Snapshot) {
    (r.status == RunCancelled && r.errorCode == Cancelled) || (r.status == RunTimedOut && r.errorCode == StepTimeout)
  }

  /** Why the first step that did not complete, number `|outputs|`, did not. */
  ghost predicate StoppedAtStep(j: Job, outputs: seq<string>, r: Snapshot)
    requires |outputs| < |r.steps| == |j.d.steps|
  {
    var k := |outputs|;
    var s, st, input := j.d.steps[k], r.steps[k], InputOf(j, outputs, k);
    match st.status
    case StepSkipped =>
      && Untouched(j.d, r.steps, k, StepSkipped)
      && (WasInterrupted(r)
          || (r.status == RunFailed && r.errorCode == BudgetExceeded && !BudgetLeft(j.d, r.steps, k))
          || (r.status == RunFailed && r.errorCode == TemplateRender && BudgetLeft(j.d, r.steps, k)
              && (input.Failure? || |input.value| > MAX_TEMPLATE_OUT_BYTES)))
    case StepCancelled =>
      && MayStart(j, outputs, r.steps, k) && WasInterrupted(r) && st.stepID == s.stepID
      && st.decisions <= Walk(j.exec, k, s, input.value) && st.attempts == |st.decisions|
      && st.inputTokens == 0 && st.outputTokens == 0
    case _ =>
      && MayStart(j, outputs, r.steps, k) && r.status == RunFailed && st.stepID == s.stepID
      && st.decisions == Walk(j.exec, k, s, input.value) && st.attempts == |st.decisions|
      && st.inputTokens == 0 && st.outputTokens == 0
      && r.errorCode == st.errorCode == WalkCode(j.exec, k, s, input.value) != NoCode
      && st.status == (if st.errorCode == StepTimeout then StepTimedOut else StepFailed)
  }

  ghost function OutputOf(j: Job, outputs: seq<string>): Result<string, RenderError>
    requires |outputs| == |j.d.steps|
  {
    Rendering(TextOf(j.d.outputMapping), VarsAfter(j.id, j.d, j.inputs, outputs))
  }

  /** The record of a finished run, explained. */
  ghost predicate FinalRecord(j: Job, outputs: seq<string>, r: Snapshot) {
    && Chain(j, outputs, r.steps)
    && (forall i | |outputs| < i < |r.steps| :: Untouched(j.d, r.steps, i, StepSkipped))
    && (if |outputs| < |r.steps| then StoppedAtStep(j, outputs, r)
        else if OutputOf(j, outputs).Success?
        then r.status == RunCompleted && r.errorCode == NoCode && r.output == OutputOf(j, outputs).value
        else r.status == RunFailed && r.errorCode == TemplateRender)
    && (r.status in {RunCompleted, RunFailed} ==>
          r.inputTokens == SumInput(r.steps) && r.outputTokens == SumOutput(r.steps))
    && (r.status in {RunCancelled, RunTimedOut} ==> r.inputTokens == 0 && r.outputTokens == 0)
  }

  /** The message of a run that ended as failed or timed out. */
  ghost function WhyFailed(j: Job, outputs: seq<string>, r: Snapshot): Reason
    requires |outputs| <= |r.steps| == |j.d.steps|
  {
    var k := |outputs|;
    if WasInterrupted(r) then NoReason
    else if k == |r.steps| then
      if OutputOf(j, outputs).Failure? then RenderFailed(OutputOf(j, outputs).error) else NoReason
    else
      var input := InputOf(j, outputs, k);
      if r.steps[k].status == StepSkipped then
        if r.errorCode == BudgetExceeded then BudgetExhausted
        else if input.Failure? then RenderFailed(input.error) else RenderedTooLarge
      else ReasonAfter(j.exec, k, if input.Success? then input.value else "", r.steps[k].attempts)
  }

  /** The last thing the runner says repeats the record and gives its reason. */
  ghost predicate FinalWord(j: Job, outputs: seq<string>, r: Snapshot, e: EventKind)
    requires |outputs| <= |r.steps| == |j.d.steps|
  {
    match e
    case WorkflowCompleted(i, o) => i == r.inputTokens && o == r.outputTokens
    case WorkflowFailed(code, reason) => code == r.errorCode && reason == WhyFailed(j, outputs, r)
    case WorkflowCancelled(code) => code == r.errorCode
    case _ => false
  }

  // ---------------------------------------------------------------- token sums

  lemma {:induction false} SumsOfPrefix(steps: seq<StepState>, k: nat)
    requires k <= |steps| && forall i | k <= i < |steps| :: steps[i].inputTokens == 0 && steps[i].outputTokens == 0
    ensures SumInput(steps) == SumInput(steps[..k]) && SumOutput(steps) == SumOutput(steps[..k])
    decreases |steps|
  {
    if k == |steps| {
      assert steps[..k] == steps;
    } else {
      var shorter := steps[..|steps| - 1];
      SumsOfPrefix(shorter, k);
      assert shorter[..k] == steps[..k];
    }
  }

  // ---------------------------------------------------------------- finalisation

  /** failRun; `k` is the number of completed steps. */
  method FailRun(run: Run, ghost k: nat, nextStep: nat, code: Code, reason: Reason)
    requires run.Observable(k) && !Terminal(run.status) && run.doneClosed == 0 && run.stage == Working
    requires NoneFinal(Own(run.events))
    requires nextStep <= |run.steps|
    requires if k < |run.steps| && run.steps[k].status != StepPending
             then nextStep == k + 1 && run.steps[k].status in {StepFailed, StepTimedOut}
             else nextStep == k
    modifies run`status, run`taken, run`trail, run`ctx, run`signalling, run`announcing, run`lastSeq, run`events,
      run`steps, run`errorCode, run`inputTokens, run`outputTokens, run`doneClosed, run`stage
    ensures run.Observable(k) && run.status == RunFailed && run.errorCode == code
    ensures run.doneClosed == 1 && run.stage == Closed
    ensures |run.steps| == |old(run.steps)|
    ensures forall i | 0 <= i < |run.steps| ::
      run.steps[i] == if i < nextStep then old(run.steps)[i] else old(run.steps)[i].(status := StepSkipped)
    ensures run.inputTokens == SumInput(run.steps) && run.outputTokens == SumOutput(run.steps)
    ensures Own(run.events) == Own(old(run.events)) + [WorkflowFailed(code, reason)]
  {
    hide Run.Observable, Own, OneFinal;
    run.Interfere(k);
    run.Quiet(k);
    FinalFits(WorkflowFailed(code, reason), RunFailed);
    MarkFailed(run, k, nextStep, code);
    run.Conclude(WorkflowFailed(code, reason), k);
  }

  lemma FinalFits(event: EventKind, status: RunStatus)
    ensures event.WorkflowCompleted? && status == RunCompleted ==> OneFinal([event], status)
    ensures event.WorkflowFailed? && status in {RunFailed, RunTimedOut} ==> OneFinal([event], status)
    ensures event.WorkflowCancelled? && status == RunCancelled ==> OneFinal([event], status)
  {
  }

  method MarkFailed(run: Run, ghost k: nat, nextStep: nat, code: Code)
    requires run.Observable(k) && !Terminal(run.status) && run.stage == Working && nextStep <= |run.steps|
    requires if k < |run.steps| && run.steps[k].status != StepPending
             then nextStep == k + 1 && run.steps[k].status in {StepFailed, StepTimedOut}
             else nextStep == k
    modifies run`status, run`taken, run`trail, run`errorCode, run`steps, run`inputTokens, run`outputTokens, run`stage
    ensures run.Observable(k) && run.status == RunFailed && run.errorCode == code && run.stage == Decided
    ensures |run.steps| == |old(run.steps)|
    ensures forall i | 0 <= i < |run.steps| ::
      run.steps[i] == if i < nextStep then old(run.steps)[i] else old(run.steps)[i].(status := StepSkipped)
    ensures run.inputTokens == SumInput(run.steps) && run.outputTokens == SumOutput(run.steps)
  {
    hide Numbered, Own, Finished, InProgress, Explains, Persistable;
    ghost var before := run.steps;
    run.Fail(nextStep, code);
    SkippingFinishes(before, run.steps, k, nextStep);
    Shapes(run.Persisted(), k);
  }

  function InterruptedEvent(status: RunStatus, code: Code): EventKind {
    if status == RunCancelled then WorkflowCancelled(code) else WorkflowFailed(code, NoReason)
  }

  /** finishInterrupted; `run.ctx` is the cause. */
  method FinishInterrupted(run: Run, k: nat)
    requires run.Observable(k) && !Terminal(run.status) && run.doneClosed == 0 && run.stage == Working
    requires NoneFinal(Own(run.events))
    requires run.ctx != Live && k < |run.steps| && run.steps[k].status in {StepPending, StepRunning, StepRetrying}
    modifies run`status, run`taken, run`trail, run`ctx, run`signalling, run`announcing, run`lastSeq, run`events,
      run`steps, run`errorCode, run`doneClosed, run`stage
    ensures run.Observable(k) && run.doneClosed == 1 && run.stage == Closed && WasInterrupted(run.Snap())
    ensures |run.steps| == |old(run.steps)|
    ensures forall i | 0 <= i < |run.steps| && i != k ::
      run.steps[i] == if i < k then old(run.steps)[i] else old(run.steps)[i].(status := StepSkipped)
    ensures run.steps[k] == old(run.steps)[k].(status :=
      if old(run.steps)[k].status == StepPending then StepSkipped else StepCancelled)
    ensures Own(run.events) == Own(old(run.events)) + [InterruptedEvent(run.status, run.errorCode)]
    ensures run.status == RunCancelled <==> old(run.ctx) == Canceled || old(run.status) == RunCancelling
    ensures CauseFits(run)
  {
    hide Run.Observable, Own, OneFinal;
    var status, code := RunTimedOut, StepTimeout;
    if run.status == RunCancelling || run.ctx == Canceled {
      status, code := RunCancelled, Cancelled;
    }
    if status == RunCancelled {
      run.CancelWasAsked(k);
    }
    InterruptAs(run, k, status, code);
  }

  /** finishInterrupted behind its choice of status and code. */
  method InterruptAs(run: Run, k: nat, status: RunStatus, code: Code)
    requires run.Observable(k) && !Terminal(run.status) && run.stage == Working && run.ctx != Live
    requires (status == RunCancelled && code == Cancelled) || (status == RunTimedOut && code == StepTimeout)
    requires status == RunCancelled ==> ProcStep.RequestCancel(run.id) in run.taken
    requires k < |run.steps| && run.steps[k].status in {StepPending, StepRunning, StepRetrying}
    modifies run`status, run`taken, run`trail, run`ctx, run`signalling, run`announcing, run`lastSeq, run`events,
      run`steps, run`errorCode, run`doneClosed, run`stage
    ensures run.Observable(k) && run.doneClosed == 1 && run.stage == Closed
    ensures run.status == status && run.errorCode == code && run.ctx == old(run.ctx) && old(run.taken) <= run.taken
    ensures |run.steps| == |old(run.steps)|
    ensures forall i | 0 <= i < |run.steps| && i != k ::
      run.steps[i] == if i < k then old(run.steps)[i] else old(run.steps)[i].(status := StepSkipped)
    ensures run.steps[k] == old(run.steps)[k].(status :=
      if old(run.steps)[k].status == StepPending then StepSkipped else StepCancelled)
    ensures Own(run.events) == Own(old(run.events)) + [InterruptedEvent(status, code)]
  {
    hide Run.Observable, Own, OneFinal;
    run.Interfere(k);
    run.Quiet(k);
    FinalFits(InterruptedEvent(status, code), status);
    MarkInterrupted(run, k, status, code);
    run.Conclude(InterruptedEvent(status, code), k);
  }

  method MarkInterrupted(run: Run, k: nat, status: RunStatus, code: Code)
    requires run.Observable(k) && !Terminal(run.status) && run.stage == Working && status in {RunCancelled, RunTimedOut}
    requires k < |run.steps| && run.steps[k].status in {StepPending, StepRunning, StepRetrying}
    requires status == RunCancelled ==> ProcStep.RequestCancel(run.id) in run.taken
    modifies run`status, run`taken, run`trail, run`errorCode, run`steps, run`stage
    ensures run.Observable(k) && run.status == status && run.errorCode == code && run.stage == Decided
    ensures |run.steps| == |old(run.steps)| && old(run.taken) <= run.taken
    ensures forall i | 0 <= i < |run.steps| && i != k ::
      run.steps[i] == if i < k then old(run.steps)[i] else old(run.steps)[i].(status := StepSkipped)
    ensures run.steps[k] == old(run.steps)[k].(status :=
      if old(run.steps)[k].status == StepPending then StepSkipped else StepCancelled)
  {
    hide Numbered, Own, Finished, InProgress, Explains, Persistable;
    ghost var before := run.steps;
    run.Interrupt(k, if status == RunCancelled then IsCancelled else TimesOut, status, code);
    InterruptingFinishes(before, run.steps, k);
    Shapes(run.Persisted(), k);
  }

  // ---------------------------------------------------------------- one step

  /** The runner is between steps, with `outputs` collected. */
  ghost predicate Ready(run: Run, j: Job, outputs: seq<string>)
    reads run
  {
    ReadyAt(run, j, outputs, Working)
  }

  ghost predicate ReadyAt(run: Run, j: Job, outputs: seq<string>, stage: Stage)
    reads run
  {
    && run.stage == stage
    && run.id == j.id && run.Observable(|outputs|) && !Terminal(run.status) && run.doneClosed == 0
    && NoneFinal(Own(run.events)) && |run.steps| == |j.d.steps| && Underway(j, outputs, run.steps)
    && run.inputTokens == 0 && run.outputTokens == 0 && run.errorCode == NoCode
  }

  /** An interruption has the cause that the status tells: the context's own, or a cancel request that was
      pending when the deadline passed. */
  ghost predicate CauseFits(run: Run)
    reads run
  {
    WasInterrupted(run.Snap()) ==>
      && run.ctx != Live && (run.ctx == Canceled ==> run.status == RunCancelled)
      && (run.status == RunTimedOut ==> run.ctx == DeadlineExceeded)
      && (run.status == RunCancelled ==> ProcStep.RequestCancel(run.id) in run.taken)
  }

  /** The run is over and accounted for. */
  ghost predicate Concluded(run: Run, j: Job, outputs: seq<string>)
    reads run
  {
    && run.Observable(|outputs|) && Terminal(run.status) && run.doneClosed == 1 && run.stage == Closed
    && FinalRecord(j, outputs, run.Snap()) && CauseFits(run) && |outputs| <= |run.steps| == |j.d.steps|
    && Own(run.events) != [] && FinalWord(j, outputs, run.Snap(), Own(run.events)[|Own(run.events)| - 1])
  }

  // ---------------------------------------------------------------- what the runner says

  /** The text that step `i` was sent, if its input rendered. */
  ghost function TextAt(j: Job, outputs: seq<string>, i: nat): string
    requires i <= |outputs| && i < |j.d.steps|
  {
    var input := InputOf(j, outputs, i);
    if input.Success? then input.value else ""
  }

  /** The events of step `i` up to its end: its start, then every retry and every turn to a fallback pool. */
  ghost function StepLog(j: Job, outputs: seq<string>, i: nat): seq<EventKind>
    requires i <= |outputs| && i < |j.d.steps|
  {
    [StepStartedEvent(j.d.steps[i].stepID)] + WalkLog(j.exec, i, j.d.steps[i], TextAt(j, outputs, i))
  }

  /** The runner's events when the first `n` steps have completed. */
  ghost function DoneLog(j: Job, outputs: seq<string>, steps: seq<StepState>, n: nat): seq<EventKind>
    requires n <= |outputs| <= |steps| == |j.d.steps|
  {
    if n == 0 then [WorkflowQueued, WorkflowStarted] else
    var st := steps[n - 1];
    DoneLog(j, outputs, steps, n - 1) + StepLog(j, outputs, n - 1)
    + [StepCompletedEvent(j.d.steps[n - 1].stepID, st.attempts, st.inputTokens, st.outputTokens)]
  }

  /** All events of a finished run but the last: those of the completed steps, and of the step that stopped
      it all (if it failed), some from the start (if it was cut off) or none (if it never began). */
  ghost predicate LogExplained(j: Job, outputs: seq<string>, r: Snapshot, own: seq<EventKind>)
    requires |outputs| <= |r.steps| == |j.d.steps|
  {
    && own != []
    && var k, body := |outputs|, own[..|own| - 1];
    && var done := DoneLog(j, outputs, r.steps, k);
    && if k == |r.steps| || r.steps[k].status == StepSkipped then body == done
       else if r.steps[k].status == StepCancelled
       then done + [StepStartedEvent(j.d.steps[k].stepID)] <= body <= done + StepLog(j, outputs, k)
       else body == done + StepLog(j, outputs, k) + [StepFailedEvent(j.d.steps[k].stepID, r.steps[k].errorCode)]
  }

  /** Between steps: the runner has announced the completed ones. */
  ghost predicate Logged(run: Run, j: Job, outputs: seq<string>)
    reads run
  {
    |outputs| <= |run.steps| == |j.d.steps| && Own(run.events) == DoneLog(j, outputs, run.steps, |outputs|)
  }

  /** After the run: its events are explained by its record. */
  ghost predicate Explained(run: Run, j: Job, outputs: seq<string>)
    reads run
  {
    |outputs| <= |run.steps| == |j.d.steps| && LogExplained(j, outputs, run.Snap(), Own(run.events))
  }

  lemma {:induction false} DoneLogFrame(j: Job, o1: seq<string>, s1: seq<StepState>, o2: seq<string>,
                                        s2: seq<StepState>, n: nat)
    requires n <= |o1| <= |s1| == |j.d.steps| && n <= |o2| <= |s2| == |j.d.steps|
    requires o1[..n] == o2[..n] && s1[..n] == s2[..n]
    ensures DoneLog(j, o1, s1, n) == DoneLog(j, o2, s2, n)
  {
    hide Rendering, VarsAfter, WalkLog;
    if n > 0 {
      assert o1[..n][..n - 1] == o1[..n - 1] && o2[..n][..n - 1] == o2[..n - 1];
      assert s1[..n][..n - 1] == s1[..n - 1] && s2[..n][..n - 1] == s2[..n - 1];
      assert s1[n - 1] == s1[..n][n - 1] && s2[n - 1] == s2[..n][n - 1];
      DoneLogFrame(j, o1, s1, o2, s2, n - 1);
    }
  }

  /** The run ended before step `|outputs|` began, or after the last step. */
  lemma ExplainIdle(j: Job, outputs: seq<string>, before: seq<StepState>, r: Snapshot, own: seq<EventKind>,
                    last: EventKind)
    requires |outputs| <= |before| == |r.steps| == |j.d.steps| && r.steps[..|outputs|] == before[..|outputs|]
    requires |outputs| < |r.steps| ==> r.steps[|outputs|].status == StepSkipped
    requires own == DoneLog(j, outputs, before, |outputs|) + [last]
    ensures LogExplained(j, outputs, r, own)
  {
    hide StepLog, DoneLog;
    DoneLogFrame(j, outputs, r.steps, outputs, before, |outputs|);
    assert own[..|own| - 1] == DoneLog(j, outputs, before, |outputs|);
  }

  /** Step `|outputs|` was attempted, ending in `code`, when the runner had said `own`. */
  ghost predicate StepTold(j: Job, outputs: seq<string>, steps: seq<StepState>, own: seq<EventKind>, code: Code)
    requires |outputs| < |steps| == |j.d.steps|
  {
    var k := |outputs|;
    var done := DoneLog(j, outputs, steps, k);
    if code == Cancelled
    then done + [StepStartedEvent(j.d.steps[k].stepID)] <= own <= done + StepLog(j, outputs, k)
    else own == done + StepLog(j, outputs, k)
  }

  lemma TellStep(j: Job, outputs: seq<string>, before: seq<StepState>, steps: seq<StepState>, own: seq<EventKind>,
                 code: Code)
    requires |outputs| < |before| == |steps| == |j.d.steps| && steps[..|outputs|] == before[..|outputs|]
    requires var k := |outputs|;
      Announced(DoneLog(j, outputs, before, k) + [StepStartedEvent(j.d.steps[k].stepID)], own,
                WalkLog(j.exec, k, j.d.steps[k], TextAt(j, outputs, k)), code)
    ensures StepTold(j, outputs, steps, own, code)
  {
    hide DoneLog, WalkLog, TextAt;
    DoneLogFrame(j, outputs, steps, outputs, before, |outputs|);
    var k := |outputs|;
    AnnouncedAfter(DoneLog(j, outputs, before, k), [StepStartedEvent(j.d.steps[k].stepID)], own,
                   WalkLog(j.exec, k, j.d.steps[k], TextAt(j, outputs, k)), code);
  }

  lemma AnnouncedAfter(done: seq<EventKind>, started: seq<EventKind>, own: seq<EventKind>, walk: seq<EventKind>,
                       code: Code)
    requires Announced(done + started, own, walk, code)
    ensures if code == Cancelled then done + started <= own <= done + (started + walk)
            else own == done + (started + walk)
  {
    assert done + started + walk == done + (started + walk);
  }

  lemma ExplainCutOff(j: Job, outputs: seq<string>, steps: seq<StepState>, r: Snapshot, own: seq<EventKind>, code: Code,
                      last: EventKind)
    requires |outputs| < |steps| == |r.steps| == |j.d.steps| && r.steps[..|outputs|] == steps[..|outputs|]
    requires r.steps[|outputs|].status == StepCancelled && StepTold(j, outputs, steps, own, code)
    ensures LogExplained(j, outputs, r, own + [last])
  {
    hide DoneLog, WalkLog, TextAt;
    var k := |outputs|;
    DoneLogFrame(j, outputs, r.steps, outputs, steps, k);
    assert (own + [last])[..|own|] == own;
    var done, started := DoneLog(j, outputs, steps, k), [StepStartedEvent(j.d.steps[k].stepID)];
    assert done + StepLog(j, outputs, k) == done + started + WalkLog(j.exec, k, j.d.steps[k], TextAt(j, outputs, k));
  }

  lemma ExplainFailure(j: Job, outputs: seq<string>, steps: seq<StepState>, r: Snapshot, own: seq<EventKind>,
                       code: Code, last: EventKind)
    requires |outputs| < |steps| == |r.steps| == |j.d.steps| && r.steps[..|outputs|] == steps[..|outputs|]
    requires r.steps[|outputs|].status in {StepFailed, StepTimedOut} && r.steps[|outputs|].errorCode == code
    requires code != Cancelled && StepTold(j, outputs, steps, own, code)
    ensures LogExplained(j, outputs, r, own + [StepFailedEvent(j.d.steps[|outputs|].stepID, code)] + [last])
  {
    hide DoneLog, StepLog;
    var k := |outputs|;
    DoneLogFrame(j, outputs, r.steps, outputs, steps, k);
    var body := own + [StepFailedEvent(j.d.steps[k].stepID, code)];
    assert (body + [last])[..|body|] == body;
  }

  lemma TellCompletion(j: Job, outputs: seq<string>, before: seq<StepState>, steps: seq<StepState>, own: seq<EventKind>,
                       output: string)
    requires |outputs| < |before| == |steps| == |j.d.steps| && steps[..|outputs|] == before[..|outputs|]
    requires StepTold(j, outputs, before, own, NoCode)
    ensures var k := |outputs|; var st := steps[k];
      own + [StepCompletedEvent(j.d.steps[k].stepID, st.attempts, st.inputTokens, st.outputTokens)]
      == DoneLog(j, outputs + [output], steps, k + 1)
  {
    var k, longer := |outputs|, outputs + [output];
    assert longer[..k] == outputs[..k];
    DoneLogFrame(j, longer, steps, outputs, before, k);
    SameStepLog(j, longer, outputs, k);
    hide WalkLog, TextAt, StepLog;
  }

  lemma SameStepLog(j: Job, o1: seq<string>, o2: seq<string>, k: nat)
    requires k <= |o1| && k <= |o2| && k < |j.d.steps| && o1[..k] == o2[..k]
    ensures StepLog(j, o1, k) == StepLog(j, o2, k)
  {
    hide WalkLog, Rendering, VarsAfter;
  }

  // ---------------------------------------------------------------- frames

  lemma ChainFrame(j: Job, outputs: seq<string>, a: seq<StepState>, b: seq<StepState>)
    requires Chain(j, outputs, a) && |b| == |a| && a[..|outputs|] == b[..|outputs|]
    ensures Chain(j, outputs, b)
  {
    hide Walk, WalkCode, Billed, Answer, InputOf, SumInput, SumOutput;
    forall i | 0 <= i < |outputs| ensures Done(j, outputs, b, i) {
      assert Done(j, outputs, a, i);
      assert a[..|outputs|][..i] == a[..i] && b[..|outputs|][..i] == b[..i];
      assert a[i] == a[..|outputs|][i] && b[i] == b[..|outputs|][i];
    }
  }

  lemma BudgetFrame(d: Definition, a: seq<StepState>, b: seq<StepState>, k: nat)
    requires k <= |a| == |b| && a[..k] == b[..k]
    ensures BudgetLeft(d, a, k) <==> BudgetLeft(d, b, k)
  {
  }

  ghost predicate Unsendable(input: Result<string, RenderError>) {
    input.Failure? || |input.value| > MAX_TEMPLATE_OUT_BYTES
  }

  /** Stopping before the next step starts. */
  lemma StopBeforeStep(j: Job, outputs: seq<string>, before: seq<StepState>, r: Snapshot)
    requires Underway(j, outputs, before) && |outputs| < |before| == |r.steps|
    requires forall i | 0 <= i < |before| ::
      r.steps[i] == if i < |outputs| then before[i] else before[i].(status := StepSkipped)
    requires
      || (WasInterrupted(r) && r.inputTokens == 0 && r.outputTokens == 0)
      || (r.status == RunFailed && r.inputTokens == SumInput(r.steps) && r.outputTokens == SumOutput(r.steps)
          && ((r.errorCode == BudgetExceeded && !BudgetLeft(j.d, before, |outputs|))
              || (r.errorCode == TemplateRender && BudgetLeft(j.d, before, |outputs|)
                  && Unsendable(InputOf(j, outputs, |outputs|)))))
    ensures FinalRecord(j, outputs, r)
  {
    hide Walk, WalkCode, Billed, Answer, InputOf, SumInput, SumOutput, Done;
    var k := |outputs|;
    assert before[..k] == r.steps[..k];
    ChainFrame(j, outputs, before, r.steps);
    BudgetFrame(j.d, before, r.steps, k);
    assert Untouched(j.d, before, k, StepPending);
    forall i | k < i < |r.steps| ensures Untouched(j.d, r.steps, i, StepSkipped) {
      assert Untouched(j.d, before, i, StepPending);
    }
  }

  method FailBeforeStep(run: Run, j: Job, ghost outputs: seq<string>, i: nat, code: Code, reason: Reason)
    requires Ready(run, j, outputs) && Logged(run, j, outputs) && i == |outputs| < |j.d.steps|
    requires code in {BudgetExceeded, TemplateRender}
    requires code == BudgetExceeded ==> !BudgetLeft(j.d, run.steps, i) && reason == BudgetExhausted
    requires code == TemplateRender ==> BudgetLeft(j.d, run.steps, i)
    requires code == TemplateRender ==>
      if reason.RenderFailed? then InputOf(j, outputs, i) == Failure(reason.error)
      else InputOf(j, outputs, i).Success? && |InputOf(j, outputs, i).value| > MAX_TEMPLATE_OUT_BYTES
           && reason == RenderedTooLarge
    modifies run`status, run`taken, run`trail, run`ctx, run`signalling, run`announcing, run`lastSeq, run`events,
      run`steps, run`errorCode, run`inputTokens, run`outputTokens, run`doneClosed, run`stage
    ensures Concluded(run, j, outputs) && Explained(run, j, outputs)
    ensures run.status == RunFailed && !WasInterrupted(run.Snap())
  {
    hide Run.Observable, Own, SumInput, SumOutput, Chain, InputOf, BudgetLeft, StoppedAtStep, DoneLog, LogExplained;
    ghost var before := run.steps;
    assert before[i].status == StepPending by { assert Untouched(j.d, before, i, StepPending); }
    FailRun(run, i, i, code, reason);
    StopBeforeStep(j, outputs, before, run.Snap());
    ExplainIdle(j, outputs, before, run.Snap(), Own(run.events), WorkflowFailed(code, reason));
  }

  method InterruptBeforeStep(run: Run, j: Job, ghost outputs: seq<string>, i: nat)
    requires Ready(run, j, outputs) && Logged(run, j, outputs) && i == |outputs| < |j.d.steps| && run.ctx != Live
    modifies run`status, run`taken, run`trail, run`ctx, run`signalling, run`announcing, run`lastSeq, run`events,
      run`steps, run`errorCode, run`doneClosed, run`stage
    ensures Concluded(run, j, outputs) && Explained(run, j, outputs)
    ensures WasInterrupted(run.Snap())
  {
    hide Run.Observable, Own, SumInput, SumOutput, Chain, InputOf, BudgetLeft, StoppedAtStep, DoneLog, LogExplained;
    ghost var before := run.steps;
    assert before[i].status == StepPending by { assert Untouched(j.d, before, i, StepPending); }
    FinishInterrupted(run, i);
    assert before[i].(status := StepSkipped) == run.steps[i];
    StopBeforeStep(j, outputs, before, run.Snap());
    ExplainIdle(j, outputs, before, run.Snap(), Own(run.events), InterruptedEvent(run.status, run.errorCode));
  }

  /** Budget, context, template and size are checked before a step starts. */
  method BeginStep(run: Run, j: Job, ghost outputs: seq<string>, i: nat, vars: Vars, totalIn: int, totalOut: int)
    returns (stopped: bool, text: string)
    requires Ready(run, j, outputs) && Logged(run, j, outputs) && i == |outputs| < |j.d.steps|
    requires vars == VarsAfter(j.id, j.d, j.inputs, outputs)
    requires totalIn == SumInput(run.steps[..i]) && totalOut == SumOutput(run.steps[..i])
    modifies run`status, run`taken, run`trail, run`ctx, run`signalling, run`announcing, run`lastSeq, run`events,
      run`steps, run`errorCode, run`inputTokens, run`outputTokens, run`doneClosed, run`stage
    ensures if stopped then Concluded(run, j, outputs) && Explained(run, j, outputs)
            else Ready(run, j, outputs) && Logged(run, j, outputs)
    ensures !stopped ==> run.steps == old(run.steps) && run.ctx == Live
    ensures old(run.ctx) != Live && BudgetLeft(j.d, old(run.steps), i) ==> stopped && WasInterrupted(run.Snap())
    ensures !stopped ==> MayStart(j, outputs, run.steps, i) && text == InputOf(j, outputs, i).value
  {
    hide Run.Observable, Own, SumInput, SumOutput, Underway, Rendering, VarsAfter, Concluded, Explained, DoneLog;
    text := "";
    assert outputs[..i] == outputs;
    var max := j.d.limits.maxTotalTokens;
    if max > 0 && totalIn + totalOut >= max {
      FailBeforeStep(run, j, outputs, i, BudgetExceeded, BudgetExhausted);
      return true, text;
    }
    run.Interfere(i);
    if run.ctx != Live {
      InterruptBeforeStep(run, j, outputs, i);
      return true, text;
    }
    var rendered := RenderTemplate(TextOf(j.d.steps[i].inputMapping), vars);
    if rendered.Failure? {
      FailBeforeStep(run, j, outputs, i, TemplateRender, RenderFailed(rendered.error));
      return true, text;
    }
    if |rendered.value| > MAX_TEMPLATE_OUT_BYTES {
      FailBeforeStep(run, j, outputs, i, TemplateRender, RenderedTooLarge);
      return true, text;
    }
    return false, rendered.value;
  }

  /** Ending the run after step `k` was attempted without success. */
  lemma StopAtStep(j: Job, outputs: seq<string>, before: seq<StepState>, r: Snapshot)
    requires Underway(j, outputs, before) && |outputs| < |before| == |r.steps|
    requires MayStart(j, outputs, before, |outputs|)
    requires forall i | 0 <= i < |before| && i != |outputs| ::
      r.steps[i] == if i < |outputs| then before[i] else before[i].(status := StepSkipped)
    requires r.steps[|outputs|].status in {StepCancelled, StepFailed, StepTimedOut}
    requires BudgetLeft(j.d, r.steps, |outputs|) ==> StoppedAtStep(j, outputs, r)
    requires r.status == RunFailed ==> r.inputTokens == SumInput(r.steps) && r.outputTokens == SumOutput(r.steps)
    requires r.status != RunFailed ==> WasInterrupted(r) && r.inputTokens == 0 && r.outputTokens == 0
    ensures FinalRecord(j, outputs, r)
  {
    hide Walk, WalkCode, Billed, Answer, InputOf, SumInput, SumOutput, Done, StoppedAtStep;
    var k := |outputs|;
    assert before[..k] == r.steps[..k];
    ChainFrame(j, outputs, before, r.steps);
    BudgetFrame(j.d, before, r.steps, k);
    forall i | k < i < |r.steps| ensures Untouched(j.d, r.steps, i, StepSkipped) {
      assert Untouched(j.d, before, i, StepPending);
    }
  }

  lemma StepIsDone(j: Job, outputs: seq<string>, before: seq<StepState>, after: seq<StepState>, output: string)
    requires Underway(j, outputs, before) && |outputs| < |before| == |after| && MayStart(j, outputs, before, |outputs|)
    requires forall i | 0 <= i < |before| && i != |outputs| :: after[i] == before[i]
    requires var k := |outputs|; var text := InputOf(j, outputs, k).value;
      && after[k].status == StepCompleted && after[k].stepID == before[k].stepID
      && Attempted(j.exec, k, j.d.steps[k], text, after[k].(status := StepRunning), NoCode)
      && output == Answer(j.exec, k, text, after[k].attempts - 1).output
    ensures Underway(j, outputs + [output], after)
  {
    hide Walk, WalkCode, Answer, Rendering, VarsAfter, SumInput, SumOutput;
    var k, longer := |outputs|, outputs + [output];
    assert before[..k] == after[..k];
    assert Untouched(j.d, before, k, StepPending);
    forall i | 0 <= i < k ensures Done(j, longer, after, i) {
      assert Done(j, outputs, before, i);
      assert longer[..i] == outputs[..i];
      assert before[..k][..i] == before[..i] && after[..k][..i] == after[..i];
    }
    assert longer[..k] == outputs[..k];
    assert Done(j, longer, after, k);
    forall i | k < i < |after| ensures Untouched(j.d, after, i, StepPending) {
      assert Untouched(j.d, before, i, StepPending);
    }
  }

  /** Step `i` of a run that was ready with `before` has been attempted, ending in `code`. */
  ghost predicate AtStep(run: Run, j: Job, outputs: seq<string>, before: seq<StepState>, i: nat, text: string,
                         code: Code)
    reads run
  {
    && run.id == j.id && run.Observable(i) && !Terminal(run.status) && run.doneClosed == 0 && run.stage == Working
    && NoneFinal(Own(run.events))
    && run.inputTokens == 0 && run.outputTokens == 0 && run.errorCode == NoCode
    && i == |outputs| < |before| == |run.steps| == |j.d.steps| && Underway(j, outputs, before)
    && MayStart(j, outputs, before, i) && text == InputOf(j, outputs, i).value
    && (forall x | 0 <= x < |before| && x != i :: run.steps[x] == before[x])
    && run.steps[i].stepID == before[i].stepID
    && Attempted(j.exec, i, j.d.steps[i], text, run.steps[i], code)
    && StepTold(j, outputs, run.steps, Own(run.events), code)
  }

  method InterruptAtStep(run: Run, j: Job, ghost outputs: seq<string>, ghost before: seq<StepState>, i: nat,
                         ghost text: string, code: Code)
    requires AtStep(run, j, outputs, before, i, text, code) && code != NoCode && run.ctx != Live
    modifies run`status, run`taken, run`trail, run`ctx, run`signalling, run`announcing, run`lastSeq, run`events,
      run`steps, run`errorCode, run`doneClosed, run`stage
    ensures Concluded(run, j, outputs) && Explained(run, j, outputs)
    ensures WasInterrupted(run.Snap())
  {
    hide Run.Observable, Own, SumInput, SumOutput, Chain, InputOf, BudgetLeft, Walk, WalkCode, Billed;
    hide StepTold, LogExplained;
    assert Untouched(j.d, before, i, StepPending);
    ghost var told, steps := Own(run.events), run.steps;
    FinishInterrupted(run, i);
    StopAtStep(j, outputs, before, run.Snap());
    ExplainCutOff(j, outputs, steps, run.Snap(), told, code, InterruptedEvent(run.status, run.errorCode));
  }

  lemma WordOfFailedStep(j: Job, outputs: seq<string>, r: Snapshot, reason: Reason)
    requires |outputs| < |r.steps| == |j.d.steps| && r.status == RunFailed
    requires r.steps[|outputs|].status in {StepFailed, StepTimedOut} && InputOf(j, outputs, |outputs|).Success?
    requires reason == ReasonAfter(j.exec, |outputs|, InputOf(j, outputs, |outputs|).value, r.steps[|outputs|].attempts)
    ensures FinalWord(j, outputs, r, WorkflowFailed(r.errorCode, reason))
  {
    hide InputOf, ReasonAfter;
  }

  lemma WordOfCompletion(j: Job, outputs: seq<string>, r: Snapshot)
    requires |outputs| <= |r.steps| == |j.d.steps|
    ensures FinalWord(j, outputs, r, WorkflowCompleted(r.inputTokens, r.outputTokens))
  {
  }

  method FailAtStep(run: Run, j: Job, ghost outputs: seq<string>, ghost before: seq<StepState>, i: nat,
                    ghost text: string,
                    code: Code, reason: Reason)
    requires AtStep(run, j, outputs, before, i, text, code) && code !in {NoCode, Cancelled}
    requires reason == ReasonAfter(j.exec, i, text, run.steps[i].attempts)
    modifies run`status, run`taken, run`trail, run`ctx, run`signalling, run`announcing, run`lastSeq, run`events,
      run`steps, run`errorCode, run`inputTokens, run`outputTokens, run`doneClosed, run`stage
    ensures Concluded(run, j, outputs) && Explained(run, j, outputs)
    ensures run.status == RunFailed && !WasInterrupted(run.Snap())
  {
    hide Run.Observable, Own, SumInput, SumOutput, Chain, InputOf, BudgetLeft, Walk, WalkCode, Billed;
    hide StepTold, LogExplained, FinalWord, ReasonAfter;
    assert Untouched(j.d, before, i, StepPending);
    ghost var told, steps := Own(run.events), run.steps;
    run.FailStep(i, code);
    run.Interfere(i);
    run.Say(StepFailedEvent(j.d.steps[i].stepID, code), i);
    FailRun(run, i, i + 1, code, reason);
    StopAtStep(j, outputs, before, run.Snap());
    ExplainFailure(j, outputs, steps, run.Snap(), told, code, WorkflowFailed(code, reason));
    WordOfFailedStep(j, outputs, run.Snap(), reason);
  }

  /** A step ended without success: whatever its code, the run was interrupted if its context is done, and
      has failed otherwise. */
  method StopStep(run: Run, j: Job, ghost outputs: seq<string>, ghost before: seq<StepState>, i: nat,
                  ghost text: string, code: Code, reason: Reason)
    requires AtStep(run, j, outputs, before, i, text, code) && code != NoCode && i < |run.steps|
    requires code != Cancelled ==> reason == ReasonAfter(j.exec, i, text, run.steps[i].attempts)
    requires code == Cancelled ==> run.ctx != Live
    modifies run`status, run`taken, run`trail, run`ctx, run`signalling, run`announcing, run`lastSeq, run`events,
      run`steps, run`errorCode, run`inputTokens, run`outputTokens, run`doneClosed, run`stage
    ensures Concluded(run, j, outputs) && Explained(run, j, outputs)
    ensures WasInterrupted(run.Snap()) <==> old(run.ctx) != Live
  {
    hide AtStep, Concluded, Explained, WasInterrupted;
    if run.ctx != Live {
      InterruptAtStep(run, j, outputs, before, i, text, code);
    } else {
      FailAtStep(run, j, outputs, before, i, text, code, reason);
    }
  }

  method CompleteStep(run: Run, j: Job, ghost outputs: seq<string>, ghost before: seq<StepState>, i: nat,
                      ghost text: string, output: string)
    returns (stepIn: int, stepOut: int)
    requires AtStep(run, j, outputs, before, i, text, NoCode)
    requires output == Answer(j.exec, i, text, run.steps[i].attempts - 1).output
    modifies run`status, run`taken, run`trail, run`ctx, run`signalling, run`announcing, run`lastSeq, run`events,
      run`steps
    ensures Ready(run, j, outputs + [output]) && Logged(run, j, outputs + [output]) && i < |run.steps|
    ensures run.steps[..i] == before[..i] && stepIn == run.steps[i].inputTokens && stepOut == run.steps[i].outputTokens
  {
    hide Run.Observable, Own, SumInput, SumOutput, Underway, Rendering, BudgetLeft, Walk, WalkCode;
    hide StepTold, DoneLog;
    ghost var told, steps := Own(run.events), run.steps;
    run.SetStepStatus(i, StepCompleted);
    TellCompletion(j, outputs, steps, run.steps, told, output);
    stepIn, stepOut := run.steps[i].inputTokens, run.steps[i].outputTokens;
    StepIsDone(j, outputs, before, run.steps, output);
    run.Interfere(i + 1);
    run.Say(StepCompletedEvent(j.d.steps[i].stepID, run.steps[i].attempts, stepIn, stepOut), i + 1);
  }

  lemma ReadyHasSteps(run: Run, j: Job, outputs: seq<string>)
    requires Ready(run, j, outputs)
    ensures |run.steps| == |j.d.steps|
  {
  }

  /** One iteration of the runner's loop. */
  method ExecuteStep(run: Run, j: Job, ghost outputs: seq<string>, i: nat, vars: Vars, totalIn: int, totalOut: int)
    returns (stopped: bool, output: string, stepIn: int, stepOut: int)
    requires Ready(run, j, outputs) && Logged(run, j, outputs) && i == |outputs| < |j.d.steps|
    requires vars == VarsAfter(j.id, j.d, j.inputs, outputs)
    requires totalIn == SumInput(run.steps[..i]) && totalOut == SumOutput(run.steps[..i])
    modifies run`status, run`taken, run`trail, run`ctx, run`signalling, run`announcing, run`lastSeq, run`events,
      run`steps, run`errorCode, run`inputTokens, run`outputTokens, run`doneClosed, run`stage
    ensures if stopped then Concluded(run, j, outputs) && Explained(run, j, outputs)
            else Ready(run, j, outputs + [output]) && Logged(run, j, outputs + [output])
    ensures old(run.ctx) != Live && BudgetLeft(j.d, old(run.steps), i) ==> stopped && WasInterrupted(run.Snap())
    ensures !stopped ==> run.steps[..i] == old(run.steps)[..i]
    ensures !stopped ==> stepIn == run.steps[i].inputTokens && stepOut == run.steps[i].outputTokens
  {
    hide Run.Observable, Own, SumInput, SumOutput, Underway, Rendering, VarsAfter, Concluded, Explained, ReadyAt;
    hide Logged, WasInterrupted, BudgetLeft;
    hide MayStart, Attempted, InputOf, Answer, StepTold;
    assert i < |run.steps| by { ReadyHasSteps(run, j, outputs); }
    stepIn, stepOut, output := 0, 0, "";
    var halted, text := BeginStep(run, j, outputs, i, vars, totalIn, totalOut);
    if halted {
      return true, output, 0, 0;
    }
    ghost var before := run.steps;
    var out, code, reason := AttemptStep(run, j, outputs, i, text);
    if code != NoCode {
      StopStep(run, j, outputs, before, i, text, code, reason);
      return true, output, 0, 0;
    }
    stepIn, stepOut := CompleteStep(run, j, outputs, before, i, text, out);
    return false, out, stepIn, stepOut;
  }

  /** Step `i` is marked as running, announced and attempted. */
  method AttemptStep(run: Run, j: Job, ghost outputs: seq<string>, i: nat, text: string)
    returns (out: string, code: Code, reason: Reason)
    requires Ready(run, j, outputs) && Logged(run, j, outputs) && i == |outputs| < |j.d.steps|
    requires MayStart(j, outputs, run.steps, i) && text == InputOf(j, outputs, i).value
    modifies run`status, run`taken, run`trail, run`ctx, run`signalling, run`announcing, run`lastSeq, run`events,
      run`steps
    ensures AtStep(run, j, outputs, old(run.steps), i, text, code)
    ensures code == Cancelled ==> run.ctx != Live
    ensures code == NoCode ==> out == Answer(j.exec, i, text, run.steps[i].attempts - 1).output
    ensures i < |run.steps|
    ensures code != Cancelled ==> reason == ReasonAfter(j.exec, i, text, run.steps[i].attempts)
  {
    hide Run.Observable, Own, Underway, MayStart, Attempted, Trying, InputOf, Answer, StepTold, DoneLog, WalkLog;
    hide Announced, TextAt;
    ghost var before := run.steps;
    var step := j.d.steps[i];
    FreshStep(j, outputs, before, i, text);
    SentText(j, outputs, before, i);
    run.MarkActive(i, StepRunning);
    run.Say(StepStartedEvent(step.stepID), i);
    out, code, reason := RunStep(run, step, i, text, j.exec);
    run.Quiet(i);
    TellStep(j, outputs, before, run.steps, Own(run.events), code);
  }

  lemma SentText(j: Job, outputs: seq<string>, steps: seq<StepState>, i: nat)
    requires i <= |outputs| && i < |j.d.steps| && i <= |steps| && MayStart(j, outputs, steps, i)
    ensures TextAt(j, outputs, i) == InputOf(j, outputs, i).value
  {
    hide InputOf;
  }

  lemma FreshStep(j: Job, outputs: seq<string>, before: seq<StepState>, i: nat, text: string)
    requires Underway(j, outputs, before) && i == |outputs| < |before|
    ensures |before| == |j.d.steps|
    ensures Trying(j.exec, i, j.d.steps[i], text, before[i].(status := StepRunning), 0)
  {
    assert Untouched(j.d, before, i, StepPending);
  }

  // ---------------------------------------------------------------- the whole run

  lemma SumStep(steps: seq<StepState>, i: nat)
    requires i < |steps|
    ensures SumInput(steps[..i + 1]) == SumInput(steps[..i]) + steps[i].inputTokens
    ensures SumOutput(steps[..i + 1]) == SumOutput(steps[..i]) + steps[i].outputTokens
  {
    assert steps[..i + 1][..i] == steps[..i];
  }

  lemma EndRun(j: Job, outputs: seq<string>, r: Snapshot)
    requires Underway(j, outputs, r.steps) && |outputs| == |r.steps|
    requires r.inputTokens == SumInput(r.steps) && r.outputTokens == SumOutput(r.steps)
    requires if OutputOf(j, outputs).Success?
             then r.status == RunCompleted && r.errorCode == NoCode && r.output == OutputOf(j, outputs).value
             else r.status == RunFailed && r.errorCode == TemplateRender
    ensures FinalRecord(j, outputs, r)
  {
  }

  /** After the last step: the output mapping is rendered, without a size limit. */
  method FinishSteps(run: Run, j: Job, ghost outputs: seq<string>, vars: Vars, totalIn: int, totalOut: int)
    requires Ready(run, j, outputs) && Logged(run, j, outputs)
    requires |outputs| == |j.d.steps| && vars == VarsAfter(j.id, j.d, j.inputs, outputs)
    requires totalIn == SumInput(run.steps) && totalOut == SumOutput(run.steps)
    modifies run`status, run`taken, run`trail, run`ctx, run`signalling, run`announcing, run`lastSeq, run`events,
      run`steps, run`errorCode, run`inputTokens, run`outputTokens, run`output, run`doneClosed, run`stage
    ensures Concluded(run, j, outputs) && Explained(run, j, outputs)
  {
    hide Run.Observable, Own, SumInput, SumOutput, Underway, Rendering, VarsAfter, FinalRecord, LogExplained, DoneLog;
    hide OneFinal, FinalWord;
    var final := RenderTemplate(TextOf(j.d.outputMapping), vars);
    ghost var before := run.steps;
    if final.Failure? {
      FailOutput(run, j, outputs, final.error);
      return;
    }
    run.Interfere(|outputs|);
    run.Quiet(|outputs|);
    FinalFits(WorkflowCompleted(totalIn, totalOut), RunCompleted);
    MarkCompleted(run, totalIn, totalOut, final.value);
    run.Conclude(WorkflowCompleted(totalIn, totalOut), |outputs|);
    EndRun(j, outputs, run.Snap());
    WordOfCompletion(j, outputs, run.Snap());
    ExplainIdle(j, outputs, before, run.Snap(), Own(run.events), WorkflowCompleted(totalIn, totalOut));
  }

  method FailOutput(run: Run, j: Job, ghost outputs: seq<string>, error: RenderError)
    requires Ready(run, j, outputs) && Logged(run, j, outputs)
    requires |outputs| == |j.d.steps| && OutputOf(j, outputs) == Failure(error)
    modifies run`status, run`taken, run`trail, run`ctx, run`signalling, run`announcing, run`lastSeq, run`events,
      run`steps, run`errorCode, run`inputTokens, run`outputTokens, run`doneClosed, run`stage
    ensures Concluded(run, j, outputs) && Explained(run, j, outputs)
  {
    hide Run.Observable, Own, SumInput, SumOutput, Underway, OutputOf, FinalRecord, LogExplained, DoneLog, OneFinal;
    ghost var before := run.steps;
    FailRun(run, |outputs|, |j.d.steps|, TemplateRender, RenderFailed(error));
    assert run.steps == before;
    EndRun(j, outputs, run.Snap());
    ExplainIdle(j, outputs, before, run.Snap(), Own(run.events), WorkflowFailed(TemplateRender, RenderFailed(error)));
  }

  method MarkCompleted(run: Run, totalIn: int, totalOut: int, text: string)
    requires run.Observable(|run.steps|) && !Terminal(run.status) && run.stage == Working
    modifies run`status, run`taken, run`trail, run`inputTokens, run`outputTokens, run`output, run`stage
    ensures run.Observable(|run.steps|) && run.stage == Decided && run.status == RunCompleted
    ensures run.inputTokens == totalIn && run.outputTokens == totalOut && run.output == text
  {
    hide Numbered, Own, Explains, Persistable;
    run.Complete(totalIn, totalOut, text);
    Shapes(run.Persisted(), |run.steps|);
  }

  /** The runner goroutine, from StartRun's `go` to the return of its slot.  `outputs` are the outputs of
      the completed steps. */
  method Execute(run: Run, j: Job) returns (ghost outputs: seq<string>)
    requires ReadyAt(run, j, [], Spawned) && run.slotsReturned == 0 && Own(run.events) == [WorkflowQueued]
    modifies run
    ensures run.Observable(|outputs|) && run.stage == Released && run.doneClosed == 1 && run.slotsReturned == 1
    ensures FinalRecord(j, outputs, run.Snap()) && Explained(run, j, outputs) && Own(run.events) != []
    ensures |outputs| <= |run.steps| == |j.d.steps|
    ensures FinalWord(j, outputs, run.Snap(), Own(run.events)[|Own(run.events)| - 1])
    ensures Finished(run.steps, |outputs|) && OneFinal(Own(run.events), run.status)
    ensures WasInterrupted(run.Snap()) ==>
      && run.ctx != Live && (run.ctx == Canceled ==> run.status == RunCancelled)
      && (run.status == RunTimedOut ==> run.ctx == DeadlineExceeded)
      && (run.status == RunCancelled ==> ProcStep.RequestCancel(run.id) in run.taken)
    // no step starts once the context is done
    ensures old(run.ctx) != Live && j.d.steps != [] ==> WasInterrupted(run.Snap()) && outputs == []
  {
    hide Run.Observable, ReadyAt, Own, FinalRecord, OneFinal, Finished, LogExplained, NoneFinal, FinalWord;
    Launch(run, j);
    outputs := RunSteps(run, j);
    run.ClosedOnce(|outputs|);
    ghost var snap := run.Snap();
    run.ReturnSlot(|outputs|);
    assert run.Snap() == snap;
  }

  /** From the start of the goroutine to its first step. */
  method Launch(run: Run, j: Job)
    requires ReadyAt(run, j, [], Spawned) && Own(run.events) == [WorkflowQueued]
    modifies run`status, run`taken, run`trail, run`ctx, run`signalling, run`announcing, run`lastSeq, run`events,
      run`cancelFn, run`stage
    ensures Ready(run, j, []) && Logged(run, j, [])
    ensures old(run.ctx) != Live ==> run.ctx == old(run.ctx)
  {
    hide Run.Observable, Own, Underway, NoneFinal;
    run.Start(0);
    run.Interfere(0);
    run.Quiet(0);
    run.SayStarted(0);
    run.Quiet(0);
  }

  method RunSteps(run: Run, j: Job) returns (ghost outputs: seq<string>)
    requires Ready(run, j, []) && Logged(run, j, [])
    modifies run`status, run`taken, run`trail, run`ctx, run`signalling, run`announcing, run`lastSeq, run`events,
      run`steps, run`errorCode, run`inputTokens, run`outputTokens, run`output, run`doneClosed, run`stage
    ensures Concluded(run, j, outputs) && Explained(run, j, outputs)
    ensures old(run.ctx) != Live && j.d.steps != [] ==> WasInterrupted(run.Snap()) && outputs == []
  {
    hide Run.Observable, Own, SumInput, SumOutput, Underway, Rendering, Concluded, BaseVars, OutputVar, Explained;
    hide DoneLog;
    var vars := InitialVars(run.id, j.d, j.inputs);
    var totalIn, totalOut := 0, 0;
    outputs := [];
    NothingSummed(run.steps);
    for i := 0 to |j.d.steps|
      invariant Ready(run, j, outputs) && Logged(run, j, outputs) && i == |outputs|
      invariant vars == VarsAfter(j.id, j.d, j.inputs, outputs)
      invariant totalIn == SumInput(run.steps[..i]) && totalOut == SumOutput(run.steps[..i])
      invariant old(run.ctx) != Live ==> i == 0 && run.ctx == old(run.ctx)
    {
      assert i == 0 ==> BudgetLeft(j.d, run.steps, i) by { FirstStepHasBudget(j.d, run.steps); }
      ghost var before := run.steps;
      var stopped, output, stepIn, stepOut := ExecuteStep(run, j, outputs, i, vars, totalIn, totalOut);
      if stopped {
        return;
      }
      SumStep(run.steps, i);
      assert (outputs + [output])[..i] == outputs;
      vars := vars[OutputVar(j.d.steps[i].stepID) := output];
      outputs := outputs + [output];
      totalIn, totalOut := totalIn + stepIn, totalOut + stepOut;
    }
    assert run.steps[..|j.d.steps|] == run.steps;
    FinishSteps(run, j, outputs, vars, totalIn, totalOut);
  }

  lemma FirstStepHasBudget(d: Definition, steps: seq<StepState>)
    ensures BudgetLeft(d, steps, 0)
  {
    NothingSummed(steps);
  }

  lemma NothingSummed(steps: seq<StepState>)
    ensures SumInput(steps[..0]) == 0 && SumOutput(steps[..0]) == 0
  {
  }

  // ---------------------------------------------------------------- consequences

  lemma ValidatedTemplatesRender(j: Job, catalog: Option<Resolver>, outputs: seq<string>)
    requires WellFormed(j.d, catalog) && |outputs| <= |j.d.steps|
    ensures if |outputs| < |j.d.steps| then InputOf(j, outputs, |outputs|).Success? else OutputOf(j, outputs).Success?
  {
    hide WellFormed, Rendering, BoundVars, VarsAfter;
    var vars := VarsAfter(j.id, j.d, j.inputs, outputs);
    assert outputs[..|outputs|] == outputs;
    VarsAfterBind(j.id, j.d, j.inputs, outputs);
    if |outputs| < |j.d.steps| {
      ValidatedStepRenders(j.d, catalog, |outputs|, vars);
    } else {
      ValidatedOutputRenders(j.d, catalog, vars);
    }
  }

  /** Soundness of validation: whatever the executor answers and however the run is disturbed, a validated
      definition never fails on a malformed or undefined reference, in a step or in the output.  Only a
      step input over the size limit can still be reported as a render error. */
  lemma ValidatedRunsRender(j: Job, catalog: Option<Resolver>, outputs: seq<string>, r: Snapshot, last: EventKind)
    requires WellFormed(j.d, catalog) && FinalRecord(j, outputs, r)
    requires |outputs| <= |r.steps| == |j.d.steps| && FinalWord(j, outputs, r, last)
    ensures last.WorkflowFailed? ==> !last.reason.RenderFailed?
    ensures r.errorCode == TemplateRender ==>
      && |outputs| < |j.d.steps| && InputOf(j, outputs, |outputs|).Success?
      && |InputOf(j, outputs, |outputs|).value| > 4_194_304
  {
    hide WellFormed, Rendering, InputOf, OutputOf, Done, Walk, WalkCode, SumInput, SumOutput, BudgetLeft;
    ValidatedTemplatesRender(j, catalog, outputs);
  }

  /** A run of a validated definition is COMPLETED exactly when all its steps are. */
  lemma CompletedIffAllStepsCompleted(j: Job, catalog: Option<Resolver>, outputs: seq<string>, r: Snapshot)
    requires WellFormed(j.d, catalog) && FinalRecord(j, outputs, r)
    ensures r.status == RunCompleted <==> forall i | 0 <= i < |r.steps| :: r.steps[i].status == StepCompleted
  {
    hide WellFormed, Rendering, InputOf, OutputOf, MayStart, Walk, WalkCode, Billed, SumInput, SumOutput;
    ValidatedTemplatesRender(j, catalog, outputs);
    if |outputs| == |r.steps| {
      forall i | 0 <= i < |r.steps| ensures r.steps[i].status == StepCompleted {
        assert Done(j, outputs, r.steps, i);
      }
    } else {
      assert r.steps[|outputs|].status != StepCompleted;
    }
  }

  lemma LaterStepsAreSkipped(j: Job, outputs: seq<string>, r: Snapshot)
    requires FinalRecord(j, outputs, r)
    ensures forall i | |outputs| < i < |r.steps| :: r.steps[i].status == StepSkipped
  {
    forall i | |outputs| < i < |r.steps| ensures r.steps[i].status == StepSkipped {
      assert Untouched(j.d, r.steps, i, StepSkipped);
    }
  }

  /** No step starts once the earlier steps have used up the token budget. */
  lemma BudgetIsRespected(j: Job, outputs: seq<string>, r: Snapshot, i: nat)
    requires FinalRecord(j, outputs, r) && i < |r.steps| && r.steps[i].status != StepSkipped
    ensures j.d.limits.maxTotalTokens > 0 ==>
      SumInput(r.steps[..i]) + SumOutput(r.steps[..i]) < j.d.limits.maxTotalTokens
  {
    hide Rendering, VarsAfter, Walk, WalkCode, Billed, SumInput, SumOutput;
    LaterStepsAreSkipped(j, outputs, r);
    assert i < |outputs| ==> Done(j, outputs, r.steps, i);
  }

  /** A run fails on its budget only when the completed steps have used it up. */
  lemma BudgetFailsOnlyWhenUsed(j: Job, outputs: seq<string>, r: Snapshot)
    requires FinalRecord(j, outputs, r) && r.errorCode == BudgetExceeded
    ensures j.d.limits.maxTotalTokens > 0 && |outputs| < |r.steps| && r.steps[|outputs|].status == StepSkipped
    ensures SumInput(r.steps[..|outputs|]) + SumOutput(r.steps[..|outputs|]) >= j.d.limits.maxTotalTokens
  {
    hide Rendering, VarsAfter, Walk, Billed, SumInput, SumOutput;
  }

  /** The numbers of an accepted definition: twenty steps, five attempts on each pool, texts of 4 MiB. */
  lemma AcceptedRunsAreBounded(j: Job, catalog: Option<Resolver>, outputs: seq<string>, r: Snapshot, i: nat)
    requires WellFormed(j.d, catalog) && FinalRecord(j, outputs, r) && i < |r.steps|
    ensures |r.steps| <= 20 && (1 <= j.d.limits.maxSteps <= 20 ==> |r.steps| <= j.d.limits.maxSteps)
    ensures var s := j.d.steps[i];
      r.steps[i].attempts <= 5 * (1 + if s.fallbackPolicy.Some? then |s.fallbackPolicy.value.allowedPoolIDs| else 0)
    ensures r.steps[i].status != StepSkipped ==>
      i <= |outputs| && InputOf(j, outputs, i).Success? && |InputOf(j, outputs, i).value| <= 4_194_304
  {
    hide Rendering, VarsAfter, WalkCode, Billed, SumInput, SumOutput, Walk, InputOf, BudgetLeft;
    assert StepWellFormed(j.d, catalog, i);
    hide StepWellFormed;
    if r.steps[i].status == StepSkipped {
      SkippedStepsMadeNoAttempt(j, outputs, r, i);
    } else {
      StepsFollowTheirWalk(j, outputs, r, i);
      AttemptsAreFew(j.d.steps[i], r.steps[i].attempts);
      assert i < |outputs| ==> Done(j, outputs, r.steps, i);
    }
  }

  lemma SkippedStepsMadeNoAttempt(j: Job, outputs: seq<string>, r: Snapshot, i: nat)
    requires FinalRecord(j, outputs, r) && i < |r.steps| && r.steps[i].status == StepSkipped
    ensures r.steps[i].attempts == 0
  {
    hide Rendering, VarsAfter, WalkCode, Billed, SumInput, SumOutput, Walk, InputOf, BudgetLeft;
    assert forall x | 0 <= x < |outputs| :: Done(j, outputs, r.steps, x) && r.steps[x].status == StepCompleted;
    assert i > |outputs| ==> Untouched(j.d, r.steps, i, StepSkipped);
  }

  lemma AttemptsAreFew(s: Step, attempts: nat)
    requires s.retryPolicy.Some? ==> 1 <= s.retryPolicy.value.maxAttempts <= MAX_ATTEMPTS_CAP
    requires attempts <= MaxCalls(s)
    ensures attempts <= 5 * (1 + if s.fallbackPolicy.Some? then |s.fallbackPolicy.value.allowedPoolIDs| else 0)
  {
    MulMono(Tries(s), 5, |Targets(s)|);
  }

  /** What a step hands on: a later step whose text is the reference to an earlier one is sent that one's output,
      as it is; a reference to an input is sent the input, or nothing if it was left out. */
  lemma OutputsAreHandedOn(j: Job, catalog: Option<Resolver>, outputs: seq<string>, i: nat, k: nat)
    requires WellFormed(j.d, catalog) && k < i <= |outputs| <= |j.d.steps| && i < |j.d.steps|
    requires j.d.steps[i].inputMapping == map["text" := "{{steps." + j.d.steps[k].stepID + ".output}}"]
    ensures InputOf(j, outputs, i) == Success(outputs[k])
  {
    hide Rendering, VarsAfter, InputOf, StepWellFormed, ValidStepID, IsDottedPath, OutputVar;
    var id := j.d.steps[k].stepID;
    var vars := VarsAfter(j.id, j.d, j.inputs, outputs[..i]);
    StepIDIsValid(j.d, catalog, k);
    BoundToItsOutput(j.id, j.d, j.inputs, outputs[..i], k);
    TextIsRendered(j, outputs, i, "{{steps." + id + ".output}}");
    OutputReferenceRenders(id, vars);
  }

  lemma StepIDIsValid(d: Definition, catalog: Option<Resolver>, k: nat)
    requires WellFormed(d, catalog) && k < |d.steps|
    ensures ValidStepID(d.steps[k].stepID)
  {
    assert StepWellFormed(d, catalog, k);
  }

  lemma TextIsRendered(j: Job, outputs: seq<string>, i: nat, text: string)
    requires i <= |outputs| <= |j.d.steps| && i < |j.d.steps| && j.d.steps[i].inputMapping == map["text" := text]
    ensures InputOf(j, outputs, i) == Rendering(text, VarsAfter(j.id, j.d, j.inputs, outputs[..i]))
  {
    hide Rendering, VarsAfter;
  }

  lemma OutputReferenceRenders(id: string, vars: Vars)
    requires ValidStepID(id) && OutputVar(id) in vars
    ensures Rendering("{{steps." + id + ".output}}", vars) == Success(vars[OutputVar(id)])
  {
    hide Rendering, ValidStepID, IsDottedPath;
    OutputIsDotted(id);
    PlainReferenceRenders(OutputVar(id), vars);
    OutputReferenceIs(id);
  }

  lemma OutputReferenceIs(id: string)
    ensures "{{" + OutputVar(id) + "}}" == "{{steps." + id + ".output}}"
  {
  }

  lemma InputReferenceIs(name: string)
    ensures "{{" + InputVar(name) + "}}" == "{{inputs." + name + "}}"
  {
  }

  lemma InputReferenceRenders(name: string, vars: Vars)
    requires name != "" && (forall x | 0 <= x < |name| :: IsWordChar(name[x])) && InputVar(name) in vars
    ensures Rendering("{{inputs." + name + "}}", vars) == Success(vars[InputVar(name)])
  {
    hide Rendering, IsDottedPath;
    InputIsDotted(name);
    PlainReferenceRenders(InputVar(name), vars);
    InputReferenceIs(name);
  }

  lemma {:induction false} BoundToItsOutput(id: string, d: Definition, inputs: map<string, string>,
                                            outputs: seq<string>, k: nat)
    requires k < |outputs| <= |d.steps|
    requires forall a, b | 0 <= a < b < |d.steps| :: d.steps[a].stepID != d.steps[b].stepID
    ensures var v := OutputVar(d.steps[k].stepID);
      v in VarsAfter(id, d, inputs, outputs) && VarsAfter(id, d, inputs, outputs)[v] == outputs[k]
  {
    var n := |outputs| - 1;
    if k < n {
      BoundToItsOutput(id, d, inputs, outputs[..n], k);
      OutputVarsDiffer(d.steps[k].stepID, d.steps[n].stepID);
    }
  }

  lemma OutputVarsDiffer(a: string, b: string)
    ensures OutputVar(a) == OutputVar(b) ==> a == b
  {
    var x, y := OutputVar(a), OutputVar(b);
    assert x[6..|x| - 7] == a && y[6..|y| - 7] == b;
  }

  /** So is an input, and an optional one that was not given counts as empty. */
  lemma InputsAreHandedIn(j: Job, outputs: seq<string>, i: nat, name: string)
    requires i <= |outputs| <= |j.d.steps| && i < |j.d.steps|
    requires name in InputNames(j.d) && name != "" && forall x | 0 <= x < |name| :: IsWordChar(name[x])
    requires j.d.steps[i].inputMapping == map["text" := "{{inputs." + name + "}}"]
    ensures InputOf(j, outputs, i) == Success(if name in j.inputs then j.inputs[name] else "")
  {
    hide Rendering, VarsAfter, InputOf, InputVar;
    BoundToItsInput(j.id, j.d, j.inputs, outputs[..i], name);
    TextIsRendered(j, outputs, i, "{{inputs." + name + "}}");
    InputReferenceRenders(name, VarsAfter(j.id, j.d, j.inputs, outputs[..i]));
  }

  lemma {:induction false} BoundToItsInput(id: string, d: Definition, inputs: map<string, string>,
                                           outputs: seq<string>, name: string)
    requires |outputs| <= |d.steps| && name in InputNames(d)
    ensures var v, vars := InputVar(name), VarsAfter(id, d, inputs, outputs);
      v in vars && vars[v] == if name in inputs then inputs[name] else ""
  {
    if outputs == [] {
      InputBound(id, d, inputs, name);
    } else {
      var n := |outputs| - 1;
      BoundToItsInput(id, d, inputs, outputs[..n], name);
      assert OutputVar(d.steps[n].stepID)[0] == 's' && InputVar(name)[0] == 'i';
    }
  }

  lemma InputBound(id: string, d: Definition, inputs: map<string, string>, name: string)
    requires name in InputNames(d)
    ensures var v, vars := InputVar(name), BaseVars(id, d, inputs);
      v in vars && vars[v] == if name in inputs then inputs[name] else ""
  {
    var v := InputVar(name);
    assert v[|InputVar("")|..] == name;
    forall x: string | InputVar(x) == v ensures x == name {
      assert InputVar(x)[|InputVar("")|..] == x;
    }
    assert v in AsInputVars(map n | n in InputNames(d) :: "");
    assert v in AsInputVars(inputs) <==> name in inputs;
  }

  /** And the run's id is its own. */
  lemma RunIDIsHandedIn(j: Job, outputs: seq<string>, i: nat)
    requires i <= |outputs| <= |j.d.steps| && i < |j.d.steps|
    requires j.d.steps[i].inputMapping == map["text" := "{{run.id}}"]
    ensures InputOf(j, outputs, i) == Success(j.id)
  {
    hide Rendering, VarsAfter, InputOf, IsDottedPath;
    BoundToTheRun(j.id, j.d, j.inputs, outputs[..i]);
    TextIsRendered(j, outputs, i, "{{run.id}}");
    RunIDReferenceRenders(VarsAfter(j.id, j.d, j.inputs, outputs[..i]));
  }

  lemma RunIDReferenceRenders(vars: Vars)
    requires "run.id" in vars
    ensures Rendering("{{run.id}}", vars) == Success(vars["run.id"])
  {
    hide Rendering, IsDottedPath;
    RunIDIsDotted();
    PlainReferenceRenders("run.id", vars);
    RunIDReferenceIs();
  }

  lemma RunIDReferenceIs()
    ensures "{{" + "run.id" + "}}" == "{{run.id}}"
  {
  }

  lemma {:induction false} BoundToTheRun(id: string, d: Definition, inputs: map<string, string>,
                                         outputs: seq<string>)
    requires |outputs| <= |d.steps|
    ensures var vars := VarsAfter(id, d, inputs, outputs); "run.id" in vars && vars["run.id"] == id
  {
    if outputs == [] {
      RunIDBound(id, d, inputs);
    } else {
      var n := |outputs| - 1;
      BoundToTheRun(id, d, inputs, outputs[..n]);
      assert OutputVar(d.steps[n].stepID)[0] == 's' && "run.id"[0] == 'r';
    }
  }

  lemma RunIDBound(id: string, d: Definition, inputs: map<string, string>)
    ensures var vars := BaseVars(id, d, inputs); "run.id" in vars && vars["run.id"] == id
  {
    forall m: map<string, string> ensures "run.id" !in AsInputVars(m) {
      forall name | name in m ensures InputVar(name) != "run.id" {
        assert InputVar(name)[0] == 'i' && "run.id"[0] == 'r';
      }
    }
  }

  /** A step that started made at most tries x (1 + fallback pools) calls, following its walk. */
  lemma StepsFollowTheirWalk(j: Job, outputs: seq<string>, r: Snapshot, i: nat)
    requires FinalRecord(j, outputs, r) && i < |r.steps| && r.steps[i].status != StepSkipped
    ensures i <= |outputs| && InputOf(j, outputs, i).Success?
    ensures r.steps[i].decisions <= Walk(j.exec, i, j.d.steps[i], InputOf(j, outputs, i).value)
    ensures r.steps[i].status != StepCancelled ==>
      r.steps[i].decisions == Walk(j.exec, i, j.d.steps[i], InputOf(j, outputs, i).value)
    ensures r.steps[i].attempts == |r.steps[i].decisions| <= MaxCalls(j.d.steps[i])
  {
    hide Rendering, VarsAfter, WalkCode, Billed, SumInput, SumOutput;
    LaterStepsAreSkipped(j, outputs, r);
    assert i < |outputs| ==> Done(j, outputs, r.steps, i);
  }

  /** A completed step holds the text and the usage of the reply to its last attempt, a chat completion with a
      status below 400. */
  lemma CompletedStepsHoldTheirReply(j: Job, outputs: seq<string>, r: Snapshot, i: nat)
    requires FinalRecord(j, outputs, r) && i < |outputs|
    ensures InputOf(j, outputs, i).Success? && r.steps[i].attempts > 0
    ensures var st := r.steps[i]; var reply := j.exec(i, st.attempts, InputOf(j, outputs, i).value);
      && reply.Replied? && reply.statusCode < 400 && reply.content == Some(outputs[i])
      && st.inputTokens == (if reply.usageIn.Some? then reply.usageIn.value else 0)
      && st.outputTokens == (if reply.usageOut.Some? then reply.usageOut.value else 0)
  {
    hide InputOf, SumInput, SumOutput;
    assert Done(j, outputs, r.steps, i);
    var s, st := j.d.steps[i], r.steps[i];
    CodeByTheLastError(j.exec, i, s, InputOf(j, outputs, i).value);
  }

  /** A run that failed in a step says why, by the error of the step's last attempt; only a timeout of that
      attempt makes the step TIMED_OUT. */
  lemma FailedStepsSayWhy(j: Job, outputs: seq<string>, r: Snapshot)
    requires FinalRecord(j, outputs, r) && |outputs| < |r.steps|
    requires r.steps[|outputs|].status in {StepFailed, StepTimedOut}
    ensures var st := r.steps[|outputs|];
      && r.status == RunFailed && r.errorCode == st.errorCode && st.inputTokens == st.outputTokens == 0
      && (st.decisions == [] ==> st.errorCode == NoEligible && st.status == StepFailed)
      && (st.decisions != [] ==>
           var error := st.decisions[|st.decisions| - 1].errorCode;
           && error != None && (st.status == StepTimedOut <==> error == Some(ErrInferenceTimeout))
           && (error == Some(ErrInferenceTimeout) ==> st.errorCode == StepTimeout)
           && (error == Some(ErrInvalidRequest) ==> st.errorCode == InputValidation)
           && (error in {Some(ErrCapacityExhausted), Some(ErrModelNotAvailable), Some(ErrPlatformNotReady)}
               ==> st.errorCode == NoEligible)
           && (error in {Some(ErrInternalContract)} || error.value.ErrOther? ==> st.errorCode == InvalidResponse))
  {
    hide InputOf, SumInput, SumOutput, Walk, WalkCode;
    var s := j.d.steps[|outputs|];
    CodeByTheLastError(j.exec, |outputs|, s, InputOf(j, outputs, |outputs|).value);
  }

  /** However two executions of one job are disturbed, what both got done is the same. */
  lemma {:induction false} CommonProgressAgrees(j: Job, o1: seq<string>, s1: seq<StepState>, o2: seq<string>,
                                                s2: seq<StepState>, n: nat)
    requires Chain(j, o1, s1) && Chain(j, o2, s2) && n <= |o1| && n <= |o2|
    ensures o1[..n] == o2[..n] && s1[..n] == s2[..n]
  {
    hide Rendering, VarsAfter, Walk, WalkCode, Answer, SumInput, SumOutput, BudgetLeft;
    if n > 0 {
      CommonProgressAgrees(j, o1, s1, o2, s2, n - 1);
      assert Done(j, o1, s1, n - 1) && Done(j, o2, s2, n - 1);
      assert s1[n - 1] == s2[n - 1] && o1[n - 1] == o2[n - 1];
      assert o1[..n] == o1[..n - 1] + [o1[n - 1]] && o2[..n] == o2[..n - 1] + [o2[n - 1]];
      assert s1[..n] == s1[..n - 1] + [s1[n - 1]] && s2[..n] == s2[..n - 1] + [s2[n - 1]];
    }
  }

  lemma LongerRunWasNotStopped(j: Job, o1: seq<string>, r1: Snapshot, o2: seq<string>, r2: Snapshot)
    requires FinalRecord(j, o1, r1) && FinalRecord(j, o2, r2) && !WasInterrupted(r1)
    ensures |o1| >= |o2|
  {
    hide Rendering, VarsAfter, Walk, Answer, Billed, SumInput, SumOutput;
    var k := |o1|;
    if k < |o2| {
      CommonProgressAgrees(j, o1, r1.steps, o2, r2.steps, k);
      assert Done(j, o2, r2.steps, k);
      assert o1[..k] == o2[..k];
      BudgetFrame(j.d, r1.steps, r2.steps, k);
      assert false;
    }
  }

  lemma SameStop(j: Job, outputs: seq<string>, r1: Snapshot, r2: Snapshot)
    requires |outputs| < |r1.steps| == |r2.steps| == |j.d.steps| && r1.steps[..|outputs|] == r2.steps[..|outputs|]
    requires StoppedAtStep(j, outputs, r1) && StoppedAtStep(j, outputs, r2)
    requires !WasInterrupted(r1) && !WasInterrupted(r2)
    ensures r1.status == r2.status && r1.errorCode == r2.errorCode && r1.steps[|outputs|] == r2.steps[|outputs|]
  {
    hide InputOf, Walk, WalkCode, SumInput, SumOutput;
    BudgetFrame(j.d, r1.steps, r2.steps, |outputs|);
  }

  /** Without cancellation and deadline the finished record is a function of the executor's answers. */
  lemma UndisturbedRunsAgree(j: Job, o1: seq<string>, r1: Snapshot, o2: seq<string>, r2: Snapshot)
    requires FinalRecord(j, o1, r1) && FinalRecord(j, o2, r2) && !WasInterrupted(r1) && !WasInterrupted(r2)
    ensures o1 == o2 && r1.(output := r2.output) == r2
    ensures r1.status == RunCompleted ==> r1 == r2
  {
    LongerRunWasNotStopped(j, o1, r1, o2, r2);
    LongerRunWasNotStopped(j, o2, r2, o1, r1);
    hide Chain, InputOf, SumInput, SumOutput, Rendering, StoppedAtStep;
    CommonProgressAgrees(j, o1, r1.steps, o2, r2.steps, |o1|);
    assert o1 == o1[..|o1|] && o2 == o2[..|o1|];
    SameLength(j, o1, r1.steps, r2.steps);
    if |o1| < |r1.steps| {
      SameStop(j, o1, r1, r2);
    }
    forall i | 0 <= i < |r1.steps| ensures r1.steps[i] == r2.steps[i] {
      if i < |o1| {
        assert r1.steps[..|o1|][i] == r2.steps[..|o1|][i];
      } else if i > |o1| {
        assert Untouched(j.d, r1.steps, i, StepSkipped) && Untouched(j.d, r2.steps, i, StepSkipped);
      }
    }
    assert r1.steps == r2.steps;
  }

  /** They also announce the same events, up to the wording of the last. */
  lemma UndisturbedRunsSayTheSame(j: Job, o1: seq<string>, r1: Snapshot, own1: seq<EventKind>,
                                  o2: seq<string>, r2: Snapshot, own2: seq<EventKind>)
    requires FinalRecord(j, o1, r1) && FinalRecord(j, o2, r2) && !WasInterrupted(r1) && !WasInterrupted(r2)
    requires LogExplained(j, o1, r1, own1) && LogExplained(j, o2, r2, own2)
    ensures own1[..|own1| - 1] == own2[..|own2| - 1]
  {
    UndisturbedRunsAgree(j, o1, r1, o2, r2);
    NotCutOff(j, o1, r1);
    hide FinalRecord, DoneLog, StepLog;
  }

  /** The last one too, its wording included. */
  lemma UndisturbedRunsEndAlike(j: Job, o1: seq<string>, r1: Snapshot, last1: EventKind,
                                o2: seq<string>, r2: Snapshot, last2: EventKind)
    requires FinalRecord(j, o1, r1) && FinalRecord(j, o2, r2) && !WasInterrupted(r1) && !WasInterrupted(r2)
    requires |o1| <= |r1.steps| == |j.d.steps| && FinalWord(j, o1, r1, last1) && Fits(last1, r1.status)
    requires |o2| <= |r2.steps| == |j.d.steps| && FinalWord(j, o2, r2, last2) && Fits(last2, r2.status)
    ensures last1 == last2
  {
    UndisturbedRunsAgree(j, o1, r1, o2, r2);
    hide FinalRecord, InputOf, OutputOf, ReasonAfter;
  }

  lemma NotCutOff(j: Job, outputs: seq<string>, r: Snapshot)
    requires FinalRecord(j, outputs, r) && !WasInterrupted(r)
    ensures |outputs| < |r.steps| ==> r.steps[|outputs|].status != StepCancelled
  {
    hide Chain, InputOf, Walk, WalkCode, Rendering, VarsAfter, SumInput, SumOutput;
  }

  lemma SameLength(j: Job, outputs: seq<string>, a: seq<StepState>, b: seq<StepState>)
    requires Chain(j, outputs, a) && Chain(j, outputs, b)
    ensures |outputs| <= |a| == |b| == |j.d.steps|
  {
  }
}
