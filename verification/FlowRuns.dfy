/** From a published definition to a finished run: validation (platform/workflow/flowdef.go), then StartRun and
    the goroutine it spawns (platform/workflow/service.go). */
module FlowRuns {
  import opened Wrappers
  import opened Templates
  import opened FlowDefinitions
  import opened Runs
  import opened Attempts
  import opened Runner

  /** The run that StartRun creates and hands to its goroutine, which other goroutines may reach before it does. */
  method Spawn(j: Job) returns (run: Run)
    ensures fresh(run) && ReadyAt(run, j, [], Spawned)
    ensures run.slotsReturned == 0 && Own(run.events) == [WorkflowQueued]
  {
    hide SumInput, SumOutput, Done, Finished;
    var stepIDs := seq(|j.d.steps|, i requires 0 <= i < |j.d.steps| => j.d.steps[i].stepID);
    run := new Run(j.id, stepIDs);
    assert run.events[..0] == [];
    forall i | 0 <= i < |run.steps| ensures Untouched(j.d, run.steps, i, StepPending) {
    }
    run.Interfere(0);
  }

  predicate NoRenderFailure(last: EventKind) {
    last.WorkflowFailed? ==> !last.reason.RenderFailed?
  }

  /** Publish's validation, StartRun's check of the inputs and the whole run: a definition and inputs that are
      accepted give a run that ends with an explained record and log and never fails on a reference. */
  method RunFlow(j: Job, catalog: Option<Resolver>) returns (run: Option<Run>, ghost outputs: seq<string>)
    ensures run.Some? <==> WellFormed(j.d, catalog) && InputsValid(j.d, j.inputs)
    ensures run.Some? ==> fresh(run.value) && run.value.Observable(|outputs|) && run.value.stage == Released
    ensures run.Some? ==> FinalRecord(j, outputs, run.value.Snap()) && Explained(run.value, j, outputs)
    ensures run.Some? ==> OneFinal(Own(run.value.events), run.value.status)
    ensures run.Some? ==> NoRenderFailure(Own(run.value.events)[|Own(run.value.events)| - 1])
    ensures run.Some? && run.value.errorCode == TemplateRender ==>
      && |outputs| < |j.d.steps| && InputOf(j, outputs, |outputs|).Success?
      && |InputOf(j, outputs, |outputs|).value| > 4_194_304
  {
    hide WellFormed, InputsValid, FinalRecord, Explained, FinalWord, OneFinal, Own, Run.Observable, InputOf, ReadyAt;
    outputs := [];
    var faults := Validate(j.d, catalog);
    if faults != [] {
      return None, outputs;
    }
    var refused := ValidateInputs(j.d, j.inputs);
    if refused.Some? {
      return None, outputs;
    }
    var spawned := Spawn(j);
    outputs := Execute(spawned, j);
    ghost var last := Own(spawned.events)[|Own(spawned.events)| - 1];
    ValidatedRunsRender(j, catalog, outputs, spawned.Snap(), last);
    run := Some(spawned);
  }
}
