# Verification of the Native LLM Platform

A Dafny model of the parts of the platform that decide what happens to a request, a workflow run, a
conversation or a configuration, with proofs of what they promise. `dafny verify dfyconfig.toml` checks it.

## What is modelled

**Workflow engine** (`platform/workflow`)

- `Templates`: the template scanner and single-pass rendering, with an independent definition of a reference
  and a proof that the split of a template is unique.
- `FlowDefinitions`: the static validator, proved to report exactly the violated rules, and to accept exactly
  the well-formed definitions.
- `Runs`, `Attempts`, `Runner`: a run as an object whose methods are the critical sections of the store; the
  retry walk of a step; the runner loop. `Run.Interfere` stands between any two critical sections for any
  number of cancel requests and for the deadline, so what is proved of `Runner.Execute` holds under every
  interleaving. The executor is an arbitrary function from step, attempt and text to an outcome.
  `FinalRecord` explains a finished run; the theorems at the end of `Runner` are read off it, and `FlowRuns`
  joins validation, start and execution.
- `RunProtocol`: all runs, the semaphore and CancelRun as small steps.
- `EventStream`: emitters, deliveries and subscriptions as small steps.
- `RunRestarts`: what reopening the run store makes of runs that were under way.
- `Idempotency`, `RunStarts`: the hash inputs and the idempotent start.
- `FlowStores`: the versioned flow store over an explicit disk, with every image a crash may leave;
  `FlowLifecycles`: its operations one after another.
- `PublishGap`: PublishFlow validates and freezes in two critical sections; edits, failed writes and crashes
  come in between.

**Conversation memory** (`platform/memory`): `Conversations` and `ContextBuilder`.

**Routing** (`platform/pool`, `platform/orchestrator`): `Pools`, `Orchestrators`, `Admission`.

**Gateway core**: `ConfigGenerations` (signed configuration generations), `RateLimiters`, and `InitNames` with
`Decimals` (names in a discovered configuration).

Each imperative method is tied to a specification function or predicate, and the lemmas are about those. The
log of a run is fixed event by event; between two events only the active status of a step, running or
retrying, is left open. A run carries its stage as a ghost field, so the order of the runner's sections is
part of their contracts. It also carries, as ghosts, the protocol steps taken so far and the records handed to
the disk: every section adds to both, `Run.Observable` says that they explain what others see of the run,
`RunProtocol.AnExecutionIsASchedule` that executions are schedules of the protocol, and
`RunRestarts.RestartEndsWhatARunWrote` that whatever a run wrote is ended by a restart.

What the specification functions say is stated a second time without them where a reader would want it in plain
terms: which errors are tried again (`TriedAgainAfterThreeCodesOnly`), which references a template may hold
(`AllowedIff`), what becomes of an answer (`CompletedStepsHoldTheirReply`, `FailedStepsSayWhy`), after what a
request is not sent again (`NothingFollowsAnAnswerOrTimeout`), which node comes first (`LessLoadedComesFirst`), and
what an author's edit turns into (`CreateEditPublish`, `OutputsAreHandedOn`).

## Results worth knowing

- Publishing has no gap within one process lifetime. `PublishIsSafeIff`: after a crash between `draft.json`
  and `meta.json` the draft is newer than the revision in memory, and a publisher that validates it then can
  freeze a content that nobody validated (`UnvalidatedContentIsFrozen` is such a run).
  `RestartBlocksPublishingIff`: after a crash or a failed write between `v<N>.json` and `meta.json` the flow
  can never be published again after a restart (`CrashBlocksPublishing`).
- `OpenableIff` and `InterruptedCreateIsRefused`: a Create that stops or fails between its directory and its
  `meta.json` makes every later start of the workflow service fail (`platform/workflow/store.go:91-94`);
  updates, publishes and status changes never do.
- `RestartReportsTheLoadedIff`: a restart reports the version of the loaded configuration exactly when the
  generation it reports has the content of that configuration, over every run of imports that give each version
  a content of its own. `RestartMisreports` shows the two ways in which it does not: a crash between the switch
  and the marker, and, while there is no marker yet, a crash behind a generation file that was never switched
  to. `RetryAfterCrashIff`: a crashed import can be repeated without force only if it had written nothing.
- `RetryIsAbsorbedIff`: a retry under the same request id is stored a second time exactly when its version is
  current and 256 other turns were applied since. The program reads the version afresh for every request
  (`platform/orchestrator/orchestrator.go:172`, `:241`), so every late enough retry is stored twice
  (`RetryIsStoredTwiceIff`).
- `RegisteredFirstIsBalanced`: the in-flight count of a node is exact if the node is registered before its first
  request. `InflightBalancedIff` gives the exact condition for the pool in general and `EarlyRequestIsUncounted`
  a way to miss it. That is a limit of the pool type which this program does not meet: only `Manager.Apply`
  registers nodes (`platform/modelmanager/manager.go:88`, `:113`), once at startup
  (`platform/platform.go:98`).
- `PartsAreDistinguishedIff`: a list of parts without NULs has bytes of its own among the lists of its length,
  and no other list has. Run inputs are hashed only after they were accepted
  (`platform/workflow/service.go:233`), and `AcceptedInputsAreToldApartIff` says for which definitions that is
  enough: inputs without NULs share their bytes with no other accepted inputs if every declared name, except
  possibly the first in order, is required; with any other optional name and room in the limits, some do.
  `InputsAreDistinguished`: two inputs that are both without NULs are always told apart.
  `InputsAreUnmistakableIff` is the condition on the bytes alone, over all maps.
- `TheBoundIsReached`: the bound of 2 x limit - 1 requests in a minute, sharper than twice the limit, is exact.
- Where the code and its comments differ the code is followed: a turn's version is checked before its request
  id is looked up (`platform/memory/memory.go:233-240`), the estimate of a built context leaves summaries out
  (`platform/memory/context.go:9-10`), and syntax errors are searched in the literals after references are
  removed and joined (`platform/workflow/template.go:32-33`).

## Model

| member | source | states |
|---|---|---|
| `Templates.MatchIsExact` | `platform/workflow/template.go:15-19` | The scanner finds a reference of length n and path p at the front of a text iff the first n characters spell `{{`, blanks, the dotted path p, blanks, `}}` |
| `Templates.ScanPrints` | `platform/workflow/template.go:22-28` | Scanning loses nothing: printing the pieces restores the template, and no reference is left inside a literal |
| `Templates.ScanIsUnique` | `platform/workflow/template.go:22-28` | A list of pieces prints to the template and leaves no reference in a literal iff it is the scan: the split is unique |
| `Templates.TemplateRefs` | `platform/workflow/template.go:22-28` | The loop returns the paths of the scan, in order |
| `Templates.RenderTemplate` | `platform/workflow/template.go:41-59` | The loop returns the rendering: a syntax error, else all missing paths, else the literals interleaved with the values |
| `Templates.RenderSucceedsIff` | `platform/workflow/template.go:31-59` | Rendering succeeds iff the joined literals hold no opening braces and every referenced path has a value |
| `Templates.RenderReadsRefsOnly` | `platform/workflow/template.go:41-59` | Two environments that agree on the referenced paths render alike, failures included |
| `Templates.ValuesAreNotRescanned` | `platform/workflow/template.go:41-59` | Around any reference, the output is the rendering of what is left, the value verbatim, the rendering of what is right, whatever the value contains |
| `Templates.PatternCharacters` | `platform/workflow/template.go:15` | The characters of an identifier and of the blanks around it, one by one |
| `Templates.OneReferenceRenders` | `platform/workflow/template.go:15-59` | A template that is one reference, blanks or not, renders to the value of its path, or reports that path |
| `Templates.LooseBraceIsSpelled` | `platform/workflow/template.go:19` | What is searched in the joined literals is `{{`, anywhere |
| `Templates.TextWithoutReferences` | `platform/workflow/template.go:22-59` | A text that closes no brace renders to itself, or is malformed if it opens two |
| `FlowDefinitions.JoinSplit` | `platform/workflow/flowdef.go:257-286` | Splitting a path at dots and joining it again restores it |
| `FlowDefinitions.ClassifiedPath` | `platform/workflow/flowdef.go:257-286` | A path that the checker accepts as an input, a step output or the run id is exactly the name under which the runner binds that value |
| `FlowDefinitions.CheckRefs` | `platform/workflow/flowdef.go:257-286` | Reports exactly the faults of a template: malformed, undeclared input, unknown step, step not depended on, anything else; `FaultByTheText` and `AllowedIff` say which texts these are |
| `FlowDefinitions.AllowedIff` | `platform/workflow/flowdef.go:257-286` | A reference is accepted iff its text is `run.id`, `inputs.` and a declared name, or `steps.`, a dependency and `.output` |
| `FlowDefinitions.FaultByTheText` | `platform/workflow/flowdef.go:257-286` | Which fault the text of a reference gets: undeclared input, unknown step, step not depended on; and none iff it is accepted |
| `FlowDefinitions.HandingOnIsAllowedIff` | `platform/workflow/flowdef.go:257-286` | A text that hands on a step's output is accepted iff the step is a dependency, one that hands on an input iff it is declared, and one that is the run id always |
| `FlowDefinitions.IdentifiersAreSpelled` | `platform/workflow/flowdef.go:98-99` | Step ids and aliases, by length and alphabet |
| `FlowDefinitions.ValidateStep` | `platform/workflow/flowdef.go:181-235` | Reports exactly the rules that a step violates, given the ids seen before it |
| `FlowDefinitions.ValidateHeader` | `platform/workflow/flowdef.go:123-145` | Reports exactly the violated rules on name, alias and modes |
| `FlowDefinitions.ValidateLimits` | `platform/workflow/flowdef.go:137-153` | Reports exactly the violated rules on parallelism and step count, with the cap of twenty |
| `FlowDefinitions.ValidateSchema` | `platform/workflow/flowdef.go:155-177` | Reports exactly the violated rules of the input schema |
| `FlowDefinitions.ValidateSteps` | `platform/workflow/flowdef.go:179-235` | Reports exactly the violations of all steps, each judged by the valid ids before it |
| `FlowDefinitions.ValidateOutput` | `platform/workflow/flowdef.go:237-251` | Reports exactly the violated rules of the output mapping |
| `FlowDefinitions.Validate` | `platform/workflow/flowdef.go:123-253` | A fault is reported iff its rule is violated; no fault is reported iff the definition is well formed, where a reference is allowed exactly under the names of `AllowedIff` |
| `FlowDefinitions.WellFormedIffNoViolation` | `platform/workflow/flowdef.go:123-253` | The rules checked one at a time amount to one closed description: distinctly named steps in a chain, each reading only inputs, the run id and outputs of earlier steps it depends on |
| `FlowDefinitions.ValidateInputs` | `platform/workflow/flowdef.go:290-313` | Accepts iff all required inputs are present, all given ones declared and none too long; a refusal names a real offence |
| `FlowDefinitions.LimitsByTheNumbers` | `platform/workflow/flowdef.go:137-313` | At most the steps that a definition allows itself, and never more than 20; one to five attempts; inputs up to their own limit, or 100000 without one |
| `FlowDefinitions.AllowedIsBound` | `platform/workflow/flowdef.go:257-286` | A reference that the checker allows at step i is bound when the runner reaches step i |
| `FlowDefinitions.ValidatedStepRenders` | `platform/workflow/flowdef.go:123-286` | With the variables of step i bound, the input template of a validated step renders, whatever the values |
| `FlowDefinitions.ValidatedOutputRenders` | `platform/workflow/flowdef.go:237-251` | With all step outputs bound, the output template of a validated definition renders |
| `Runs.Run.constructor` | `platform/workflow/service.go:252-273` | A new run is queued with every step pending, has announced only that it is queued, and its record is the first one handed to the disk |
| `Runs.Run.Emit` | `platform/workflow/run.go:284-308` | Appends one event numbered one above the last, so event k carries number k+1 |
| `Runs.Run.Replay` | `platform/workflow/run.go:311-334` | Returns exactly the logged events numbered above the given one |
| `Runs.Run.RequestCancel` | `platform/workflow/service.go:281-300` | A terminal run is left alone; any other becomes CANCELLING and hands out its cancel function; the record is handed to the disk either way |
| `Runs.Run.CancelWasAsked` | `platform/workflow/service.go:281-300` | Whoever finds a run cancelling, cancelled, its context cancelled or a cancel call under way finds that CancelRun was called before |
| `Runs.Run.Interfere` | `platform/workflow/service.go:281-309` | Whatever CancelRun calls and the deadline do between two critical sections of the runner: no step, total or terminal status changes, and the runner's own events stay as they are; a done context stays done for the same cause |
| `Runs.Run.Fail` | `platform/workflow/service.go:626-643` | FAILED with the code, pending steps from the given one skipped, totals equal to the sums over all steps |
| `Runs.Run.Interrupt` | `platform/workflow/service.go:659-671` | Status and code as given; from the given step on, pending becomes skipped and active becomes cancelled; totals are not touched |
| `Runs.Run.Conclude` | `platform/workflow/service.go:644-674` | After the decision: one final event that fits the status, then `done` is closed, once, in that order |
| `Runs.Run.Start` | `platform/workflow/service.go:365-369` | Only a spawned run starts: RUNNING is written over any cancel request and the cancel function is published |
| `Runs.Run.SetStepStatus` | `platform/workflow/service.go:407-410` | Only the status of one step changes, other goroutines see no change, and the record handed to the disk keeps its shape |
| `Runs.Run.RecordAttempt` | `platform/workflow/service.go:517-529` | One attempt is recorded and billed on success; other goroutines see no change, and the record handed to the disk keeps its shape |
| `Runs.Run.FailStep` | `platform/workflow/service.go:419-428` | The step is FAILED or TIMED_OUT with its code; other goroutines see no change, and the record handed to the disk keeps its shape |
| `Runs.Run.ReturnSlot` | `platform/workflow/service.go:355` | The slot is returned once, after `done` was closed |
| `Runs.OneMoreStep` | `platform/workflow/service.go:354-470` | A step taken extends the history that explains what others see of the run |
| `Runs.SkippingFinishes` | `platform/workflow/service.go:626-643` | Failing at the cursor step turns a run in progress into COMPLETED steps, at most one FAILED or TIMED_OUT, then SKIPPED steps |
| `Runs.InterruptingFinishes` | `platform/workflow/service.go:659-671` | Interrupting turns a run in progress into COMPLETED steps, at most one CANCELLED, then SKIPPED steps |
| `Attempts.WalkVisitsTargetsInOrder` | `platform/workflow/service.go:487-528` | Decision k has attempt number k+1; the first tries go to the step's own pool and the others, in order, to the fallback pools, marked as such; it carries the answer's error |
| `Attempts.OnlyRetryableFailuresAreRetried` | `platform/workflow/service.go:530-544` | Every decision but the last failed retryably; a success or a timeout is always the last |
| `Attempts.WalkStopsForAReason` | `platform/workflow/service.go:474-553` | At most tries times (1 + fallback pools) calls, fewer only after a decisive answer |
| `Attempts.AnswersAreRecorded` | `platform/workflow/service.go:602-623` | What each answer becomes in its decision: the executor's own error, an internal one for a status of 400 or more or a body that is no completion, none otherwise |
| `Attempts.TriedAgainAfterThreeCodesOnly` | `platform/workflow/service.go:341-347` | Every decision but the last carries capacity exhausted, model not available or platform not ready; a walk that ends before all attempts on all pools are used ends with another answer |
| `Attempts.CodeByTheLastError` | `platform/workflow/service.go:530-553` | The code of a step, by the error of its last attempt: timeout, input validation, no eligible runtime, invalid response, or none |
| `Attempts.NoEligibleMeansExhausted` | `platform/workflow/service.go:535-553` | The step ends as no-eligible-runtime iff none of the allowed attempts was decisive |
| `Attempts.FallbackOnlyAfterExhaustion` | `platform/workflow/service.go:483-506` | When a fallback pool is used, every attempt on every earlier target was made and failed retryably |
| `Attempts.RunStep` | `platform/workflow/service.go:474-553` | With any interference, the step record ends as the walk over the flattened target list prescribes (or a prefix of it if the run was aborted), only a success is billed, and the retries and fallbacks announced are exactly those of the walk (or the beginning of them); with the context done at the start nothing is attempted |
| `Attempts.TryTarget` | `platform/workflow/service.go:490-548` | The attempts on one target: over with the walk's record and events, or the target exhausted and announced as such |
| `Attempts.Judge` | `platform/workflow/service.go:530-547` | After one attempt: whether the step is over, its code and its message, by the answer's error |
| `Attempts.TryOnce` | `platform/workflow/service.go:495-544` | One turn of the loop: aborted only when the context is done, and then without a trace if it was done before; else one more recorded decision; the retry event comes before every call but the first |
| `Attempts.ToldDecisively` | `platform/workflow/service.go:487-513` | The events announced up to a decisive answer are all that the walk announces |
| `Attempts.ToldWithin` | `platform/workflow/service.go:487-513` | Until an answer is decisive, what was announced begins what the whole walk announces |
| `Attempts.ToldOut` | `platform/workflow/service.go:487-513` | When no answer was decisive, all targets were announced |
| `Runner.VarsAfterBind` | `platform/workflow/service.go:372-381` | After i completed steps the environment binds the run id, every declared input and the outputs of those steps |
| `Runner.InitialVars` | `platform/workflow/service.go:372-381` | The loops bind declared inputs to the empty string and then the given ones |
| `Runner.FailRun` | `platform/workflow/service.go:626-646` | The run is FAILED with that code, later steps SKIPPED, totals equal to the sums, one final event, `done` closed once |
| `Runner.FinishInterrupted` | `platform/workflow/service.go:649-674` | CANCELLED iff the context was cancelled or a cancel request had been noted, else TIMED_OUT, with the matching code and event; the active step CANCELLED and later ones SKIPPED |
| `Runner.StopStep` | `platform/workflow/service.go:413-432` | A step that ended without success interrupts the run iff its context is done then, whatever its code, and fails it otherwise |
| `Runner.Launch` | `platform/workflow/service.go:365-370` | The run starts and announces it before its first step |
| `Runner.BeginStep` | `platform/workflow/service.go:387-404` | A step begins only with budget left, a live context and an input that renders within the size limit; otherwise the run is concluded for that reason, and for a done context interrupted, without an event of the step |
| `Runner.AttemptStep` | `platform/workflow/service.go:406-413` | A step is marked running, announced and attempted with the text that was rendered for it |
| `Runner.ExecuteStep` | `platform/workflow/service.go:383-449` | One step of the loop either concludes the run with an explained record and log, or completes and announces the step with the output and usage of its last attempt |
| `Runner.FinishSteps` | `platform/workflow/service.go:451-470` | After the last step the run completes with the rendered output and the summed totals, or fails on rendering |
| `Runner.Execute` | `platform/workflow/service.go:354-470` | From any start and under any interference: terminal once, `done` closed once, one slot returned, a record that explains every step, and a log that is exactly the events of that record, ending in one final event that fits it and gives its reason (of an interrupted step only the beginning). An interrupted run is CANCELLED if its context was cancelled, TIMED_OUT only past its deadline, and CANCELLED only after a cancel request; with the context done at the start no step starts |
| `Runner.ValidatedRunsRender` | `platform/workflow/service.go:372-455` | Soundness of validation: a validated definition never fails on a malformed or undefined reference, in any step or the output; a render error means an input of more than 4194304 characters |
| `Runner.CompletedIffAllStepsCompleted` | `platform/workflow/service.go:383-463` | A run of a validated definition is COMPLETED iff all its steps are |
| `Runner.BudgetIsRespected` | `platform/workflow/service.go:383-390` | No step starts once the earlier steps have used the token budget |
| `Runner.BudgetFailsOnlyWhenUsed` | `platform/workflow/service.go:387-390` | A run fails on its budget only when the completed steps have used it up |
| `Runner.AcceptedRunsAreBounded` | `platform/workflow/service.go:383-553` | A run of an accepted definition has at most 20 steps, each at most five attempts on each of its pools and a text of at most 4194304 characters |
| `Runner.OutputsAreHandedOn` | `platform/workflow/service.go:372-434` | A step whose text is the reference to an earlier step is sent that step's output as it is |
| `Runner.InputsAreHandedIn` | `platform/workflow/service.go:372-381` | A step whose text is the reference to an input is sent the input, or nothing if it was left out |
| `Runner.RunIDIsHandedIn` | `platform/workflow/service.go:372` | A step whose text is the run id is sent the id of its run |
| `Runner.CompletedStepsHoldTheirReply` | `platform/workflow/service.go:406-444` | A completed step holds text and usage of the reply to its last attempt, a completion with a status below 400 |
| `Runner.FailedStepsSayWhy` | `platform/workflow/service.go:413-431` | A run that failed in a step carries the code that the error of the last attempt calls for; the step is TIMED_OUT iff that error was a timeout |
| `Runner.StepsFollowTheirWalk` | `platform/workflow/service.go:406-553` | Every step that started followed its walk: a cancelled one a prefix of it, any other all of it |
| `Runner.CommonProgressAgrees` | `platform/workflow/service.go:383-449` | Two executions of one job, however disturbed, agree on outputs and records of the steps that both completed |
| `Runner.UndisturbedRunsAgree` | `platform/workflow/service.go:354-470` | Without cancellation and deadline the finished record is a function of the executor's answers |
| `Runner.UndisturbedRunsSayTheSame` | `platform/workflow/service.go:354-470` | So are all events before the last |
| `Runner.UndisturbedRunsEndAlike` | `platform/workflow/service.go:354-470` | And so is the last one, its wording included |
| `FlowRuns.Spawn` | `platform/workflow/service.go:252-276` | A started run meets what the runner requires, whatever cancels come before it |
| `FlowRuns.RunFlow` | `platform/workflow/service.go:222-276` | Validation, input check, start and execution joined: a run exists iff definition and inputs are accepted, and it ends with explained record and log, one final event and no failure on a reference |
| `RunProtocol.AdvanceKeepsProc` | `platform/workflow/service.go:354-470` | Each step of a run's goroutine or of a CancelRun keeps: terminal exactly from the decision on, final events counted, `done` closed at most once |
| `RunProtocol.ApplyKeepsInv` | `platform/workflow/service.go:245-309` | Each step keeps the semaphore equal to the number of live runs and changes no terminal status; a run whose first write failed stays registered and gives its slot back |
| `RunProtocol.EveryScheduleIsSafe` | `platform/workflow/service.go:245-309` | Every interleaving of any number of runs and cancels keeps that invariant |
| `RunProtocol.ReachableStates` | `platform/workflow/service.go:245-309` | In every reachable state live runs are at most the capacity, each run has at most one final event and one close, and a terminal status is never left |
| `RunProtocol.EverySlotIsReturned` | `platform/workflow/service.go:252-278` | From every reachable state the runs there can all end without another starting, and then no slot is taken |
| `RunProtocol.StartIsBegin` | `platform/workflow/service.go:365-369` | The runner's first section is the protocol's step, on every run as other goroutines see it |
| `RunProtocol.AnnounceStartIsAStep` | `platform/workflow/service.go:370` | So is the started event |
| `RunProtocol.EmitIsWork` | `platform/workflow/service.go:406-449` | So is every event of a step |
| `RunProtocol.CompleteIsDecide` | `platform/workflow/service.go:457-463` | So is completing the run |
| `RunProtocol.FailIsDecide` | `platform/workflow/service.go:626-643` | So is failing it |
| `RunProtocol.InterruptIsDecide` | `platform/workflow/service.go:659-671` | So is interrupting it |
| `RunProtocol.AnnounceFinalIsAStep` | `platform/workflow/service.go:644-645` | So is the final event, which only a decided run can emit |
| `RunProtocol.CloseDoneIsClose` | `platform/workflow/service.go:645-646` | So is closing `done`, which only comes after the final event |
| `RunProtocol.ReturnSlotIsRelease` | `platform/workflow/service.go:355` | So is returning the slot |
| `RunProtocol.RequestCancelIsAStep` | `platform/workflow/service.go:289-300` | So is the critical section of CancelRun |
| `RunProtocol.SignalCancelIsAStep` | `platform/workflow/service.go:301-303` | So is its call of the cancel function |
| `RunProtocol.AnnounceCancelIsAStep` | `platform/workflow/service.go:307` | So is its event |
| `RunProtocol.StartRunSteps` | `platform/workflow/service.go:245-276` | StartRun is three steps of the protocol, which leave a run as its goroutine finds it |
| `RunProtocol.PlayFollows` | `platform/workflow/service.go:245-470` | In every schedule only a run's own steps matter to it |
| `RunProtocol.AnExecutionIsASchedule` | `platform/workflow/service.go:245-470` | Wherever the system starts a run, the steps that its runner and the CancelRun calls took, in any interleaving with other runs, lead to exactly what others see of it: executions are schedules |
| `EventStream.NoEventTwice` | `platform/workflow/run.go:284-334` | In every interleaving of emitters, deliveries and subscriptions: replay is exactly the log between Last-Event-ID and the subscription, live events are newer logged events, and none comes twice |
| `EventStream.ReplayThenLiveIsTheLog` | `platform/workflow/run.go:284-334` | With one emitter and nothing dropped, replay followed by live is exactly the log after Last-Event-ID |
| `EventStream.DeliverKeepsInv` | `platform/workflow/run.go:299-307` | A delivery keeps the invariant: what an emitter still owes is newer than the subscription and not yet offered |
| `EventStream.DroppedIff` | `platform/workflow/run.go:299-307` | An event is dropped iff 64 others wait in the subscriber's channel |
| `RunRestarts.RunStore.Open` | `platform/workflow/run.go:140-187` | Every readable run file is loaded, those not terminal closed, and written back where a write succeeds; a failed one is ignored |
| `RunRestarts.CloseRun` | `platform/workflow/run.go:169-181` | FAILED as interrupted, with every pending or active step CANCELLED and all else untouched |
| `RunRestarts.RestartEndsEveryRun` | `platform/workflow/run.go:140-187` | After a restart every run is terminal; finished ones are as they were, the others keep their completed steps and have nothing left to run |
| `RunRestarts.RestartEndsWhatARunWrote` | `platform/workflow/run.go:337-342` | Whichever critical section wrote the record that is on disk (later writes may have failed unnoticed), the restart ends the run that way; the last record handed over is always the run as it is, so no section leaves a change unwritten |
| `RunRestarts.WriteBacksRecoverAPart` | `platform/workflow/run.go:181` | Whichever write-backs fail, the next restart loads the same runs |
| `RunRestarts.RestartIsCrashSafe` | `platform/workflow/run.go:140-187` | A restart cut short after recovering any part of the files changes nothing for the next one |
| `FlowStores.FlowStore.Open` | `platform/workflow/store.go:79-108` | On any disk: succeeds iff every flow directory has a readable meta.json and no alias comes twice, and a refusal names the offender; on an image of this store the result is valid and its memory is the metas on disk |
| `FlowStores.OpenableIff` | `platform/workflow/store.go:87-107` | An image that this store can leave opens iff every flow directory has its meta.json |
| `FlowStores.InterruptedCreateIsRefused` | `platform/workflow/store.go:209-218` | After a Create stopped behind its directory or its draft no restart opens the store |
| `FlowStores.FlowStore.Write` | `platform/workflow/store.go:135-141` | One atomic file write, which keeps every earlier image and every version file |
| `FlowStores.FlowStore.UpdateDraft` | `platform/workflow/store.go:248-276` | Which result, memory and disk for every input and every failing write; retired flows and stale revisions are refused; no image on the way stops a restart |
| `FlowStores.FlowStore.CommitDraft` | `platform/workflow/store.go:262-275` | At every crash point between the writes the image keeps every flow intact and opens if the store opened before |
| `FlowStores.FlowStore.Publish` | `platform/workflow/store.go:280-314` | Freezes exactly the draft on disk under the next number, never over an existing version, and marks the flow published at it; every result and partial write is stated; no image on the way stops a restart |
| `FlowStores.FlowStore.CommitVersion` | `platform/workflow/store.go:300-313` | At every crash point all versions that the on-disk meta names are on disk and verify |
| `FlowStores.FlowStore.SetStatus` | `platform/workflow/store.go:362-390` | Retiring is always possible and final in memory, and on disk exactly if the write succeeds; other changes need a published version and a flow not retired |
| `FlowStores.FlowStore.Create` | `platform/workflow/store.go:192-223` | Refuses above the limit, on a taken alias and on bad JSON, in that order; else adds exactly one flow and one alias; the disk after every failing write is stated, and every image but the first and the last stops a restart |
| `FlowStores.FlowStore.CommitFlow` | `platform/workflow/store.go:208-222` | Directory, draft, meta, memory, in that order, and the image after each |
| `FlowStores.FlowStore.ResolveAlias` | `platform/workflow/store.go:177-189` | Succeeds iff a scan of the metas finds a published flow with that alias, and returns its newest version |
| `FlowStores.FlowStore.GetVersion` | `platform/workflow/store.go:317-337` | Every version up to the latest loads, verifies and carries its number; otherwise unknown flow, missing file, unreadable file or wrong digest, in that order |
| `FlowLifecycles.PublishAndFind` | `platform/workflow/store.go:177-337` | What publishing returns is the next version, found under the flow's alias and read back as it is |
| `FlowLifecycles.FindByAlias` | `platform/workflow/store.go:177-189` | A flow is found under its own alias iff it is published and has a version |
| `FlowLifecycles.SuspendAndResume` | `platform/workflow/store.go:362-390` | A suspended flow is not found; resumed, it is found at the same version; without a version or once retired neither is possible |
| `FlowLifecycles.Retire` | `platform/workflow/store.go:248-390` | A retired flow is not found and cannot be resumed, edited or published |
| `FlowLifecycles.CreateEditPublish` | `platform/workflow/store.go:192-337` | A flow created, edited and published is found as version 1, with the canonical form and the digest of the edit |
| `FlowStores.PushImage` | `platform/workflow/store.go:135-141` | A write that keeps a safe image and all versions extends a history in which every image is safe |
| `FlowStores.WriteVersion` | `platform/workflow/store.go:298-305` | Adding the next version file keeps an image safe: the meta does not name it yet |
| `FlowStores.WriteMeta` | `platform/workflow/store.go:306-313` | Writing a meta keeps an image safe when draft and versions that it names are already there |
| `FlowStores.ReopenFollows` | `platform/workflow/store.go:79-108` | The metas of a safe image describe it: every draft and version that they name is there |
| `FlowStores.IndexGrows` | `platform/workflow/store.go:216-222` | A new flow with a new alias keeps the alias index equal to a scan of the metas |
| `PublishGap.ApplyKeepsInv` | `platform/workflow/service.go:184-200` | Every critical section, failed write or crash keeps: a publisher that did not read a torn draft holds the content its revision stands for |
| `PublishGap.PublishFreezesWhatItValidated` | `platform/workflow/service.go:184-200` | In every interleaving with edits, failed writes and crashes, what such a publisher freezes is the valid content that it validated |
| `PublishGap.WithoutCrashEveryVersionIsValid` | `platform/workflow/service.go:184-200` | Within one process lifetime every frozen version passed validation |
| `PublishGap.CrashTearsTheDraft` | `platform/workflow/store.go:262-275` | A crash between draft.json and meta.json leaves, from the initial state, a draft ahead of memory that the next publisher validates |
| `PublishGap.TornReadCanFreezeAnything` | `platform/workflow/service.go:184-200` | A publisher that read such a draft can be made to freeze any content |
| `PublishGap.UnvalidatedContentIsFrozen` | `platform/workflow/service.go:184-200` | A run of four steps from the initial state that freezes a content nobody validated, for every validator |
| `PublishGap.PublishIsSafeIff` | `platform/workflow/service.go:184-200` | The exact condition: from validation on, every continuation freezes only what was validated iff the draft's revision is the one in memory |
| `PublishGap.BlockedForever` | `platform/workflow/store.go:297-302` | A store whose meta lags behind its version files never publishes again, in any continuation |
| `PublishGap.RestartBlocksPublishingIff` | `platform/workflow/store.go:297-313` | After a restart some continuation publishes iff meta.json names all version files and some content is valid |
| `PublishGap.CrashBlocksPublishing` | `platform/workflow/store.go:297-313` | A crash in the first publish, from the initial state, blocks every later one |
| `Conversations.KeepOutside` | `platform/memory/memory.go:282-288` | The in-place filter leaves the messages outside the range at the front, in order |
| `Conversations.ConversationStore.GetOrCreate` | `platform/memory/memory.go:192-220` | Bad ids are refused; a missing, deleted or expired conversation is created whatever version is given, if it can be written; otherwise a stale positive version conflicts |
| `Conversations.ConversationStore.AppendTurn` | `platform/memory/memory.go:225-270` | Missing, conflict (checked before de-duplication), absorbed repeat, failed write without effect, or the whole turn added with consecutive numbers and version plus one |
| `Conversations.AddTurn` | `platform/memory/memory.go:242-265` | The loop numbers, estimates and stamps the messages as the specification of one turn says |
| `Conversations.ConversationStore.ReplaceWithSummary` | `platform/memory/memory.go:274-295` | Removes exactly the messages of the range, adds the summary, raises the version; a failed write has no effect |
| `Conversations.OutsideIsAFilter` | `platform/memory/memory.go:282-288` | The filter keeps order and exactly the messages outside the range |
| `Conversations.StepKeepsInv` | `platform/memory/memory.go:225-295` | Every append and replacement keeps: ascending numbers, every number held by a message or a summary range, correct estimates, version not falling |
| `Conversations.EveryRunCoversItsLog` | `platform/memory/memory.go:225-295` | Over every run no number below the next is lost, and the remembered ids are the last 256 applied ones |
| `Conversations.OneAppendPerVersion` | `platform/memory/memory.go:233-235` | Of all appends carrying the same positive expected version at most one takes effect |
| `Conversations.RetryIsAbsorbedIff` | `platform/memory/memory.go:233-265` | A retry is any append under the same request id: it is stored again iff its version is current (or not given) and 256 other appends took effect since; sent unchanged with a version, it conflicts |
| `Conversations.RetryIsStoredTwiceIff` | `platform/orchestrator/orchestrator.go:172-241` | From a new conversation, a turn, n others and the turn again, each with the version just read as the program sends it: it is stored twice iff n is at least 256 |
| `Conversations.TurnIsRecorded` | `platform/memory/memory.go:243-262` | The log after a turn: what was there, the messages sent with consecutive numbers and status complete, and the reply by the assistant |
| `Conversations.EstimateIsAQuarter` | `platform/memory/memory.go:360-366` | Four bytes to a token, rounded down, but one for a shorter text |
| `Conversations.UseAndExpire` | `platform/memory/memory.go:150-270` | A conversation takes turns until its days are over and starts anew after them; there is none under an id that is empty, too long or of other characters |
| `ContextBuilder.Pick` | `platform/memory/context.go:60-75` | The newest-first loop stops at the first complete message that does not fit and holds the kept ones in reverse |
| `ContextBuilder.Flip` | `platform/memory/context.go:77-79` | The in-place reversal |
| `ContextBuilder.BuildContext` | `platform/memory/context.go:31-93` | Summaries, marked as such, kept messages and current messages in that order, the estimate without summaries, and the suggested range |
| `ContextBuilder.SuffixFitsIff` | `platform/memory/context.go:60-75` | A suffix of the log fits what remains iff it starts behind the cut |
| `ContextBuilder.ContextKeepsTheLongestFit` | `platform/memory/context.go:31-93` | The context keeps the longest run of newest complete messages that fits; if anything is kept the total is within budget; a summary is suggested iff a complete message was left out |
| `ContextBuilder.KeptAreTheComplete` | `platform/memory/context.go:60-75` | Kept are exactly the messages behind the cut whose status is complete |
| `ContextBuilder.BudgetByTheNumbers` | `platform/memory/context.go:31-45` | The budget for every window and reserve, given or not |
| `ContextBuilder.EachTextCostsItsEstimate` | `platform/memory/context.go:43-75` | Every summary, current message and stored message costs its own estimate |
| `ContextBuilder.TheLastTurnIsRemembered` | `platform/memory/context.go:60-79` | A turn just stored whole comes last in the next context if it fits |
| `ContextBuilder.SuggestionRemovesTheCut` | `platform/memory/memory.go:274-295` | Replacing the suggested range after any other turns and replacements removes exactly what is left of the messages up to the cut |
| `ContextBuilder.SuggestionAfterAppends` | `platform/memory/memory.go:274-295` | If only turns came in between, the remaining log is the rest, in order |
| `Pools.Pool.Register` | `platform/pool/pool.go:50-58` | A new node starts healthy, not draining and idle; a known one keeps its state |
| `Pools.Pool.SetHealth` | `platform/pool/pool.go:61-68` | Changes the health of a known node only |
| `Pools.Pool.SetDraining` | `platform/pool/pool.go:71-86` | Drain and Resume: change the draining flag of a known node only |
| `Pools.Pool.Others` | `platform/pool/pool.go:50-213` | Any operations of other requests keep counts and averages non-negative and forget no node |
| `Pools.Pool.Assignable` | `platform/pool/pool.go:101-106` | Whether the node is known, healthy and not draining at that moment |
| `Pools.Pool.Acquire` | `platform/pool/pool.go:110-115` | Raises the count of a registered node by one and changes nothing else |
| `Pools.Pool.Release` | `platform/pool/pool.go:116-136` | Lowers a positive count, moves the average, degrades health on failure |
| `Pools.Pool.Order` | `platform/pool/pool.go:147-194` | Returns the stable order of the scored candidates and forgets an expired sticky entry |
| `Pools.Pool.RecordSticky` | `platform/pool/pool.go:197-213` | Remembers the node and sweeps expired entries above 4096 |
| `Pools.SortRanks` | `platform/pool/pool.go:182-187` | The stable sort is a permutation ordered by alive, score, original position |
| `Pools.StableSortIsUnique` | `platform/pool/pool.go:182-187` | Any such permutation is the same one, so the sorting algorithm does not matter |
| `Pools.OrderRanksCandidates` | `platform/pool/pool.go:147-194` | No candidate lost or invented, known dead nodes last, scores ascending |
| `Pools.LessLoadedComesFirst` | `platform/pool/pool.go:151-187` | Unhealthy and draining nodes come last; of two others, the sticky one aside, the one with fewer requests in flight comes first, each weighing as much as a second of average latency |
| `Pools.StickyComesFirst` | `platform/pool/pool.go:151-180` | A live registered sticky candidate is first, because counts and averages are never negative |
| `Pools.StickyRemembers` | `platform/pool/pool.go:197-213` | The node that served last is remembered until the entry expires, whatever is swept |
| `Pools.SweepChangesNoAnswer` | `platform/pool/pool.go:204-212` | Sweeping expired entries changes no later sticky answer |
| `Pools.NothingIsSweptBelowTheLimit` | `platform/pool/pool.go:197-213` | With room for 4096 conversations none is forgotten |
| `Pools.EmaStaysWithinSamples` | `platform/pool/pool.go:124-130` | The moving average stays within the observed latencies |
| `Pools.ReleaseIsWeighed` | `platform/pool/pool.go:116-136` | A release lowers a positive count, takes the first latency over and moves the average a fifth of the way for later ones; a failure marks the node and a success does not clear it |
| `Pools.RegisteredFirstIsBalanced` | `platform/pool/pool.go:50-123` | From a node not yet known: if it is registered before its first request, as this program does, its in-flight count is the number of its requests at every later time |
| `Pools.InflightBalancedIff` | `platform/pool/pool.go:110-123` | In general, the in-flight count equals the requests held, in every continuation, iff none acquired before registration is still out |
| `Pools.EarlyRequestIsUncounted` | `platform/pool/pool.go:110-123` | A request before the registration leads to such a state, and from there to a wrong count |
| `Orchestrators.FilterInPlace` | `platform/orchestrator/orchestrator.go:129-136` | The in-place filter keeps exactly the accepted candidates, in order |
| `Orchestrators.Select` | `platform/orchestrator/orchestrator.go:121-153` | Unknown pool, empty pool and unsupported endpoint are refused; else exactly the eligible candidates, in order |
| `Orchestrators.FilterPicks` | `platform/orchestrator/orchestrator.go:121-153` | The filter leaves the accepted candidates, each in its place in the order |
| `Orchestrators.EligibleAreThoseThatMayServe` | `platform/orchestrator/orchestrator.go:121-153` | Exactly the candidates of the pool asked for that serve the endpoint; an unknown pool is a bad request, and nobody left an unavailable model |
| `Orchestrators.Prepare` | `platform/orchestrator/orchestrator.go:111-221` | Version, resolution, selection and conversation errors in that order; then the pool's order, each id replaced by the last candidate that carries it |
| `Orchestrators.RefusalsInOrder` | `platform/orchestrator/orchestrator.go:111-198` | Contract version, model, unknown pool, nobody who may serve, conversation: which error comes first, and who is left when none does |
| `Orchestrators.Arrange` | `platform/orchestrator/orchestrator.go:212-219` | The lookup map keeps the last candidate of each id |
| `Orchestrators.LastWithIsTheLast` | `platform/orchestrator/orchestrator.go:212-215` | Of the candidates with one id the last is used |
| `Orchestrators.PrepareLosesNoCandidateIff` | `platform/orchestrator/orchestrator.go:208-219` | The arrangement is a permutation of the candidates iff no two different ones share a deployment id |
| `Orchestrators.TryOn` | `platform/orchestrator/orchestrator.go:273-285` | One attempt acquires and releases its node, once each |
| `Orchestrators.Execute` | `platform/orchestrator/orchestrator.go:269-293` | While other requests use the pool at any point: every candidate is looked at in turn, those tried are exactly those that the pool called assignable at their turn, and the last; the request ends with the last outcome; it does to the pool one acquire and one release per attempt and remembers only a success |
| `Orchestrators.ExecuteStream` | `platform/orchestrator/orchestrator.go:339-378` | The same for streams, which also stop once events were sent |
| `Orchestrators.NothingFollowsAnAnswerOrTimeout` | `platform/orchestrator/orchestrator.go:269-378` | After an answer, a timeout or the first event of a stream nothing is sent again; without one of them every assignable candidate is tried; the result is that of the last attempt |
| `Orchestrators.EachAttemptIsReported` | `platform/orchestrator/orchestrator.go:269-285` | Per candidate one look, and if it is tried one acquire and one release, reported well iff it answered without a server error, or streamed |
| `Orchestrators.OnlyTheAnsweringNodeIsRemembered` | `platform/orchestrator/orchestrator.go:276-281` | A conversation is bound to the node that answered, at the end, and to none by a failure |
| `Orchestrators.FailoverEndsAtTheFirstDecisive` | `platform/orchestrator/orchestrator.go:269-293` | The result is that of the first candidate accepting requests that answers or times out, else of the last candidate; nothing is tried after it |
| `Orchestrators.FailoverIsDetermined` | `platform/orchestrator/orchestrator.go:269-293` | What the candidates answer and how they look determines the result |
| `Orchestrators.AttemptsAreBalanced` | `platform/orchestrator/orchestrator.go:269-293` | The attempts leave the in-flight count of every node as it was |
| `Orchestrators.Attempted` | `platform/orchestrator/orchestrator.go:270-288` | One attempt ends the request if it is decisive or the last, and leaves it unfinished otherwise |
| `Admission.ApplyKeepsInv` | `platform/orchestrator/orchestrator.go:52-68` | Every channel operation keeps the tokens equal to the requests that hold them |
| `Admission.EveryScheduleIsBounded` | `platform/orchestrator/orchestrator.go:52-68` | In every interleaving at most MaxConcurrent run, at most MaxQueue wait, and when nobody is inside all tokens are back |
| `Admission.TurnedAwayIff` | `platform/orchestrator/orchestrator.go:53-58` | A request is turned away iff MaxQueue others hold a place; giving a token back never blocks |
| `Admission.EveryStateCanDrain` | `platform/orchestrator/orchestrator.go:52-68` | No deadlock and no lost token: from every reachable state all requests can leave and both channels end empty |
| `ConfigGenerations.SortAscends` | `gwcore/import.go:66-83` | Versions come out in ascending numeric order, none lost |
| `ConfigGenerations.DataDir.SortedGenerations` | `gwcore/import.go:66-83` | All stored versions in ascending order, whatever the directory order |
| `ConfigGenerations.DataDir.Prune` | `gwcore/import.go:105-119` | Removes exactly the versions that are neither among the three highest nor just written, and every image on the way is a crash image |
| `ConfigGenerations.DataDir.StoreConfigGeneration` | `gwcore/import.go:87-121` | The completed store, and every image a crash may leave |
| `ConfigGenerations.DataDir.CurrentAppliedVersion` | `gwcore/import.go:125-133` | The marker if there is a positive one, else the highest generation |
| `ConfigGenerations.DataDir.ImportSignedConfig` | `gwcore/import.go:152-179` | Each refusal in order, nothing written on refusal, and on acceptance the store with every image a crash may leave |
| `ConfigGenerations.KeptAre` | `gwcore/import.go:109-119` | A version of the sorted list is kept iff it was just written or is one of the last three |
| `ConfigGenerations.CrashKeepsABackup` | `gwcore/import.go:87-121` | At every crash point the current file has a generation file, with its content unless the same version is being stored again with another content |
| `ConfigGenerations.RestartReportsTheCurrentIff` | `gwcore/import.go:87-133` | One import of a new content, stopped anywhere, on a disk that a restart would read correctly, with a marker or without: a restart reports the version of the loaded file iff the generation it reports has the content of that file |
| `ConfigGenerations.RestartReportsTheLoadedIff` | `gwcore/import.go:87-179` | The same over every run of imports, forced or not, each stopped anywhere, if every version has a content of its own |
| `ConfigGenerations.RestartMisreports` | `gwcore/import.go:97-133` | Both ways of failing, from an empty directory: the switch without the marker, and a generation without the switch when there is no marker |
| `ConfigGenerations.RestoreKeepsTheReport` | `gwcore/import.go:97-104` | Storing the marked version again never makes the report wrong |
| `ConfigGenerations.RetryAfterCrashIff` | `gwcore/import.go:168-171` | An unforced import that crashed can be repeated iff it had written nothing |
| `ConfigGenerations.BackupsSurviveEveryRun` | `gwcore/import.go:87-179` | Over every run of imports, forced or not, completed or stopped anywhere, current version and marker have generation files |
| `ConfigGenerations.RestartRecoversTheLastImport` | `gwcore/agent.go:316-335` | After any run of completed imports, rollbacks included, a restart recovers exactly the last accepted one and at most four generations are kept |
| `ConfigGenerations.UnforcedImportsRaise` | `gwcore/import.go:168-171` | An unforced import strictly raises the highest stored version |
| `RateLimiters.RateLimiter.CheckRate` | `gwcore/auth.go:84-89` | No limit admits always and touches nothing |
| `RateLimiters.RateLimiter.Allow` | `gwcore/auth.go:108-122` | Admits iff the open window has room; only that key's window changes |
| `RateLimiters.AdmittedIff` | `gwcore/auth.go:108-122` | A request is admitted iff its key has no window from the last minute or fewer than the limit were admitted in it |
| `RateLimiters.WindowBound` | `gwcore/auth.go:108-122` | A window's count is what it admitted, at most the limit |
| `RateLimiters.EveryMinuteIsBounded` | `gwcore/auth.go:108-122` | For a window of any positive length, over every monotone trace: a window admits at most limit, any interval of that length at most 2 x limit - 1 |
| `RateLimiters.TheBoundIsReached` | `gwcore/auth.go:108-122` | For every limit and every window of at least two ticks some trace reaches 2 x limit - 1, so the bound is exact |
| `InitNames.SanitizeGivesUsableNames` | `cmd/private-gateway/init.go:115-122` | A derived name is non-empty, has only plain characters and no dash at either end; a name already usable is kept |
| `InitNames.ForeignRunsBecomeOneDash` | `cmd/private-gateway/init.go:112-122` | A run of other characters between usable parts becomes one dash |
| `InitNames.NothingUsableIsCalledModel` | `cmd/private-gateway/init.go:117-119` | A name of nothing but other characters is called `model` |
| `InitNames.NamesAreSpelled` | `cmd/private-gateway/init.go:112-140` | The characters that a name keeps, and the names tried: the base, then the base with 2, 3 and so on |
| `Decimals.DecimalIsInjective` | `cmd/private-gateway/init.go:137-139` | Different numbers have different decimals |
| `InitNames.AttemptsDiffer` | `cmd/private-gateway/init.go:136-139` | Different rounds of the renaming loop try different names |
| `InitNames.Pigeonhole` | `cmd/private-gateway/init.go:136-139` | If the first n names are all used, n names are used |
| `InitNames.FreeName` | `cmd/private-gateway/init.go:136-140` | The loop ends within (number of used names) + 1 tries at the first free name |
| `InitNames.BuildInitConfig` | `cmd/private-gateway/init.go:127-149` | One entry per reported model, in order, each under the first name left free by the entries before |
| `InitNames.NamesAreDistinct` | `cmd/private-gateway/init.go:127-149` | For every candidate list the names are pairwise distinct |
| `InitNames.EndpointsAreTrimmed` | `cmd/private-gateway/init.go:143` | Endpoints lose the slashes at their end and nothing else |
| `InitNames.BuildIsDeterministic` | `cmd/private-gateway/init.go:127-149` | That description has one solution: the same discovery gives the same configuration |
| `Idempotency.EncodeIsInjective` | `platform/workflow/service.go:311-318` | NUL-free part lists with the same bytes are the same |
| `Idempotency.PartsAreDistinguishedIff` | `platform/workflow/service.go:311-318` | No other list of as many parts has the same bytes iff no part contains a NUL |
| `Idempotency.CanonicalInputs` | `platform/workflow/service.go:320-335` | The bytes are the encoding of the entries in key order |
| `Idempotency.SortedKeys` | `platform/workflow/service.go:320-325` | The keys in byte order, whatever order the map is walked in |
| `Idempotency.KeyOrderIsUnique` | `platform/workflow/service.go:320-325` | The sorted key list is determined by the key set |
| `Idempotency.InputsAreDistinguished` | `platform/workflow/service.go:320-335` | NUL-free inputs have the same bytes iff they are equal |
| `Idempotency.InputsAreUnmistakableIff` | `platform/workflow/service.go:320-335` | Of the bytes alone, over all maps: no other inputs have the same iff these are at most one entry, free of NULs |
| `Idempotency.InputsOfOneSize` | `platform/workflow/service.go:320-335` | NUL-free inputs share their bytes with no larger inputs and with no others of their size |
| `Idempotency.NulsConfuseInputs` | `platform/workflow/service.go:320-335` | Two inputs that one definition accepts and that have the same bytes: a value with NULs passes for another entry |
| `Idempotency.AcceptedInputsAreToldApartIff` | `platform/workflow/service.go:233-242` | Among the inputs that a definition accepts, those without NULs are told apart from all others if every name but possibly the first is required; as soon as the limits leave room for a name, only if |
| `Idempotency.KeysAreDistinguished` | `platform/workflow/service.go:240` | Two starts, the first with NUL-free virtual key and idempotency key, share an idempotency entry iff both agree |
| `Idempotency.HashedBytes` | `platform/workflow/service.go:239-242` | What is hashed: virtual key and idempotency key, and alias, version, hashed inputs and response mode, each closed by a zero byte |
| `Idempotency.PayloadsAreDistinguished` | `platform/workflow/service.go:237-242` | If alias and response mode of the first start are free of NULs: payload hashes agree iff alias, version, response mode and input bytes do; the bytes of NUL-free inputs agree with those of inputs of their size iff the inputs do |
| `RunStarts.RunIndex.IdemCheck` | `platform/workflow/run.go:358-369` | Unknown or expired, mismatch, or the recorded run |
| `RunStarts.RunIndex.IdemRecord` | `platform/workflow/run.go:372-384` | Sweeps expired entries above 4096, then records |
| `RunStarts.RunIndex.StartRun` | `platform/workflow/service.go:237-278` | The answer and the new table for every request, a run that could not be written included |
| `RunStarts.AnswersByCase` | `platform/workflow/service.go:237-278` | A remembered key decides whether there is room or not; otherwise a free slot and a successful write make a new run, recorded for its key, and nothing else does |
| `RunStarts.RepeatsGiveOneRun` | `platform/workflow/service.go:237-273` | While the entry lives and the run is retained, whatever else happens, a repeat returns the one run and another payload conflicts |
| `RunStarts.SweepingChangesNoAnswer` | `platform/workflow/run.go:372-384` | Sweeping at any threshold gives the same answers to every trace on a monotone clock |

## Left out

- HTTP handlers, streaming writers, admin UI, command line, metrics: transport only.
- Upstream calls: each attempt is one arbitrary outcome; request building and response parsing are not modelled.
- Cryptography, JSON, YAML and regular expressions: SHA-256 is an injective function, canonical JSON an idempotent one, lower-casing a parameter, verification of a signed configuration a given result.
- Go's sort functions are modelled as insertion sorts; `StableSortIsUnique` and `KeyOrderIsUnique` show that the algorithm does not matter.
- Files: every write is all or nothing and may fail; partial writes, directory scans and permissions are not modelled. `EventStream` does not model the event files.
- Clocks are parameters; created-at, started-at and duration fields are left out.
- Integer width: token counts, versions and sequence numbers are unbounded; wrap-around of int64 sums is not modelled. The moving average is a real number, without rounding.
- Random identifiers never collide: fresh ids are a parameter of `FlowStore.Create` and a counter in `RunIndex`.
- IdemCheck and IdemRecord are two critical sections in the program; StartRun is one atomic step here, so two simultaneous starts with one key are not covered.
- The request id that a cancel forwards to the executor, and the executor's own reaction, are not modelled; a cancel acts on the run's context.
- A cancel that lands before the runner's first update is overwritten by it, a cancelling event may be logged after the final one, and a cancelled run may still complete or fail on budget: the model does what the program does, and nothing is claimed against it. Totals of an interrupted run are not recomputed.
- FlowStore.Open: an unreadable flows directory is not modelled; a disk that this store did not leave may open into an index that is not valid, as in the program.
- PublishGap: one flow, without status changes; contents are compared as canonical JSON.
- RunProtocol: a run's work between two visible steps is one step; what it does is the subject of Runner.
- Pool.Order: nodes are values in the map, since no reference to a node leaves the pool; the locks of pool and stores make each method one step.
- RunIndex.StartRun: alias resolution, version lookup and input validation come before it in the program and are the subjects of FlowStores and FlowDefinitions.
- Execute: the in-flight counts that several requests leave together are the subject of `InflightBalancedIff`; deadlines and cancellation reach the model as outcomes. So does a connector's status 503, which the program turns into an unavailable model.
- Prepare: model resolution and conversation lookup are given results, and the request body is not modelled; the turn committed after success is the subject of Conversations.
- ConversationStore: encryption, deletion and the expiry sweep are left out; each file is read and written as one record under its lock.
- RateLimiter: the monotone clock is an assumption of the trace lemmas; a limit that changes within a trace is not covered there.
- Agent polling, usage upload, discovery probing, licence dates, field-by-field configuration checks, CIDR rules and daily usage sums would only add easy members.
