/** All runs of the service together: StartRun, execute and CancelRun as interleaved atomic steps
    (platform/workflow/service.go).

    A run's goroutine is reduced to the steps other goroutines can see; what it does in between
    (module Runner) is `Work`.  A schedule is any sequence of steps of any runs and any CancelRun calls;
    a step that is not enabled changes nothing. */
module RunProtocol {
  import opened Runs

  // ---------------------------------------------------------------- state

  datatype State = State(capacity: nat, sem: nat, procs: map<RunID, Proc>)

  function Init(capacity: nat): State {
    State(capacity, 0, map[])
  }

  function Apply(s: State, step: ProcStep): State {
    match step
    case Admit(id) =>
      if id !in s.procs && s.sem < s.capacity
      then s.(sem := s.sem + 1, procs := s.procs[id := Proc(Admitted, RunQueued, [], 0, 0, 0)])
      else s
    case CreateFails(id) =>
      // the run stays registered as QUEUED, though it will never run
      if id in s.procs && s.procs[id].stage == Admitted && s.sem > 0
      then s.(sem := s.sem - 1, procs := s.procs[id := s.procs[id].(stage := Abandoned)])
      else s
    case Release(id) =>
      if id in s.procs && s.procs[id].stage == Closed && s.sem > 0
      then s.(sem := s.sem - 1, procs := s.procs[id := Advance(s.procs[id], step)])
      else s
    case _ =>
      if step.id in s.procs then s.(procs := s.procs[step.id := Advance(s.procs[step.id], step)]) else s
  }

  function Play(s: State, schedule: seq<ProcStep>): State
    decreases schedule
  {
    if schedule == [] then s else Play(Apply(s, schedule[0]), schedule[1..])
  }

  // ---------------------------------------------------------------- invariant

  predicate AtEnd(stage: Stage) {
    stage == Released || stage == Abandoned
  }

  /** Runs that hold a slot. */
  ghost function Live(s: State): set<RunID> {
    set id | id in s.procs && !AtEnd(s.procs[id].stage)
  }

  function FinalCount(log: seq<EventKind>): nat {
    if log == [] then 0 else FinalCount(log[..|log| - 1]) + if IsFinal(log[|log| - 1]) then 1 else 0
  }

  ghost predicate ProcOk(p: Proc) {
    && (Terminal(p.status) <==> p.stage in {Decided, FinalEmitted, Closed, Released})
    && FinalCount(p.log) == (if p.stage in {FinalEmitted, Closed, Released} then 1 else 0)
    && (forall e <- p.log :: IsFinal(e) ==> Fits(e, p.status))
    && p.closes == (if p.stage in {Closed, Released} then 1 else 0)
  }

  ghost predicate Inv(s: State) {
    && s.sem == |Live(s)| && s.sem <= s.capacity
    && forall id <- s.procs :: ProcOk(s.procs[id])
  }

  lemma FinalCountPush(log: seq<EventKind>, e: EventKind)
    ensures FinalCount(log + [e]) == FinalCount(log) + if IsFinal(e) then 1 else 0
  {
    assert (log + [e])[..|log|] == log;
  }

  lemma {:induction false} NoFinalWhenCountZero(log: seq<EventKind>)
    ensures FinalCount(log) == 0 <==> forall e <- log :: !IsFinal(e)
  {
    if log != [] {
      NoFinalWhenCountZero(log[..|log| - 1]);
      assert log == log[..|log| - 1] + [log[|log| - 1]];
    }
  }

  lemma AdvanceKeepsProc(p: Proc, step: ProcStep)
    requires ProcOk(p)
    ensures ProcOk(Advance(p, step)) && (!step.Release? ==> (AtEnd(Advance(p, step).stage) <==> AtEnd(p.stage)))
    ensures Terminal(p.status) ==> Advance(p, step).status == p.status
  {
    hide FinalCount;
    NoFinalWhenCountZero(p.log);
    match step
    case AnnounceQueued(_) => FinalCountPush(p.log, WorkflowQueued);
    case AnnounceStarted(_) => FinalCountPush(p.log, WorkflowStarted);
    case AnnounceCancel(_) => FinalCountPush(p.log, WorkflowCancelling);
    case Work(_, event) => FinalCountPush(p.log, event);
    case AnnounceFinal(_, event) => FinalCountPush(p.log, event);
    case _ =>
  }

  lemma AdvanceKeepsInv(s: State, step: ProcStep)
    requires Inv(s) && step.id in s.procs && !step.Admit? && !step.CreateFails? && !step.Release?
    ensures Inv(Apply(s, step))
  {
    hide ProcOk, Advance;
    var t := Apply(s, step);
    AdvanceKeepsProc(s.procs[step.id], step);
    forall id ensures id in Live(t) <==> id in Live(s) {
    }
    assert Live(t) == Live(s);
  }

  lemma LiveSet(s: State, step: ProcStep)
    requires (step.Admit? || step.CreateFails? || step.Release?) && Apply(s, step) != s
    ensures step.Admit? ==> step.id !in Live(s) && Live(Apply(s, step)) == Live(s) + {step.id}
    ensures !step.Admit? ==> step.id in Live(s) && Live(Apply(s, step)) == Live(s) - {step.id}
  {
    var t := Apply(s, step);
    forall id
      ensures id in Live(t) <==>
        if step.Admit? then id in Live(s) || id == step.id else id in Live(s) && id != step.id
    {
    }
  }

  lemma SlotsCountLive(s: State, step: ProcStep)
    requires s.sem == |Live(s)| <= s.capacity && (step.Admit? || step.CreateFails? || step.Release?)
    ensures var t := Apply(s, step); t.sem == |Live(t)| <= t.capacity
  {
    hide Live, Advance;
    if Apply(s, step) != s {
      LiveSet(s, step);
    }
  }

  lemma SlotKeepsInv(s: State, step: ProcStep)
    requires Inv(s) && (step.Admit? || step.CreateFails? || step.Release?)
    ensures Inv(Apply(s, step))
  {
    hide FinalCount, Live;
    SlotsCountLive(s, step);
    FreshProc();
  }

  lemma FreshProc()
    ensures ProcOk(Proc(Admitted, RunQueued, [], 0, 0, 0))
  {
  }

  lemma ApplyKeepsInv(s: State, step: ProcStep)
    requires Inv(s)
    ensures Inv(Apply(s, step)) && Apply(s, step).capacity == s.capacity
    ensures forall id <- s.procs :: Terminal(s.procs[id].status) ==>
      id in Apply(s, step).procs && Apply(s, step).procs[id].status == s.procs[id].status
  {
    if step.Admit? || step.CreateFails? || step.Release? {
      SlotKeepsInv(s, step);
    } else if step.id in s.procs {
      AdvanceKeepsInv(s, step);
      AdvanceKeepsProc(s.procs[step.id], step);
    }
  }

  /** Whatever the schedule: the live runs never outnumber the slots, every slot in use belongs to one of
      them, and no run logs a second final event or closes `done` twice. */
  lemma {:induction false} EveryScheduleIsSafe(s: State, schedule: seq<ProcStep>)
    requires Inv(s)
    ensures Inv(Play(s, schedule)) && Play(s, schedule).capacity == s.capacity
    ensures forall id <- s.procs :: Terminal(s.procs[id].status) ==>
      id in Play(s, schedule).procs && Play(s, schedule).procs[id].status == s.procs[id].status
    decreases schedule
  {
    hide Inv, Live, Apply;
    if schedule == [] {
    } else {
      ApplyKeepsInv(s, schedule[0]);
      EveryScheduleIsSafe(Apply(s, schedule[0]), schedule[1..]);
    }
  }

  /** In every reachable state: at most `capacity` runs are live and the semaphore counts exactly them; a
      run has a final event iff it was announced, one that fits its status, and `done` is closed at most
      once; and no continuation changes a terminal status. */
  lemma ReachableStates(capacity: nat, schedule: seq<ProcStep>, more: seq<ProcStep>, id: RunID)
    ensures var s := Play(Init(capacity), schedule);
      && s.sem == |Live(s)| <= capacity
      && (id in s.procs ==>
          && FinalCount(s.procs[id].log) <= 1 && s.procs[id].closes <= 1
          && (s.procs[id].closes == 1 ==> FinalCount(s.procs[id].log) == 1)
          && (FinalCount(s.procs[id].log) == 1 ==> Terminal(s.procs[id].status))
          && (Terminal(s.procs[id].status) ==>
              id in Play(s, more).procs && Play(s, more).procs[id].status == s.procs[id].status))
  {
    assert Live(Init(capacity)) == {};
    EveryScheduleIsSafe(Init(capacity), schedule);
    EveryScheduleIsSafe(Play(Init(capacity), schedule), more);
  }

  // ---------------------------------------------------------------- every slot comes back

  function StepsLeft(stage: Stage): nat {
    match stage
    case Admitted => 8
    case Created => 7
    case Spawned => 6
    case Started => 5
    case Working => 4
    case Decided => 3
    case FinalEmitted => 2
    case Closed => 1
    case Released => 0
    case Abandoned => 0
  }

  function FinalEventFor(status: RunStatus): EventKind {
    if status == RunCompleted then WorkflowCompleted(0, 0)
    else if status == RunCancelled then WorkflowCancelled(NoCode)
    else WorkflowFailed(NoCode, NoReason)
  }

  /** The step that brings a run on, whatever cancellations are on their way. */
  function NextStep(id: RunID, p: Proc): ProcStep {
    match p.stage
    case Admitted => Create(id)
    case Created => AnnounceQueued(id)
    case Spawned => Begin(id)
    case Started => AnnounceStarted(id)
    case Working => Decide(id, Completes)
    case Decided => AnnounceFinal(id, FinalEventFor(p.status))
    case FinalEmitted => Close(id)
    case _ => Release(id)
  }

  predicate NobodyStarts(schedule: seq<ProcStep>) {
    forall step <- schedule :: !step.Admit?
  }

  lemma NextStepAdvances(s: State, id: RunID)
    requires Inv(s) && id in s.procs && !AtEnd(s.procs[id].stage)
    ensures var t := Apply(s, NextStep(id, s.procs[id]));
      && id in t.procs && StepsLeft(t.procs[id].stage) < StepsLeft(s.procs[id].stage)
      && t.procs == s.procs[id := t.procs[id]] && t.procs[id].stage != Abandoned
  {
    hide FinalCount;
    assert ProcOk(s.procs[id]) && id in Live(s);
  }

  lemma {:induction false} DrainOne(s: State, id: RunID) returns (more: seq<ProcStep>)
    requires Inv(s) && id in s.procs && !AtEnd(s.procs[id].stage)
    ensures NobodyStarts(more)
    ensures var t := Play(s, more);
      id in t.procs && t.procs == s.procs[id := t.procs[id]] && t.procs[id].stage == Released
    decreases StepsLeft(s.procs[id].stage)
  {
    hide Inv, Advance, FinalEventFor;
    var step := NextStep(id, s.procs[id]);
    var t := Apply(s, step);
    NextStepAdvances(s, id);
    ApplyKeepsInv(s, step);
    more := [];
    if t.procs[id].stage != Released {
      more := DrainOne(t, id);
    }
    assert Play(t, []) == t;
    assert ([step] + more)[1..] == more;
    more := [step] + more;
  }

  lemma {:induction false} DrainAll(s: State) returns (more: seq<ProcStep>)
    requires Inv(s)
    ensures NobodyStarts(more) && Play(s, more).procs.Keys == s.procs.Keys
    ensures Play(s, more).sem == 0 && forall id <- s.procs :: AtEnd(Play(s, more).procs[id].stage)
    decreases |Live(s)|
  {
    hide Inv, Apply;
    if id :| id in Live(s) {
      var first := DrainOne(s, id);
      var t := Play(s, first);
      EveryScheduleIsSafe(s, first);
      assert Live(t) == Live(s) - {id};
      var rest := DrainAll(t);
      more := first + rest;
      PlayConcat(s, first, rest);
      assert t.procs.Keys == s.procs.Keys;
    } else {
      more := [];
      SlotsOfNobody(s);
    }
  }

  lemma SlotsOfNobody(s: State)
    requires Inv(s) && forall id :: id !in Live(s)
    ensures s.sem == 0 && forall id <- s.procs :: AtEnd(s.procs[id].stage)
  {
    forall id | id in s.procs ensures AtEnd(s.procs[id].stage) {
      assert id !in Live(s);
    }
    assert Live(s) == {};
  }

  lemma {:induction false} PlayConcat(s: State, a: seq<ProcStep>, b: seq<ProcStep>)
    ensures Play(s, a + b) == Play(Play(s, a), b)
    decreases a
  {
    hide Apply;
    if a == [] {
      assert a + b == b;
    } else {
      assert (a + b)[1..] == a[1..] + b;
      PlayConcat(Apply(s, a[0]), a[1..], b);
    }
  }

  /** Every slot is returned: from every reachable state, whatever cancellations are under way, the runs there
      are can all finish without another one starting, and then no slot is taken. */
  lemma EverySlotIsReturned(capacity: nat, schedule: seq<ProcStep>)
    ensures var s := Play(Init(capacity), schedule);
      exists more :: NobodyStarts(more) && Play(s, more).sem == 0 && Live(Play(s, more)) == {}
  {
    assert Live(Init(capacity)) == {};
    EveryScheduleIsSafe(Init(capacity), schedule);
    var s := Play(Init(capacity), schedule);
    var more := DrainAll(s);
    assert Live(Play(s, more)) == {};
  }

  // ---------------------------------------------------------------- the runner takes these steps

  lemma PlayOne(s: State, step: ProcStep)
    ensures Play(s, [step]) == Apply(s, step)
  {
    assert [step][1..] == [];
  }

  /** StartRun's steps leave a run as its goroutine finds it. */
  lemma StartRunSteps(s: State, id: RunID)
    requires id !in s.procs && s.sem < s.capacity
    ensures Play(s, [Admit(id), Create(id), AnnounceQueued(id)])
      == s.(sem := s.sem + 1, procs := s.procs[id := SPAWNED])
  {
    var steps := [Admit(id), Create(id), AnnounceQueued(id)];
    assert steps[1..] == [Create(id), AnnounceQueued(id)] && steps[1..][1..] == [AnnounceQueued(id)];
    var admitted := Apply(s, Admit(id));
    var created := Apply(admitted, Create(id));
    PlayOne(created, AnnounceQueued(id));
    assert Play(admitted, steps[1..]) == Play(created, [AnnounceQueued(id)]);
    assert created.procs[id] == Proc(Created, RunQueued, [], 0, 0, 0);
    assert [] + [WorkflowQueued] == [WorkflowQueued];
  }

  /** The steps of one run in a schedule of all runs. */
  function Of(id: RunID, schedule: seq<ProcStep>): seq<ProcStep> {
    if schedule == [] then [] else
    Of(id, schedule[..|schedule| - 1]) + if schedule[|schedule| - 1].id == id then [schedule[|schedule| - 1]] else []
  }

  lemma ApplyFollows(s: State, id: RunID, step: ProcStep)
    requires Inv(s) && id in s.procs && step.id == id && !step.Admit? && !step.CreateFails?
    ensures id in Apply(s, step).procs && Apply(s, step).procs[id] == Advance(s.procs[id], step)
  {
    hide ProcOk;
    if step.Release? && s.procs[id].stage == Closed {
      assert id in Live(s);
    }
  }

  lemma ApplyElsewhere(s: State, id: RunID, step: ProcStep)
    requires id in s.procs && step.id != id
    ensures id in Apply(s, step).procs && Apply(s, step).procs[id] == s.procs[id]
  {
    hide Advance;
  }

  lemma FollowOneMore(p: Proc, steps: seq<ProcStep>, step: ProcStep)
    ensures Follow(p, steps + [step]) == Advance(Follow(p, steps), step)
  {
    hide Advance;
    assert (steps + [step])[..|steps + [step]| - 1] == steps;
  }

  /** In every schedule each run goes its own way: only its own steps matter to it. */
  lemma {:induction false} PlayFollows(s: State, id: RunID, schedule: seq<ProcStep>)
    requires Inv(s) && id in s.procs && StepsOf(id, Of(id, schedule))
    ensures id in Play(s, schedule).procs && Play(s, schedule).procs[id] == Follow(s.procs[id], Of(id, schedule))
    decreases |schedule|
  {
    hide Inv, Advance, Apply;
    if schedule != [] {
      var n := |schedule| - 1;
      var front, step := schedule[..n], schedule[n];
      assert forall x <- Of(id, front) :: x in Of(id, schedule);
      PlayFollows(s, id, front);
      EveryScheduleIsSafe(s, front);
      PlayConcat(s, front, [step]);
      assert schedule == front + [step];
      PlayOne(Play(s, front), step);
      if step.id == id {
        assert step in Of(id, schedule);
        ApplyFollows(Play(s, front), id, step);
        FollowOneMore(s.procs[id], Of(id, front), step);
      } else {
        ApplyElsewhere(Play(s, front), id, step);
        assert Of(id, schedule) == Of(id, front);
      }
    }
  }

  /** Every execution is part of a schedule: wherever the system has started run `id`, every interleaving with
      other runs of the steps that its runner and the CancelRun calls took brings the system to a state in which
      the run is what others see of it. */
  lemma AnExecutionIsASchedule(s: State, run: Run, k: nat, schedule: seq<ProcStep>)
    requires Inv(s) && run.id !in s.procs && s.sem < s.capacity
    requires run.Observable(k) && Of(run.id, schedule) == run.taken
    ensures var start := [Admit(run.id), Create(run.id), AnnounceQueued(run.id)];
      var t := Play(s, start + schedule);
      run.id in t.procs && t.procs[run.id] == run.Seen()
  {
    hide Inv, Apply, Follow, Numbered, Own, OneFinal, NoneFinal, Finished, InProgress, Of;
    var start := [Admit(run.id), Create(run.id), AnnounceQueued(run.id)];
    StartRunSteps(s, run.id);
    EveryScheduleIsSafe(s, start);
    PlayFollows(Play(s, start), run.id, schedule);
    PlayConcat(s, start, schedule);
  }

  method StartIsBegin(run: Run, ghost k: nat)
    requires run.Observable(k) && run.stage == Spawned
    modifies run`status, run`cancelFn, run`stage, run`taken, run`trail
    ensures run.Seen() == Advance(old(run.Seen()), Begin(run.id))
  {
    run.Start(k);
  }

  method AnnounceStartIsAStep(run: Run, ghost k: nat)
    requires run.Observable(k) && run.stage == Started
    modifies run`lastSeq, run`events, run`stage, run`taken
    ensures run.Seen() == Advance(old(run.Seen()), AnnounceStarted(run.id))
  {
    hide Run.Observable, Own, OneFinal, NoneFinal;
    run.AnnounceStart(k);
  }

  /** Every event of a step: its start, retries, fallbacks and end. */
  method EmitIsWork(run: Run, ghost k: nat, kind: EventKind)
    requires run.Observable(k) && run.stage == Working && !IsFinal(kind)
    modifies run`lastSeq, run`events, run`taken
    ensures run.Seen() == Advance(old(run.Seen()), Work(run.id, kind))
  {
    hide Run.Observable, Own, OneFinal, NoneFinal;
    run.Announce(kind, k);
  }

  method CompleteIsDecide(run: Run, totalIn: int, totalOut: int, text: string)
    requires run.stage == Working
    modifies run`status, run`inputTokens, run`outputTokens, run`output, run`stage, run`taken, run`trail
    ensures run.Seen() == Advance(old(run.Seen()), Decide(run.id, Completes))
  {
    run.Complete(totalIn, totalOut, text);
  }

  method FailIsDecide(run: Run, nextStep: nat, code: Code)
    requires run.stage == Working && nextStep <= |run.steps|
    modifies run`status, run`errorCode, run`steps, run`inputTokens, run`outputTokens, run`stage, run`taken, run`trail
    ensures run.Seen() == Advance(old(run.Seen()), Decide(run.id, Fails))
  {
    run.Fail(nextStep, code);
  }

  method InterruptIsDecide(run: Run, stepIdx: nat, outcome: Outcome, code: Code)
    requires run.stage == Working && stepIdx <= |run.steps| && outcome in {IsCancelled, TimesOut}
    modifies run`status, run`errorCode, run`steps, run`stage, run`taken, run`trail
    ensures run.Seen() == Advance(old(run.Seen()), Decide(run.id, outcome))
  {
    run.Interrupt(stepIdx, outcome, StatusOf(outcome), code);
  }

  method AnnounceFinalIsAStep(run: Run, ghost k: nat, event: EventKind)
    requires run.Observable(k) && run.stage == Decided && OneFinal([event], run.status)
    modifies run`lastSeq, run`events, run`stage, run`taken
    ensures run.Seen() == Advance(old(run.Seen()), AnnounceFinal(run.id, event))
  {
    hide Own, NoneFinal;
    run.AnnounceFinal(event, k);
  }

  method CloseDoneIsClose(run: Run, ghost k: nat)
    requires run.Observable(k) && run.stage == FinalEmitted
    modifies run`doneClosed, run`stage, run`taken
    ensures run.Seen() == Advance(old(run.Seen()), Close(run.id))
  {
    run.CloseDone(k);
  }

  method ReturnSlotIsRelease(run: Run, ghost k: nat)
    requires run.Observable(k) && run.stage == Closed
    modifies run`slotsReturned, run`stage, run`taken
    ensures run.Seen() == Advance(old(run.Seen()), Release(run.id))
  {
    run.ReturnSlot(k);
  }

  method RequestCancelIsAStep(run: Run, ghost k: nat)
    requires run.Observable(k)
    modifies run`status, run`signalling, run`announcing, run`taken, run`trail
    ensures run.Seen() == Advance(old(run.Seen()), RequestCancel(run.id))
  {
    var _ := run.RequestCancel(k);
  }

  method SignalCancelIsAStep(run: Run, ghost k: nat)
    requires run.Observable(k) && run.signalling > 0
    modifies run`ctx, run`signalling, run`announcing, run`taken
    ensures run.Seen() == Advance(old(run.Seen()), SignalCancel(run.id))
  {
    run.SignalCancel(k);
  }

  method AnnounceCancelIsAStep(run: Run, ghost k: nat)
    requires run.Observable(k) && run.announcing > 0
    modifies run`announcing, run`lastSeq, run`events, run`taken
    ensures run.Seen() == Advance(old(run.Seen()), AnnounceCancel(run.id))
  {
    hide Run.Observable, Own, OneFinal, NoneFinal;
    run.AnnounceCancel(k);
  }
}
