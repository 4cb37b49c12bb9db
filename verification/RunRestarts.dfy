/** Reopening the run store (OpenRunStore in platform/workflow/run.go): runs that were under way when the
    process stopped are closed, never resumed. */
module RunRestarts {
  import opened Wrappers
  import opened Runs

  /** A run file: unreadable, or holding a record. */
  type File = Option<Record>

  predicate Active(s: StepStatus) {
    s.StepRunning? || s.StepRetrying? || s.StepPending?
  }

  function Closing(st: StepState): StepState {
    if Active(st.status) then st.(status := StepCancelled) else st
  }

  function Closed(steps: seq<StepState>): seq<StepState> {
    seq(|steps|, i requires 0 <= i < |steps| => Closing(steps[i]))
  }

  function Recovered(r: Record): Record {
    if Terminal(r.status) then r else Record(RunFailed, None, Closed(r.steps))
  }

  /** The records of the readable files, recovered. */
  function Loaded(disk: map<RunID, File>): map<RunID, Record> {
    map id | id in disk && disk[id].Some? :: Recovered(disk[id].value)
  }

  function Rewritten(file: File, written: bool): File {
    if file.Some? && written then Some(Recovered(file.value)) else file
  }

  function WrittenBack(files: map<RunID, File>, writable: set<RunID>): map<RunID, File> {
    map id | id in files :: Rewritten(files[id], id in writable)
  }

  class RunStore {
    var runs: map<RunID, Record>
    var disk: map<RunID, File>

    /** `writable` are the files that can be written back; a failed write is ignored. */
    constructor Open(files: map<RunID, File>, writable: set<RunID>)
      ensures runs == Loaded(files) && disk == WrittenBack(files, writable)
    {
      runs, disk := map[], files;
      new;
      hide Recovered, Terminal, Loaded, WrittenBack, Rewritten;
      var todo := files.Keys;
      while todo != {}
        invariant todo <= files.Keys && disk.Keys == files.Keys
        invariant forall id :: id in runs <==> id in files && id !in todo && files[id].Some?
        invariant forall id <- runs :: runs[id] == Recovered(files[id].value)
        invariant forall id <- files ::
          disk[id] == if id in todo then files[id] else Rewritten(files[id], id in writable)
        decreases |todo|
      {
        var id :| id in todo;
        todo := todo - {id};
        if disk[id].Some? {
          var r := disk[id].value;
          TerminalStays(r);
          if !Terminal(r.status) {
            r := CloseRun(r);
            if id in writable {
              disk := disk[id := Some(r)];
            }
          }
          runs := runs[id := r];
        }
        RewrittenIs(files[id], id in writable);
      }
      AllRead(files, writable, runs, disk);
    }
  }

  lemma RewrittenIs(file: File, written: bool)
    ensures Rewritten(file, written) == if file.Some? && written then Some(Recovered(file.value)) else file
  {
  }

  lemma AllRead(files: map<RunID, File>, writable: set<RunID>, runs: map<RunID, Record>, disk: map<RunID, File>)
    requires forall id :: id in runs <==> id in files && files[id].Some?
    requires forall id <- runs :: runs[id] == Recovered(files[id].value)
    requires disk.Keys == files.Keys && forall id <- files :: disk[id] == Rewritten(files[id], id in writable)
    ensures runs == Loaded(files) && disk == WrittenBack(files, writable)
  {
  }

  lemma TerminalStays(r: Record)
    ensures Terminal(r.status) ==> Recovered(r) == r
  {
  }

  method CloseRun(was: Record) returns (r: Record)
    requires !Terminal(was.status)
    ensures r == Recovered(was)
  {
    r := was.(status := RunFailed, code := None);
    for i := 0 to |r.steps|
      invariant r.status == RunFailed && r.code == None && |r.steps| == |was.steps|
      invariant forall k :: 0 <= k < |r.steps| ==> r.steps[k] == if k < i then Closing(was.steps[k]) else was.steps[k]
    {
      var st := r.steps[i];
      if st.status == StepRunning || st.status == StepRetrying || st.status == StepPending {
        r := r.(steps := r.steps[i := st.(status := StepCancelled)]);
      }
    }
  }

  // ---------------------------------------------------------------- what a restart finds

  /** Completed steps, then at most one that failed, timed out or was cut off, then cancelled ones. */
  ghost predicate CutOff(steps: seq<StepState>, k: nat) {
    Phased(steps, k, {StepFailed, StepTimedOut}, StepCancelled)
  }

  /** Terminal: a finished run as it was, any other FAILED as interrupted, with its completed steps and everything
      they used kept and nothing left to run. */
  ghost predicate Ends(r: Record, after: Record) {
    && Terminal(after.status) && (Terminal(r.status) ==> after == r)
    && (!Terminal(r.status) ==> after.status == RunFailed && after.code == None)
    && (!Terminal(r.status) ==> exists k: nat :: CutOff(after.steps, k))
    && |after.steps| == |r.steps|
    && forall i :: 0 <= i < |r.steps| ==>
      && (!Active(r.steps[i].status) ==> after.steps[i] == r.steps[i])
      && (after.steps[i].status == StepCompleted <==> r.steps[i].status == StepCompleted)
  }

  lemma RestartEndsEveryRun(r: Record)
    requires Persistable(r)
    ensures Ends(r, Recovered(r))
  {
    var k: nat :| ShapedBy(r, k);
    if !Terminal(r.status) {
      assert CutOff(Recovered(r).steps, k);
    }
  }

  /** Whichever of its locked sections wrote the record that is on disk when the process stops (later writes may
      have failed, which goes unnoticed), the restart ends the run.  If the last write succeeded, that record is
      the run as it was. */
  lemma RestartEndsWhatARunWrote(run: Run, k: nat, r: Record)
    requires run.Observable(k) && r in run.trail
    ensures Ends(r, Recovered(r))
    ensures run.trail[|run.trail| - 1] == Record(run.status, Some(run.errorCode), run.steps)
  {
    hide Ends, Recovered, Persistable, Numbered, Own, OneFinal, NoneFinal, Finished, InProgress, Follow;
    RestartEndsEveryRun(r);
  }

  /** Disk contents of a restart that stopped after recovering only some files. */
  ghost predicate PartlyRecovered(files: map<RunID, File>, disk: map<RunID, File>) {
    && disk.Keys == files.Keys
    && forall id <- files :: disk[id] == files[id] || (files[id].Some? && disk[id] == Some(Recovered(files[id].value)))
  }

  /** A restart may itself be cut short anywhere: the next one loads the same runs. */
  lemma RestartIsCrashSafe(files: map<RunID, File>, disk: map<RunID, File>)
    requires PartlyRecovered(files, disk)
    ensures Loaded(disk) == Loaded(files)
  {
    forall id | id in files && files[id].Some? ensures Recovered(disk[id].value) == Recovered(files[id].value) {
      RecoveredOnce(files[id].value);
    }
  }

  lemma WriteBacksRecoverAPart(files: map<RunID, File>, writable: set<RunID>)
    ensures PartlyRecovered(files, WrittenBack(files, writable))
    ensures Loaded(WrittenBack(files, writable)) == Loaded(files)
  {
    hide Recovered;
    RestartIsCrashSafe(files, WrittenBack(files, writable));
  }

  lemma RecoveredOnce(r: Record)
    ensures Recovered(Recovered(r)) == Recovered(r)
  {
  }
}
