/** Admission to the orchestrator (platform/orchestrator/orchestrator.go, admit): a bounded queue in front of
    a bounded number of running requests.  Each channel operation is one step. */
module Admission {

  type RequestID = nat

  /** Where a request stands: waiting for a slot; holding a slot and its queue place; giving up with its
      queue place; running.  A request that is not in the map is outside. */
  datatype Phase = Queued | Granted | Leaving | Running

  /** Tokens in the two channels, and the phase of every request inside. */
  datatype State = State(queue: nat, slots: nat, phases: map<RequestID, Phase>)

  datatype Step =
    | Enter(id: RequestID)
    | Take(id: RequestID)      // o.sem <- struct{}{}
    | GiveUp(id: RequestID)    // ctx.Done()
    | Receive(id: RequestID)   // <-o.queue
    | Finish(id: RequestID)    // <-o.sem, by the release function

  datatype Limits = Limits(maxConcurrent: nat, maxQueue: nat)

  const EMPTY := State(0, 0, map[])

  predicate Is(s: State, id: RequestID, phase: Phase) {
    id in s.phases && s.phases[id] == phase
  }

  /** A blocked or impossible step changes nothing; so does an Enter that is turned away. */
  function Apply(s: State, step: Step, limits: Limits): State {
    match step
    case Enter(id) =>
      if id in s.phases || s.queue >= limits.maxQueue then s
      else s.(queue := s.queue + 1, phases := s.phases[id := Queued])
    case Take(id) =>
      if Is(s, id, Queued) && s.slots < limits.maxConcurrent
      then s.(slots := s.slots + 1, phases := s.phases[id := Granted]) else s
    case GiveUp(id) =>
      if Is(s, id, Queued) then s.(phases := s.phases[id := Leaving]) else s
    case Receive(id) =>
      if s.queue == 0 then s
      else if Is(s, id, Granted) then s.(queue := s.queue - 1, phases := s.phases[id := Running])
      else if Is(s, id, Leaving) then s.(queue := s.queue - 1, phases := s.phases - {id})
      else s
    case Finish(id) =>
      if s.slots > 0 && Is(s, id, Running) then s.(slots := s.slots - 1, phases := s.phases - {id}) else s
  }

  function Play(s: State, schedule: seq<Step>, limits: Limits): State
    decreases |schedule|
  {
    if schedule == [] then s else Play(Apply(s, schedule[0], limits), schedule[1..], limits)
  }

  function Waiting(s: State): set<RequestID> {
    set id | id in s.phases && s.phases[id] != Running
  }

  function Working(s: State): set<RequestID> {
    set id | id in s.phases && (s.phases[id] == Granted || s.phases[id] == Running)
  }

  predicate Inv(s: State, limits: Limits) {
    && s.queue == |Waiting(s)| <= limits.maxQueue
    && s.slots == |Working(s)| <= limits.maxConcurrent
  }

  function Queueing(s: State): set<RequestID> {
    Waiting(s) - Working(s)
  }

  function Bit(ids: set<RequestID>, id: RequestID): nat {
    if id in ids then 1 else 0
  }

  lemma OneApart(a: set<RequestID>, b: set<RequestID>, id: RequestID)
    requires a - {id} == b - {id}
    ensures |a| - Bit(a, id) == |b| - Bit(b, id)
  {
    assert a == if id in a then (a - {id}) + {id} else a - {id};
    assert b == if id in b then (b - {id}) + {id} else b - {id};
  }

  ghost predicate SameOthers(s: State, t: State, id: RequestID) {
    forall other :: other != id ==>
      (other in t.phases <==> other in s.phases) && (other in s.phases ==> t.phases[other] == s.phases[other])
  }

  lemma SameOthersSameSets(s: State, t: State, id: RequestID)
    requires SameOthers(s, t, id)
    ensures Waiting(t) - {id} == Waiting(s) - {id}
    ensures Working(t) - {id} == Working(s) - {id}
  {
  }

  /** A change of one request's phase changes the counts by that request alone. */
  lemma CountsFollow(s: State, t: State, id: RequestID)
    requires SameOthers(s, t, id)
    ensures |Waiting(t)| - Bit(Waiting(t), id) == |Waiting(s)| - Bit(Waiting(s), id)
    ensures |Working(t)| - Bit(Working(t), id) == |Working(s)| - Bit(Working(s), id)
    ensures |Queueing(t)| - Bit(Queueing(t), id) == |Queueing(s)| - Bit(Queueing(s), id)
  {
    hide Waiting, Working, Bit, SameOthers;
    SameOthersSameSets(s, t, id);
    OneApart(Waiting(t), Waiting(s), id);
    OneApart(Working(t), Working(s), id);
    DifferencesApart(Waiting(t), Working(t), Waiting(s), Working(s), id);
    OneApart(Queueing(t), Queueing(s), id);
  }

  lemma DifferencesApart(a: set<RequestID>, b: set<RequestID>, c: set<RequestID>, d: set<RequestID>, id: RequestID)
    requires a - {id} == c - {id} && b - {id} == d - {id}
    ensures (a - b) - {id} == (c - d) - {id}
  {
    forall x ensures x in (a - b) - {id} <==> x in (c - d) - {id} {
      assert x in a - {id} <==> x in c - {id};
      assert x in b - {id} <==> x in d - {id};
    }
  }

  lemma BitsOf(s: State, id: RequestID)
    ensures Bit(Waiting(s), id) == if id in s.phases && s.phases[id] != Running then 1 else 0
    ensures Bit(Working(s), id) == if Is(s, id, Granted) || Is(s, id, Running) then 1 else 0
    ensures Bit(Queueing(s), id) == if Is(s, id, Queued) || Is(s, id, Leaving) then 1 else 0
  {
  }

  lemma Counted(ids: set<RequestID>, id: RequestID)
    ensures Bit(ids, id) <= |ids|
  {
  }

  lemma StepTouchesOne(s: State, step: Step, limits: Limits)
    ensures SameOthers(s, Apply(s, step, limits), step.id)
  {
  }

  lemma ApplyKeepsInv(s: State, step: Step, limits: Limits)
    requires Inv(s, limits)
    ensures Inv(Apply(s, step, limits), limits)
  {
    hide Waiting, Working, Bit;
    var t := Apply(s, step, limits);
    StepTouchesOne(s, step, limits);
    CountsFollow(s, t, step.id);
    BitsOf(s, step.id);
    BitsOf(t, step.id);
  }

  lemma {:induction false} PlayKeepsInv(s: State, schedule: seq<Step>, limits: Limits)
    requires Inv(s, limits)
    ensures Inv(Play(s, schedule, limits), limits)
    decreases |schedule|
  {
    hide Inv, Apply;
    if schedule != [] {
      ApplyKeepsInv(s, schedule[0], limits);
      PlayKeepsInv(Apply(s, schedule[0], limits), schedule[1..], limits);
    }
  }

  /** In every interleaving the tokens count the requests that hold them, so at most `maxConcurrent` run, at
      most `maxQueue` wait, and when nobody is inside every token is back. */
  lemma EveryScheduleIsBounded(schedule: seq<Step>, limits: Limits)
    ensures var s := Play(EMPTY, schedule, limits);
      && s.slots == |Working(s)| <= limits.maxConcurrent
      && s.queue == |Waiting(s)| <= limits.maxQueue
      && (s.phases == map[] ==> s == EMPTY)
  {
    assert Waiting(EMPTY) == {} && Working(EMPTY) == {};
    PlayKeepsInv(EMPTY, schedule, limits);
    var s := Play(EMPTY, schedule, limits);
    assert s.phases == map[] ==> Waiting(s) == {} && Working(s) == {};
  }

  /** A request is turned away exactly while `maxQueue` others hold a place; it never waits to receive its
      own token back. */
  lemma TurnedAwayIff(schedule: seq<Step>, limits: Limits, id: RequestID)
    ensures var s := Play(EMPTY, schedule, limits);
      && (id !in s.phases ==> (Apply(s, Enter(id), limits) == s <==> |Waiting(s)| == limits.maxQueue))
      && (Is(s, id, Granted) || Is(s, id, Leaving) ==> Apply(s, Receive(id), limits) != s)
      && (Is(s, id, Running) ==> Apply(s, Finish(id), limits) != s)
  {
    EveryScheduleIsBounded(schedule, limits);
    var s := Play(EMPTY, schedule, limits);
    assert Is(s, id, Granted) || Is(s, id, Leaving) ==> id in Waiting(s);
    assert Is(s, id, Running) ==> id in Working(s);
  }

  // ---------------------------------------------------------------- no token is ever lost

  /** The steps the requests inside still have to make, weighted so that each lowers it. */
  function Rank(s: State): nat {
    2 * |Waiting(s)| + |Working(s)| + 2 * |Queueing(s)|
  }

  lemma RankFalls(s: State, id: RequestID, limits: Limits)
    requires Inv(s, limits) && id in s.phases
    ensures s.phases[id] == Queued && s.slots < limits.maxConcurrent ==> Rank(Apply(s, Take(id), limits)) < Rank(s)
    ensures s.phases[id] == Granted || s.phases[id] == Leaving ==> Rank(Apply(s, Receive(id), limits)) < Rank(s)
    ensures s.phases[id] == Running ==> Rank(Apply(s, Finish(id), limits)) < Rank(s)
  {
    hide Waiting, Working, Queueing, Bit;
    var step := match s.phases[id] case Queued => Take(id) case Running => Finish(id) case _ => Receive(id);
    var t := Apply(s, step, limits);
    StepTouchesOne(s, step, limits);
    CountsFollow(s, t, id);
    BitsOf(s, id);
    BitsOf(t, id);
    Counted(Waiting(s), id);
    Counted(Working(s), id);
  }

  /** Whenever someone is inside, some request inside can move on by itself. */
  lemma SomeoneCanMove(s: State, limits: Limits) returns (step: Step)
    requires Inv(s, limits) && s.phases != map[] && limits.maxConcurrent > 0
    ensures !step.Enter? && Rank(Apply(s, step, limits)) < Rank(s)
  {
    hide Apply, Rank;
    if id :| id in s.phases && s.phases[id] != Queued {
      step := if s.phases[id] == Running then Finish(id) else Receive(id);
      RankFalls(s, id, limits);
    } else {
      var id :| id in s.phases;
      step := Take(id);
      assert Working(s) == {};
      RankFalls(s, id, limits);
    }
  }

  lemma {:induction false} Drain(s: State, limits: Limits) returns (schedule: seq<Step>)
    requires Inv(s, limits) && limits.maxConcurrent > 0
    ensures (forall step <- schedule :: !step.Enter?) && Play(s, schedule, limits) == EMPTY
    decreases Rank(s)
  {
    if s.phases == map[] {
      assert Waiting(s) == {} && Working(s) == {};
      schedule := [];
    } else {
      var step := SomeoneCanMove(s, limits);
      ApplyKeepsInv(s, step, limits);
      var rest := Drain(Apply(s, step, limits), limits);
      schedule := [step] + rest;
      assert schedule[1..] == rest;
    }
  }

  predicate NobodyEnters(schedule: seq<Step>) {
    forall step <- schedule :: !step.Enter?
  }

  /** No deadlock and no lost token: from every reachable state the requests inside can all leave, and then
      both channels are empty. */
  lemma EveryStateCanDrain(schedule: seq<Step>, limits: Limits)
    requires limits.maxConcurrent > 0
    ensures exists more :: NobodyEnters(more) && Play(Play(EMPTY, schedule, limits), more, limits) == EMPTY
  {
    assert Waiting(EMPTY) == {} && Working(EMPTY) == {};
    PlayKeepsInv(EMPTY, schedule, limits);
    var more := Drain(Play(EMPTY, schedule, limits), limits);
    assert NobodyEnters(more);
  }
}
