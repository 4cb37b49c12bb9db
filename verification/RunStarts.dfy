/** Idempotent starts over time (StartRun in platform/workflow/service.go over IdemCheck and IdemRecord in
    platform/workflow/run.go).  StartRun is one atomic step; keys and payloads are given by their hashes. */
module RunStarts {
  import opened Wrappers

  type Hash = string

  type RunID = nat

  datatype IdemEntry = IdemEntry(runID: RunID, payload: Hash, expires: int)

  const SWEEP_ABOVE := 4096

  /** `key` is empty for a start without an idempotency key; `slot` tells whether a run slot is free, and
      `persists` whether the new run's first write succeeds. */
  datatype Start = Start(key: Hash, payload: Hash, slot: bool, persists: bool)

  datatype Answer = Existing(run: RunID) | Created(run: RunID) | Conflict | CapacityExceeded | PersistFailed

  datatype Check = Unknown | Known(run: RunID) | Mismatch

  // ---------------------------------------------------------------- on values

  /** The entry that still counts at `now`. */
  function Live(idem: map<Hash, IdemEntry>, key: Hash, now: int): Option<IdemEntry> {
    if key in idem && now <= idem[key].expires then Some(idem[key]) else None
  }

  function Checked(idem: map<Hash, IdemEntry>, key: Hash, payload: Hash, now: int): Check {
    match Live(idem, key, now)
    case None => Unknown
    case Some(e) => if e.payload != payload then Mismatch else Known(e.runID)
  }

  function Swept(idem: map<Hash, IdemEntry>, now: int): map<Hash, IdemEntry> {
    map k | k in idem && now <= idem[k].expires :: idem[k]
  }

  function Recorded(idem: map<Hash, IdemEntry>, key: Hash, e: IdemEntry, now: int,
                    sweepAbove: nat): map<Hash, IdemEntry>
  {
    (if |idem| > sweepAbove then Swept(idem, now) else idem)[key := e]
  }

  /** The key table, the runs that are retained, and the next run id; ids are never used twice. */
  datatype State = State(idem: map<Hash, IdemEntry>, runs: set<RunID>, next: RunID)

  function AnswerTo(s: State, req: Start, now: int): Answer {
    var check := if req.key == "" then Unknown else Checked(s.idem, req.key, req.payload, now);
    if check == Mismatch then Conflict
    else if check.Known? && check.run in s.runs then Existing(check.run)
    else if !req.slot then CapacityExceeded
    else if req.persists then Created(s.next) else PersistFailed
  }

  function After(s: State, req: Start, now: int, ttl: nat, sweepAbove: nat): State {
    var answer := AnswerTo(s, req, now);
    if !answer.Created? && !answer.PersistFailed? then s else
    // a run that could not be written stays in the store, without an entry for its key
    State(if req.key == "" || answer.PersistFailed? then s.idem
          else Recorded(s.idem, req.key, IdemEntry(s.next, req.payload, now + ttl), now, sweepAbove),
          s.runs + {s.next}, s.next + 1)
  }

  // ---------------------------------------------------------------- the store

  class RunIndex {
    const ttl: nat
    var idem: map<Hash, IdemEntry>
    var runs: set<RunID>
    var next: RunID

    constructor (ttl: nat)
      ensures Value() == State(map[], {}, 0) && this.ttl == ttl
    {
      this.ttl := ttl;
      idem, runs, next := map[], {}, 0;
    }

    function Value(): State
      reads this
    {
      State(idem, runs, next)
    }

    method IdemCheck(key: Hash, payload: Hash, now: int) returns (run: Option<RunID>, conflict: bool)
      ensures Checked(idem, key, payload, now)
        == if conflict then Mismatch else if run.Some? then Known(run.value) else Unknown
      ensures conflict ==> run == None
    {
      if key !in idem || now > idem[key].expires {
        return None, false;
      }
      var e := idem[key];
      if e.payload != payload {
        return None, true;
      }
      return Some(e.runID), false;
    }

    method IdemRecord(key: Hash, payload: Hash, run: RunID, now: int)
      modifies this`idem
      ensures idem == Recorded(old(idem), key, IdemEntry(run, payload, now + ttl), now, SWEEP_ABOVE)
      ensures |old(idem)| <= 4096 ==> idem == old(idem)[key := IdemEntry(run, payload, now + ttl)]
    {
      if |idem| > SWEEP_ABOVE {
        var todo := idem.Keys;
        while todo != {}
          invariant todo <= old(idem).Keys
          invariant idem == map k | k in old(idem) && (k in todo || now <= old(idem)[k].expires) :: old(idem)[k]
          decreases |todo|
        {
          var k :| k in todo;
          if now > idem[k].expires {
            idem := idem - {k};
          }
          todo := todo - {k};
        }
      }
      idem := idem[key := IdemEntry(run, payload, now + ttl)];
    }

    method StartRun(req: Start, now: int) returns (a: Answer)
      modifies this
      ensures a == AnswerTo(old(Value()), req, now)
      ensures Value() == After(old(Value()), req, now, ttl, SWEEP_ABOVE)
    {
      if req.key != "" {
        var run, conflict := IdemCheck(req.key, req.payload, now);
        if conflict {
          return Conflict;
        } else if run.Some? {
          if run.value in runs {
            return Existing(run.value);
          }
        }
      }
      if !req.slot {
        return CapacityExceeded;
      }
      var id := next;
      runs, next := runs + {id}, next + 1;
      if !req.persists {
        return PersistFailed;
      }
      if req.key != "" {
        IdemRecord(req.key, req.payload, id, now);
      }
      return Created(id);
    }
  }

  // ---------------------------------------------------------------- traces

  /** Starts, and runs that leave the store by retention. */
  datatype Event = Starts(req: Start, now: int) | Drops(run: RunID)

  function Apply(s: State, e: Event, ttl: nat, sweepAbove: nat): State {
    match e
    case Starts(req, now) => After(s, req, now, ttl, sweepAbove)
    case Drops(run) => s.(runs := s.runs - {run})
  }

  function Play(s: State, events: seq<Event>, ttl: nat, sweepAbove: nat): State
    decreases |events|
  {
    if events == [] then s else Play(Apply(s, events[0], ttl, sweepAbove), events[1..], ttl, sweepAbove)
  }

  /** The answers to the starts of a trace, in order. */
  function Answers(s: State, events: seq<Event>, ttl: nat, sweepAbove: nat): seq<Answer>
    decreases |events|
  {
    if events == [] then [] else
    (match events[0] case Starts(req, now) => [AnswerTo(s, req, now)] case Drops(_) => [])
    + Answers(Apply(s, events[0], ttl, sweepAbove), events[1..], ttl, sweepAbove)
  }

  /** A clock that never goes back. */
  predicate Timed(events: seq<Event>, from: int)
    decreases |events|
  {
    events == [] || match events[0]
                    case Starts(_, now) => from <= now && Timed(events[1..], now)
                    case Drops(_) => Timed(events[1..], from)
  }

  /** The table knows that `key` started `run` with `payload`, and still holds the run. */
  predicate Remembers(s: State, key: Hash, e: IdemEntry) {
    key in s.idem && s.idem[key] == e && e.runID in s.runs
  }

  /** Within the entry's lifetime, and while the run is retained. */
  predicate Within(events: seq<Event>, e: IdemEntry) {
    forall x <- events :: (x.Starts? ==> x.now <= e.expires) && (x.Drops? ==> x.run != e.runID)
  }

  lemma ApplyRemembers(s: State, key: Hash, e: IdemEntry, x: Event, ttl: nat, sweepAbove: nat)
    requires key != "" && Remembers(s, key, e) && Within([x], e)
    ensures Remembers(Apply(s, x, ttl, sweepAbove), key, e)
  {
    assert x in [x];
  }

  lemma {:induction false} PlayRemembers(s: State, key: Hash, e: IdemEntry, events: seq<Event>, ttl: nat,
                                         sweepAbove: nat)
    requires key != "" && Remembers(s, key, e) && Within(events, e)
    ensures Remembers(Play(s, events, ttl, sweepAbove), key, e)
    decreases |events|
  {
    hide Apply, Remembers;
    if events != [] {
      assert events[0] in events;
      ApplyRemembers(s, key, e, events[0], ttl, sweepAbove);
      PlayRemembers(Apply(s, events[0], ttl, sweepAbove), key, e, events[1..], ttl, sweepAbove);
    }
  }

  /** A start with a key creates its run at most once: while the entry lives and the run is retained, and
      whatever else is started or dropped, a repeat returns that run and another payload is a conflict. */
  lemma RepeatsGiveOneRun(s: State, first: Start, t: int, events: seq<Event>, again: Start, now: int, ttl: nat,
                          sweepAbove: nat)
    requires first.key != "" && AnswerTo(s, first, t).Created? && again.key == first.key
    requires Within(events, IdemEntry(s.next, first.payload, t + ttl)) && now <= t + ttl
    ensures AnswerTo(Play(After(s, first, t, ttl, sweepAbove), events, ttl, sweepAbove), again, now)
      == if again.payload == first.payload then Existing(s.next) else Conflict
  {
    var entry := IdemEntry(s.next, first.payload, t + ttl);
    PlayRemembers(After(s, first, t, ttl, sweepAbove), first.key, entry, events, ttl, sweepAbove);
  }

  /** Two tables that give the same answers from `now` on. */
  ghost predicate SameFrom(s: State, u: State, now: int) {
    s.runs == u.runs && s.next == u.next && forall key :: Live(s.idem, key, now) == Live(u.idem, key, now)
  }

  lemma SameLater(s: State, u: State, from: int, now: int)
    requires SameFrom(s, u, from) && from <= now
    ensures SameFrom(s, u, now)
  {
    forall key ensures Live(s.idem, key, now) == Live(u.idem, key, now) {
      assert Live(s.idem, key, from) == Live(u.idem, key, from);
    }
  }

  lemma RecordedLive(idem: map<Hash, IdemEntry>, key: Hash, e: IdemEntry, now: int, sweepAbove: nat, k: Hash)
    ensures Live(Recorded(idem, key, e, now, sweepAbove), k, now)
      == if k == key then (if now <= e.expires then Some(e) else None) else Live(idem, k, now)
  {
  }

  lemma StartKeepsSame(s: State, u: State, req: Start, now: int, ttl: nat, a: nat, b: nat)
    requires SameFrom(s, u, now)
    ensures AnswerTo(s, req, now) == AnswerTo(u, req, now)
    ensures SameFrom(After(s, req, now, ttl, a), After(u, req, now, ttl, b), now)
  {
    hide Recorded, Live;
    var s', u' := After(s, req, now, ttl, a), After(u, req, now, ttl, b);
    forall key ensures Live(s'.idem, key, now) == Live(u'.idem, key, now) {
      RecordedLive(s.idem, req.key, IdemEntry(s.next, req.payload, now + ttl), now, a, key);
      RecordedLive(u.idem, req.key, IdemEntry(s.next, req.payload, now + ttl), now, b, key);
    }
  }

  /** Sweeping expired entries changes no answer of any trace, whenever it happens. */
  lemma {:induction false} SweepingChangesNoAnswer(s: State, u: State, events: seq<Event>, from: int, ttl: nat, a: nat,
                                                   b: nat)
    requires SameFrom(s, u, from) && Timed(events, from)
    ensures Answers(s, events, ttl, a) == Answers(u, events, ttl, b)
    decreases |events|
  {
    hide AnswerTo, After, Live;
    if events != [] {
      match events[0]
      case Starts(req, now) =>
        SameLater(s, u, from, now);
        StartKeepsSame(s, u, req, now, ttl, a, b);
        SweepingChangesNoAnswer(After(s, req, now, ttl, a), After(u, req, now, ttl, b), events[1..], now, ttl, a, b);
      case Drops(run) =>
        SweepingChangesNoAnswer(Apply(s, events[0], ttl, a), Apply(u, events[0], ttl, b), events[1..], from, ttl, a, b);
    }
  }

  /** The answer to a start, case by case: a key that is remembered decides, whether there is room or not; otherwise
      a free slot and a successful write make a new run, and nothing else does. */
  lemma AnswersByCase(s: State, req: Start, now: int, ttl: nat, sweepAbove: nat)
    ensures var known := req.key != "" && req.key in s.idem && now <= s.idem[req.key].expires;
      var a, t := AnswerTo(s, req, now), After(s, req, now, ttl, sweepAbove);
      && (known && s.idem[req.key].payload != req.payload ==> a == Conflict)
      && (known && s.idem[req.key].payload == req.payload && s.idem[req.key].runID in s.runs ==>
           a == Existing(s.idem[req.key].runID))
      && (!known || (s.idem[req.key].payload == req.payload && s.idem[req.key].runID !in s.runs) ==>
           a == if !req.slot then CapacityExceeded else if req.persists then Created(s.next) else PersistFailed)
      && (a.Created? || a.PersistFailed? ==> t.next == s.next + 1 && t.runs == s.runs + {s.next})
      && (!a.Created? && !a.PersistFailed? ==> t == s)
      && (a.Created? && req.key != "" ==>
           req.key in t.idem && t.idem[req.key] == IdemEntry(s.next, req.payload, now + ttl))
  {
  }
}
