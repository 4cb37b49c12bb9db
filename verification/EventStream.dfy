/** Event fan-out and Last-Event-ID resume (RunStore.Emit and RunStore.Subscribe in
    platform/workflow/run.go; section 9.2.4 of the HTML Standard).

    `Emit` appends to the log and copies the list of subscribers under the lock, then delivers to each
    channel outside it.  Here the append, each delivery, each subscription and each receive is one step,
    so emitters (the runner and any number of CancelRun calls) and subscribers interleave freely. */
module EventStream {
  import opened Runs

  type SubID = nat

  type EmitterID = nat

  const CHANNEL_CAPACITY := 64

  /** A subscription: what it replayed, what its channel accepted since, and how many of the accepted
      events were already received.  `at` is the length of the log when it subscribed. */
  datatype Sub = Sub(lastSeq: int, at: nat, replay: seq<Event>, live: seq<Event>, received: nat, dropped: set<int>,
                     open: bool)

  /** An emitter between its append and its last delivery. */
  datatype Emission = Emission(event: Event, targets: set<SubID>)

  datatype State = State(log: seq<Event>, subs: map<SubID, Sub>, emitting: map<EmitterID, Emission>)

  datatype Step =
    | Append(emitter: EmitterID, kind: EventKind)
    | Deliver(emitter: EmitterID, sub: SubID)
    | Subscribe(sub: SubID, lastSeq: int)
    | Unsubscribe(sub: SubID)
    | Receive(sub: SubID)

  const INIT := State([], map[], map[])

  function OpenSubs(s: State): set<SubID> {
    set id | id in s.subs && s.subs[id].open
  }

  predicate Idle(s: State, emitter: EmitterID) {
    emitter !in s.emitting || s.emitting[emitter].targets == {}
  }

  /** A send that does not block: a full channel drops the event. */
  function Offer(sub: Sub, e: Event): Sub {
    if |sub.live| - sub.received < CHANNEL_CAPACITY then sub.(live := sub.live + [e])
    else sub.(dropped := sub.dropped + {e.seqNo})
  }

  /** An event is dropped exactly if 64 others wait in the channel. */
  lemma DroppedIff(sub: Sub, e: Event)
    ensures var after := Offer(sub, e);
      && (|sub.live| - sub.received >= 64 ==> after == sub.(dropped := sub.dropped + {e.seqNo}))
      && (|sub.live| - sub.received < 64 ==> after == sub.(live := sub.live + [e]))
  {
  }

  function Apply(s: State, step: Step): State {
    match step
    case Append(em, kind) =>
      if !Idle(s, em) then s else
      var e := Event(|s.log| + 1, kind);
      s.(log := s.log + [e], emitting := s.emitting[em := Emission(e, OpenSubs(s))])
    case Deliver(em, id) =>
      if em in s.emitting && id in s.emitting[em].targets && id in s.subs then
        s.(subs := s.subs[id := Offer(s.subs[id], s.emitting[em].event)],
           emitting := s.emitting[em := s.emitting[em].(targets := s.emitting[em].targets - {id})])
      else s
    case Subscribe(id, lastSeq) =>
      if id in s.subs then s else
      s.(subs := s.subs[id := Sub(lastSeq, |s.log|, After(s.log, lastSeq), [], 0, {}, true)])
    case Unsubscribe(id) =>
      if id in s.subs then s.(subs := s.subs[id := s.subs[id].(open := false)]) else s
    case Receive(id) =>
      if id in s.subs && s.subs[id].received < |s.subs[id].live|
      then s.(subs := s.subs[id := s.subs[id].(received := s.subs[id].received + 1)])
      else s
  }

  function Play(s: State, schedule: seq<Step>): State
    decreases schedule
  {
    if schedule == [] then s else Play(Apply(s, schedule[0]), schedule[1..])
  }

  // ---------------------------------------------------------------- no event twice

  ghost predicate Distinct(live: seq<Event>) {
    forall i, j | 0 <= i < j < |live| :: live[i].seqNo != live[j].seqNo
  }

  ghost predicate Accepted(sub: Sub, seqNo: int) {
    seqNo in sub.dropped || exists e <- sub.live :: e.seqNo == seqNo
  }

  ghost predicate SubOk(s: State, sub: Sub) {
    && sub.at <= |s.log| && sub.received <= |sub.live|
    && sub.replay == After(s.log[..sub.at], sub.lastSeq)
    && Distinct(sub.live)
    && (forall d <- sub.dropped :: sub.at < d <= |s.log|)
    && forall e <- sub.live :: sub.at < e.seqNo <= |s.log| && s.log[e.seqNo - 1] == e
  }

  /** An emitter still to deliver to a subscriber holds an event newer than the subscription which the
      subscriber has not been offered yet, and no other emitter holds the same event. */
  ghost predicate EmissionOk(s: State, em: EmitterID)
    requires em in s.emitting
  {
    var x := s.emitting[em];
    && 1 <= x.event.seqNo <= |s.log| && s.log[x.event.seqNo - 1] == x.event
    && (forall id <- x.targets :: id in s.subs && s.subs[id].at < x.event.seqNo && !Accepted(s.subs[id], x.event.seqNo))
    && forall other <- s.emitting :: other != em ==> s.emitting[other].event.seqNo != x.event.seqNo
  }

  ghost predicate Inv(s: State) {
    && Numbered(s.log)
    && (forall id <- s.subs :: SubOk(s, s.subs[id]))
    && forall em <- s.emitting :: EmissionOk(s, em)
  }

  lemma SubSurvivesAppend(s: State, t: State, sub: Sub, e: Event)
    requires SubOk(s, sub) && t.log == s.log + [e]
    ensures SubOk(t, sub) && !Accepted(sub, |t.log|) && sub.at < |t.log|
  {
    assert t.log[..sub.at] == s.log[..sub.at];
  }

  lemma EmissionSurvivesAppend(s: State, em: EmitterID, kind: EventKind, x: EmitterID)
    requires Inv(s) && Idle(s, em) && x in s.emitting && x != em
    ensures EmissionOk(Apply(s, Append(em, kind)), x)
  {
    hide SubOk, Accepted;
    assert EmissionOk(s, x);
  }

  lemma NewEmission(s: State, em: EmitterID, kind: EventKind)
    requires Inv(s) && Idle(s, em)
    ensures EmissionOk(Apply(s, Append(em, kind)), em)
  {
    hide SubOk, Accepted;
    var t := Apply(s, Append(em, kind));
    forall id | id in OpenSubs(s) ensures s.subs[id].at < |t.log| && !Accepted(s.subs[id], |t.log|) {
      SubSurvivesAppend(s, t, s.subs[id], t.log[|s.log|]);
    }
    forall other | other in t.emitting && other != em ensures t.emitting[other].event.seqNo != |t.log| {
      assert EmissionOk(s, other);
    }
  }

  lemma AppendKeepsInv(s: State, em: EmitterID, kind: EventKind)
    requires Inv(s) && Idle(s, em)
    ensures Inv(Apply(s, Append(em, kind)))
  {
    hide SubOk, EmissionOk, OpenSubs;
    var t := Apply(s, Append(em, kind));
    forall id | id in t.subs ensures SubOk(t, t.subs[id]) {
      SubSurvivesAppend(s, t, s.subs[id], t.log[|s.log|]);
    }
    forall x | x in t.emitting ensures EmissionOk(t, x) {
      if x == em {
        NewEmission(s, em, kind);
      } else {
        EmissionSurvivesAppend(s, em, kind, x);
      }
    }
  }

  lemma OfferKeepsSub(s: State, sub: Sub, e: Event)
    requires SubOk(s, sub) && sub.at < e.seqNo <= |s.log| && s.log[e.seqNo - 1] == e && !Accepted(sub, e.seqNo)
    ensures SubOk(s, Offer(sub, e))
    ensures forall n :: Accepted(Offer(sub, e), n) <==> Accepted(sub, n) || n == e.seqNo
  {
    var after := Offer(sub, e);
    assert |after.live| > |sub.live| ==> after.live[|sub.live|] == e;
    assert forall x :: x in after.live <==> x in sub.live || (x == e && after.live != sub.live);
  }

  lemma SubIgnoresEmitters(s: State, t: State, sub: Sub)
    requires SubOk(s, sub) && t.log == s.log
    ensures SubOk(t, sub)
  {
  }

  lemma DeliverKeepsInv(s: State, em: EmitterID, id: SubID)
    requires Inv(s) && em in s.emitting && id in s.emitting[em].targets && id in s.subs
    ensures Inv(Apply(s, Deliver(em, id)))
  {
    hide SubOk, Accepted, Offer;
    var t := Apply(s, Deliver(em, id));
    var e := s.emitting[em].event;
    assert EmissionOk(s, em);
    OfferKeepsSub(s, s.subs[id], e);
    forall x | x in t.subs ensures SubOk(t, t.subs[x]) {
      SubIgnoresEmitters(s, t, t.subs[x]);
    }
    OfferKeepsAt(s.subs[id], e);
    forall x | x in t.emitting ensures EmissionOk(t, x) {
      assert EmissionOk(s, x);
    }
  }

  lemma OfferKeepsAt(sub: Sub, e: Event)
    ensures Offer(sub, e).at == sub.at && Offer(sub, e).replay == sub.replay && Offer(sub, e).lastSeq == sub.lastSeq
  {
  }

  /** Steps of subscribers change neither what was accepted nor the log. */
  lemma SubscriberKeepsInv(s: State, step: Step)
    requires Inv(s) && (step.Subscribe? || step.Unsubscribe? || step.Receive?)
    ensures Inv(Apply(s, step))
  {
    hide EmissionOk, Accepted, Numbered, After;
    var t := Apply(s, step);
    assert s.log[..|s.log|] == s.log;
    forall id | id in t.subs ensures SubOk(t, t.subs[id]) {
      assert id in s.subs ==> SubOk(s, s.subs[id]);
    }
    SubscriberKeepsEmissions(s, step);
  }

  lemma SubscriberKeepsEmissions(s: State, step: Step)
    requires Inv(s) && (step.Subscribe? || step.Unsubscribe? || step.Receive?)
    ensures forall em <- Apply(s, step).emitting :: EmissionOk(Apply(s, step), em)
  {
    hide SubOk;
    var t := Apply(s, step);
    forall em | em in t.emitting ensures EmissionOk(t, em) {
      assert EmissionOk(s, em);
    }
  }

  lemma {:induction false} PlayKeepsInv(s: State, schedule: seq<Step>)
    requires Inv(s)
    ensures Inv(Play(s, schedule))
    decreases schedule
  {
    hide Inv;
    if schedule != [] {
      var t := Apply(s, schedule[0]);
      assert Inv(t) by {
        match schedule[0]
        case Append(em, kind) => if Idle(s, em) { AppendKeepsInv(s, em, kind); }
        case Deliver(em, id) => if t != s { DeliverKeepsInv(s, em, id); }
        case _ => SubscriberKeepsInv(s, schedule[0]);
      }
      PlayKeepsInv(t, schedule[1..]);
    }
  }

  /** Whatever the schedule: event `k` carries number `k + 1`, a subscription's replay is exactly the log
      between its Last-Event-ID and the moment it subscribed, everything it receives live is newer, is
      the logged event of that number, and is received once. */
  lemma NoEventTwice(schedule: seq<Step>, id: SubID)
    ensures var s := Play(INIT, schedule);
      && Numbered(s.log)
      && (id in s.subs ==>
          && s.subs[id].at <= |s.log| && s.subs[id].replay == After(s.log[..s.subs[id].at], s.subs[id].lastSeq)
          && Distinct(s.subs[id].replay + s.subs[id].live)
          && forall e <- s.subs[id].live :: s.subs[id].at < e.seqNo <= |s.log| && s.log[e.seqNo - 1] == e)
  {
    var s := Play(INIT, schedule);
    PlayKeepsInv(INIT, schedule);
    if id in s.subs {
      var sub := s.subs[id];
      assert SubOk(s, sub);
      ReplayIsOld(s.log, sub.at, sub.lastSeq);
    }
  }

  lemma ReplayIsOld(log: seq<Event>, at: nat, lastSeq: int)
    requires Numbered(log) && at <= |log|
    ensures Distinct(After(log[..at], lastSeq)) && forall e <- After(log[..at], lastSeq) :: e.seqNo <= at
  {
    var start := if lastSeq < 0 then 0 else lastSeq;
    var r := After(log[..at], lastSeq);
    assert forall i | 0 <= i < |r| :: r[i] == log[start + i];
  }

  // ---------------------------------------------------------------- one emitter

  ghost predicate OneEmitter(schedule: seq<Step>, em: EmitterID) {
    forall step <- schedule :: step.Append? ==> step.emitter == em
  }

  /** With a single emitter, a subscription that dropped nothing has accepted the log from its start on,
      up to the event still being delivered to it. */
  ghost predicate Contiguous(s: State, em: EmitterID) {
    && s.emitting.Keys <= {em}
    && (em in s.emitting ==> s.emitting[em].event.seqNo == |s.log|)
    && (em !in s.emitting ==> s.log == [])
    && forall id <- s.subs :: s.subs[id].open && s.subs[id].dropped == {} ==> Caught(s, em, id)
  }

  ghost predicate Caught(s: State, em: EmitterID, id: SubID)
    requires id in s.subs
  {
    var end := |s.log| - if Owed(s, em, id) then 1 else 0;
    s.subs[id].at <= end && s.subs[id].live == s.log[s.subs[id].at..end]
  }

  ghost predicate Owed(s: State, em: EmitterID, id: SubID) {
    em in s.emitting && id in s.emitting[em].targets
  }

  lemma AppendKeepsContiguous(s: State, em: EmitterID, kind: EventKind)
    requires Contiguous(s, em) && Inv(s) && Idle(s, em)
    ensures Contiguous(Apply(s, Append(em, kind)), em)
  {
    hide SubOk, EmissionOk;
    var t := Apply(s, Append(em, kind));
    forall id | id in t.subs && t.subs[id].open && t.subs[id].dropped == {} ensures Caught(t, em, id) {
      assert Caught(s, em, id) && id in OpenSubs(s);
      var at := s.subs[id].at;
      assert t.log[at..|s.log|] == s.log[at..|s.log|];
    }
  }

  lemma DeliverKeepsContiguous(s: State, em: EmitterID, id: SubID)
    requires Contiguous(s, em) && Inv(s) && em in s.emitting && id in s.emitting[em].targets && id in s.subs
    ensures Contiguous(Apply(s, Deliver(em, id)), em)
  {
    hide SubOk, Accepted;
    assert EmissionOk(s, em);
    var t := Apply(s, Deliver(em, id));
    var e := s.emitting[em].event;
    assert e == s.log[|s.log| - 1];
    forall x | x in t.subs && t.subs[x].open && t.subs[x].dropped == {} ensures Caught(t, em, x) {
      assert Caught(s, em, x);
      if x == id {
        var at := s.subs[id].at;
        assert s.log[at..|s.log|] == s.log[at..|s.log| - 1] + [e];
      }
    }
  }

  /** A subscriber's own step changes neither log nor emissions, and of other subscriptions nothing. */
  lemma CaughtStays(s: State, t: State, em: EmitterID, x: SubID)
    requires x in s.subs && x in t.subs && Caught(s, em, x)
    requires t.log == s.log && t.emitting == s.emitting
    requires t.subs[x].at == s.subs[x].at && t.subs[x].live == s.subs[x].live
    ensures Caught(t, em, x)
  {
  }

  lemma NewSubscriberIsCaught(s: State, em: EmitterID, id: SubID, lastSeq: int)
    requires Inv(s) && id !in s.subs
    ensures Caught(Apply(s, Subscribe(id, lastSeq)), em, id)
  {
    hide SubOk, After, Numbered, Accepted;
    assert em in s.emitting ==> EmissionOk(s, em);
  }

  lemma SubscribeKeepsContiguous(s: State, em: EmitterID, id: SubID, lastSeq: int)
    requires Contiguous(s, em) && Inv(s)
    ensures Contiguous(Apply(s, Subscribe(id, lastSeq)), em)
  {
    hide Inv, Caught, After;
    var t := Apply(s, Subscribe(id, lastSeq));
    forall x | x in t.subs && t.subs[x].open && t.subs[x].dropped == {} ensures Caught(t, em, x) {
      if x in s.subs {
        CaughtStays(s, t, em, x);
      } else {
        NewSubscriberIsCaught(s, em, id, lastSeq);
      }
    }
  }

  lemma UnsubscribeKeepsContiguous(s: State, em: EmitterID, id: SubID)
    requires Contiguous(s, em)
    ensures Contiguous(Apply(s, Unsubscribe(id)), em)
  {
    hide Caught;
    var t := Apply(s, Unsubscribe(id));
    forall x | x in t.subs && t.subs[x].open && t.subs[x].dropped == {} ensures Caught(t, em, x) {
      CaughtStays(s, t, em, x);
    }
  }

  lemma ReceiveKeepsContiguous(s: State, em: EmitterID, id: SubID)
    requires Contiguous(s, em)
    ensures Contiguous(Apply(s, Receive(id)), em)
  {
    hide Caught;
    var t := Apply(s, Receive(id));
    forall x | x in t.subs && t.subs[x].open && t.subs[x].dropped == {} ensures Caught(t, em, x) {
      CaughtStays(s, t, em, x);
    }
  }

  lemma {:induction false} PlayKeepsContiguous(s: State, schedule: seq<Step>, em: EmitterID)
    requires Inv(s) && Contiguous(s, em) && OneEmitter(schedule, em)
    ensures Contiguous(Play(s, schedule), em)
    decreases schedule
  {
    hide Inv, Contiguous;
    if schedule != [] {
      var step := schedule[0];
      var t := Apply(s, step);
      assert step in schedule;
      PlayKeepsInv(s, [step]);
      assert Play(s, [step]) == Play(t, []);
      assert Contiguous(t, em) by {
        match step
        case Append(x, kind) => if Idle(s, em) { AppendKeepsContiguous(s, em, kind); }
        case Deliver(x, id) => if t != s { OnlyEmitter(s, em, x); DeliverKeepsContiguous(s, em, id); }
        case Subscribe(id, lastSeq) => SubscribeKeepsContiguous(s, em, id, lastSeq);
        case Unsubscribe(id) => UnsubscribeKeepsContiguous(s, em, id);
        case Receive(id) => ReceiveKeepsContiguous(s, em, id);
      }
      PlayKeepsContiguous(t, schedule[1..], em);
    }
  }

  lemma OnlyEmitter(s: State, em: EmitterID, x: EmitterID)
    requires Contiguous(s, em) && x in s.emitting
    ensures x == em
  {
  }

  /** With one emitter, once its last emission is delivered, a subscriber that is still subscribed and
      dropped nothing has replayed and been sent exactly the log after its Last-Event-ID (or after the
      moment it subscribed, if the id it gave was not yet in use), in order. */
  lemma ReplayThenLiveIsTheLog(schedule: seq<Step>, em: EmitterID, id: SubID)
    requires OneEmitter(schedule, em)
    ensures var s := Play(INIT, schedule);
      id in s.subs && s.subs[id].open && s.subs[id].dropped == {} && Idle(s, em) ==>
        s.subs[id].replay + s.subs[id].live
        == After(s.log, if s.subs[id].lastSeq < s.subs[id].at then s.subs[id].lastSeq else s.subs[id].at)
  {
    var s := Play(INIT, schedule);
    PlayKeepsInv(INIT, schedule);
    PlayKeepsContiguous(INIT, schedule, em);
    hide Play, SubOk;
    if id in s.subs && s.subs[id].open && s.subs[id].dropped == {} && Idle(s, em) {
      NothingOwed(s, em, id);
      AfterSplits(s.log, s.subs[id].at, s.subs[id].lastSeq);
    }
  }

  lemma NothingOwed(s: State, em: EmitterID, id: SubID)
    requires Inv(s) && Contiguous(s, em) && Idle(s, em)
    requires id in s.subs && s.subs[id].open && s.subs[id].dropped == {}
    ensures s.subs[id].at <= |s.log| && s.subs[id].live == s.log[s.subs[id].at..]
    ensures s.subs[id].replay == After(s.log[..s.subs[id].at], s.subs[id].lastSeq)
  {
    assert SubOk(s, s.subs[id]) && Caught(s, em, id);
  }

  lemma AfterSplits(log: seq<Event>, at: nat, lastSeq: int)
    requires at <= |log|
    ensures After(log[..at], lastSeq) + log[at..] == After(log, if lastSeq < at then lastSeq else at)
  {
    assert log == log[..at] + log[at..];
    if 0 <= lastSeq < at {
      assert log[lastSeq..] == log[..at][lastSeq..] + log[at..];
    }
  }
}
