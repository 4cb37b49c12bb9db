/** Publishing a flow while others edit it, and while the process may crash (PublishFlow in
    platform/workflow/service.go over UpdateDraft and Publish in platform/workflow/store.go).

    PublishFlow reads and validates the draft, and freezes it in a later critical section that reads the
    draft again.  One flow is modelled; each critical section is one step that says how far its two
    writes got.  `Crash` restarts from disk and loses the publishers in flight. */
module PublishGap {

  type Content = string

  type PubID = nat

  datatype Draft = Draft(revision: int, content: Content)

  /** A PublishFlow call that has validated `content`; `torn` says that the draft it read was newer than
      the revision in memory, which a caller can see by comparing the two. */
  datatype Publisher = Publisher(revision: int, content: Content, torn: bool)

  /** A frozen version and the publisher that froze it. */
  datatype Version = Version(content: Content, publisher: Publisher)

  datatype State = State(
    revision: int, latest: nat,              // meta in memory
    diskRevision: int, diskLatest: nat,      // meta.json
    draft: Draft, versions: seq<Version>,    // draft.json, v1.json .. vN.json
    publishers: map<PubID, Publisher>)

  datatype Writes = NoWrite | FirstWrite | BothWrites

  datatype Step =
    | Update(expected: int, content: Content, writes: Writes)
    | Validate(pub: PubID, expected: int)
    | Freeze(pub: PubID, writes: Writes)
    | CrashInUpdate(expected: int, content: Content)
    | CrashInFreeze(pub: PubID)
    | Crash

  function Init(content: Content): State {
    State(1, 0, 1, 0, Draft(1, content), [], map[])
  }

  predicate MayFreeze(s: State, pub: PubID) {
    pub in s.publishers && s.publishers[pub].revision == s.revision && s.latest == |s.versions|
  }

  function Restarted(s: State): State {
    s.(revision := s.diskRevision, latest := s.diskLatest, publishers := map[])
  }

  function FreezeFirst(s: State, pub: PubID): State
    requires pub in s.publishers
  {
    s.(versions := s.versions + [Version(s.draft.content, s.publishers[pub])])
  }

  function Apply(s: State, step: Step, valid: Content -> bool): State {
    match step
    case Update(expected, content, writes) =>
      if s.revision != expected || writes == NoWrite then s else
      var t := s.(draft := Draft(expected + 1, content), revision := expected + 1);
      if writes == BothWrites then t.(diskRevision := t.revision, diskLatest := t.latest) else t
    case Validate(pub, expected) =>
      if pub !in s.publishers && s.draft.revision == expected && valid(s.draft.content)
      then s.(publishers := s.publishers[pub := Publisher(expected, s.draft.content, s.revision != expected)])
      else s
    case Freeze(pub, writes) =>
      // v<latest+1>.json already on disk: refused
      if !MayFreeze(s, pub) || writes == NoWrite then s else
      var t := FreezeFirst(s, pub).(latest := s.latest + 1);
      if writes == BothWrites then t.(diskRevision := t.revision, diskLatest := t.latest) else t
    case CrashInUpdate(expected, content) =>
      Restarted(if s.revision == expected then s.(draft := Draft(expected + 1, content)) else s)
    case CrashInFreeze(pub) =>
      Restarted(if MayFreeze(s, pub) then FreezeFirst(s, pub) else s)
    case Crash => Restarted(s)
  }

  function Play(s: State, schedule: seq<Step>, valid: Content -> bool): State
    decreases schedule
  {
    if schedule == [] then s else Play(Apply(s, schedule[0], valid), schedule[1..], valid)
  }

  // ---------------------------------------------------------------- the safe case

  /** The publisher's revision still stands for the content it validated, or is past. */
  ghost predicate PublisherOk(s: State, p: Publisher) {
    !p.torn ==> p.revision <= s.revision && (p.revision == s.revision ==> s.draft == Draft(p.revision, p.content))
  }

  ghost predicate Inv(s: State, valid: Content -> bool) {
    && s.diskRevision <= s.revision <= s.draft.revision && s.diskLatest <= s.latest <= |s.versions|
    && (forall pub <- s.publishers :: PublisherOk(s, s.publishers[pub]) && valid(s.publishers[pub].content))
    && (forall v <- s.versions ::
          valid(v.publisher.content) && (!v.publisher.torn ==> v.content == v.publisher.content))
  }

  lemma ApplyKeepsInv(s: State, step: Step, valid: Content -> bool)
    requires Inv(s, valid)
    ensures Inv(Apply(s, step, valid), valid) && s.versions <= Apply(s, step, valid).versions
  {
  }

  lemma {:induction false} PlayKeepsInv(s: State, schedule: seq<Step>, valid: Content -> bool)
    requires Inv(s, valid)
    ensures Inv(Play(s, schedule, valid), valid) && s.versions <= Play(s, schedule, valid).versions
    decreases schedule
  {
    hide Apply, Inv;
    if schedule != [] {
      ApplyKeepsInv(s, schedule[0], valid);
      PlayKeepsInv(Apply(s, schedule[0], valid), schedule[1..], valid);
    }
  }

  /** In every interleaving of edits, publishes, failed writes and crashes, a version frozen by a publisher
      that did not read a torn draft is exactly the valid content that publisher validated. */
  lemma PublishFreezesWhatItValidated(first: Content, schedule: seq<Step>, valid: Content -> bool, v: nat)
    requires v < |Play(Init(first), schedule, valid).versions|
    ensures var version := Play(Init(first), schedule, valid).versions[v];
      !version.publisher.torn ==> version.content == version.publisher.content && valid(version.content)
  {
    PlayKeepsInv(Init(first), schedule, valid);
    assert Play(Init(first), schedule, valid).versions[v] in Play(Init(first), schedule, valid).versions;
  }

  predicate CrashFree(schedule: seq<Step>) {
    forall step <- schedule :: !step.Crash? && !step.CrashInUpdate? && !step.CrashInFreeze?
  }

  lemma {:induction false} NothingTornWithoutCrash(s: State, schedule: seq<Step>, valid: Content -> bool)
    requires Inv(s, valid) && s.revision == s.draft.revision && CrashFree(schedule)
    requires (forall pub <- s.publishers :: !s.publishers[pub].torn) && forall v <- s.versions :: !v.publisher.torn
    ensures forall v <- Play(s, schedule, valid).versions :: !v.publisher.torn
    decreases schedule
  {
    if schedule != [] {
      assert schedule[0] in schedule;
      ApplyKeepsInv(s, schedule[0], valid);
      NothingTornWithoutCrash(Apply(s, schedule[0], valid), schedule[1..], valid);
    }
  }

  /** So in one process lifetime every frozen version passed validation. */
  lemma WithoutCrashEveryVersionIsValid(first: Content, schedule: seq<Step>, valid: Content -> bool)
    requires CrashFree(schedule)
    ensures forall v <- Play(Init(first), schedule, valid).versions ::
      v.content == v.publisher.content && valid(v.content)
  {
    PlayKeepsInv(Init(first), schedule, valid);
    NothingTornWithoutCrash(Init(first), schedule, valid);
  }

  // ---------------------------------------------------------------- the unsafe case

  /** Edits that raise the revision in memory to that of the torn draft, leaving `content` as the draft. */
  function CatchUp(from: int, target: int, content: Content): seq<Step>
    decreases target - from
  {
    if from >= target then [] else [Update(from, content, BothWrites)] + CatchUp(from + 1, target, content)
  }

  predicate CaughtUp(s: State, t: State, target: int, content: Content) {
    && t.revision == target && t.draft == Draft(target, content) && t.versions == s.versions
    && t.latest == s.latest && t.publishers == s.publishers
  }

  lemma {:induction false} CatchUpEffect(s: State, target: int, content: Content, valid: Content -> bool)
    requires s.revision < target
    ensures CaughtUp(s, Play(s, CatchUp(s.revision, target, content), valid), target, content)
    decreases target - s.revision
  {
    var step := Update(s.revision, content, BothWrites);
    var t := Apply(s, step, valid);
    assert t.revision == s.revision + 1;
    assert t.draft == Draft(s.revision + 1, content);
    var rest := CatchUp(s.revision + 1, target, content);
    assert CatchUp(s.revision, target, content)[1..] == rest;
    if t.revision < target {
      CatchUpEffect(t, target, content, valid);
    } else {
      assert rest == [];
    }
  }

  lemma {:induction false} PlayConcat(s: State, a: seq<Step>, b: seq<Step>, valid: Content -> bool)
    ensures Play(s, a + b, valid) == Play(Play(s, a, valid), b, valid)
    decreases a
  {
    if a == [] {
      assert a + b == b;
    } else {
      assert (a + b)[1..] == a[1..] + b;
      PlayConcat(Apply(s, a[0], valid), a[1..], b, valid);
    }
  }

  /** A publisher holding a torn read, while memory is still behind that revision and publishing is not
      blocked, can be made to freeze any content at all, validated or not. */
  lemma TornReadCanFreezeAnything(s: State, pub: PubID, content: Content, valid: Content -> bool)
    requires pub in s.publishers && s.revision < s.publishers[pub].revision && s.latest == |s.versions|
    ensures var schedule := CatchUp(s.revision, s.publishers[pub].revision, content) + [Freeze(pub, BothWrites)];
      Play(s, schedule, valid).versions == s.versions + [Version(content, s.publishers[pub])]
  {
    var to := s.publishers[pub].revision;
    var t := Play(s, CatchUp(s.revision, to, content), valid);
    CatchUpEffect(s, to, content, valid);
    PlayConcat(s, CatchUp(s.revision, to, content), [Freeze(pub, BothWrites)], valid);
    var u := Apply(t, Freeze(pub, BothWrites), valid);
    assert Play(t, [Freeze(pub, BothWrites)], valid) == Play(u, [], valid);
  }

  /** Such a read happens: a crash between the two writes of an edit leaves a draft one revision ahead of the
      restarted memory, and the next publisher validates it. */
  lemma CrashTearsTheDraft(first: Content, torn: Content, pub: PubID, valid: Content -> bool)
    requires valid(torn)
    ensures var s := Play(Init(first), [CrashInUpdate(1, torn), Validate(pub, 2)], valid);
      && s.draft == Draft(2, torn) && s.revision == 1 && s.latest == |s.versions| == 0
      && pub in s.publishers && s.publishers[pub] == Publisher(2, torn, true)
  {
    var crash, read := CrashInUpdate(1, torn), Validate(pub, 2);
    assert [crash, read][1..] == [read] && [read][1..] == [];
    var s := Apply(Init(first), crash, valid);
    assert Play(s, [read], valid) == Play(Apply(s, read, valid), [], valid);
  }

  /** From there a content that nobody validated is frozen, for every validator and every content. */
  lemma UnvalidatedContentIsFrozen(first: Content, torn: Content, other: Content, pub: PubID, valid: Content -> bool)
    requires valid(torn)
    ensures var schedule :=
        [CrashInUpdate(1, torn), Validate(pub, 2), Update(1, other, BothWrites), Freeze(pub, BothWrites)];
      Play(Init(first), schedule, valid).versions == [Version(other, Publisher(2, torn, true))]
  {
    var front := [CrashInUpdate(1, torn), Validate(pub, 2)];
    var back := [Update(1, other, BothWrites), Freeze(pub, BothWrites)];
    CrashTearsTheDraft(first, torn, pub, valid);
    var s := Play(Init(first), front, valid);
    TornReadCanFreezeAnything(s, pub, other, valid);
    assert CatchUp(2, 2, other) == [];
    assert CatchUp(1, 2, other) == [Update(1, other, BothWrites)] + CatchUp(2, 2, other);
    assert CatchUp(1, 2, other) + [Freeze(pub, BothWrites)] == back;
    PlayConcat(Init(first), front, back, valid);
    assert front + back
      == [CrashInUpdate(1, torn), Validate(pub, 2), Update(1, other, BothWrites), Freeze(pub, BothWrites)];
  }

  /** The property, exactly: from the moment a publisher validates the draft, every continuation freezes
      only what it validated if and only if the draft's revision is the one in memory.  (Publishing must
      not be blocked, or nothing is frozen at all.) */
  lemma PublishIsSafeIff(first: Content, schedule: seq<Step>, valid: Content -> bool, pub: PubID, other: Content)
    requires var s := Play(Init(first), schedule, valid);
      && pub !in s.publishers && valid(s.draft.content) && other != s.draft.content && s.latest == |s.versions|
    ensures var s := Play(Init(first), schedule, valid);
      var t := Apply(s, Validate(pub, s.draft.revision), valid);
      (forall more :: FreezesAsValidated(t, more, valid, t.publishers[pub])) <==> s.draft.revision == s.revision
  {
    var s := Play(Init(first), schedule, valid);
    var t := Apply(s, Validate(pub, s.draft.revision), valid);
    PlayKeepsInv(Init(first), schedule, valid);
    ApplyKeepsInv(s, Validate(pub, s.draft.revision), valid);
    if s.draft.revision == s.revision {
      forall more ensures FreezesAsValidated(t, more, valid, t.publishers[pub]) {
        PlayKeepsInv(t, more, valid);
      }
    } else {
      var more := CatchUp(t.revision, t.publishers[pub].revision, other) + [Freeze(pub, BothWrites)];
      TornReadCanFreezeAnything(t, pub, other, valid);
      assert Play(t, more, valid).versions[|t.versions|] == Version(other, t.publishers[pub]);
      assert !FreezesAsValidated(t, more, valid, t.publishers[pub]);
    }
  }

  /** Whatever versions are added after `t`, those frozen by `p` are what `p` validated. */
  ghost predicate FreezesAsValidated(t: State, more: seq<Step>, valid: Content -> bool, p: Publisher) {
    var after := Play(t, more, valid).versions;
    forall i | |t.versions| <= i < |after| && after[i].publisher == p :: after[i].content == p.content
  }

  // ---------------------------------------------------------------- blocked publishing

  lemma {:induction false} BlockedForever(s: State, schedule: seq<Step>, valid: Content -> bool)
    requires Inv(s, valid) && s.latest < |s.versions|
    ensures Play(s, schedule, valid).versions == s.versions && Play(s, schedule, valid).latest < |s.versions|
    decreases schedule
  {
    if schedule != [] {
      ApplyKeepsInv(s, schedule[0], valid);
      BlockedForever(Apply(s, schedule[0], valid), schedule[1..], valid);
    }
  }

  /** A flow restarted from a meta.json that lags behind its version files can never be published again,
      whatever is done to it; otherwise its next publish with the right revision succeeds. */
  lemma RestartBlocksPublishingIff(first: Content, schedule: seq<Step>, valid: Content -> bool)
    ensures var s := Play(Init(first), schedule, valid);
      var r := Apply(s, Crash, valid);
      (exists more :: Play(r, more, valid).versions != r.versions)
      <==> s.diskLatest == |s.versions| && exists c :: valid(c)
  {
    var s := Play(Init(first), schedule, valid);
    var r := Apply(s, Crash, valid);
    PlayKeepsInv(Init(first), schedule, valid);
    ApplyKeepsInv(s, Crash, valid);
    if s.diskLatest < |s.versions| {
      forall more ensures Play(r, more, valid).versions == r.versions {
        BlockedForever(r, more, valid);
      }
    } else if c :| valid(c) {
      var a, b, d := Update(r.revision, c, BothWrites), Validate(0, r.revision + 1), Freeze(0, BothWrites);
      var r1 := Apply(r, a, valid);
      var r2 := Apply(r1, b, valid);
      var r3 := Apply(r2, d, valid);
      assert [a, b, d][1..] == [b, d] && [b, d][1..] == [d] && [d][1..] == [];
      assert Play(r, [a, b, d], valid) == r3 by {
        assert Play(r2, [d], valid) == Play(r3, [], valid) == r3;
        assert Play(r1, [b, d], valid) == Play(r2, [d], valid);
      }
      assert |Play(r, [a, b, d], valid).versions| == |r.versions| + 1;
      assert valid(c) && s.diskLatest == |s.versions|;
    } else {
      forall more ensures Play(r, more, valid).versions == r.versions {
        NothingValid(r, more, valid);
      }
    }
  }

  /** Blocking happens: a crash between the two writes of the first publish. */
  lemma CrashBlocksPublishing(first: Content, pub: PubID, valid: Content -> bool, more: seq<Step>)
    requires valid(first)
    ensures var s := Play(Init(first), [Validate(pub, 1), CrashInFreeze(pub)], valid);
      s.diskLatest == s.latest == 0 && |s.versions| == 1 && Play(s, more, valid).versions == s.versions
  {
    var schedule := [Validate(pub, 1), CrashInFreeze(pub)];
    assert schedule[1..] == [CrashInFreeze(pub)] && schedule[1..][1..] == [];
    var r := Apply(Init(first), schedule[0], valid);
    var s := Apply(r, schedule[1], valid);
    assert Play(r, schedule[1..], valid) == Play(s, [], valid);
    PlayKeepsInv(Init(first), schedule, valid);
    BlockedForever(s, more, valid);
  }

  lemma {:induction false} NothingValid(s: State, schedule: seq<Step>, valid: Content -> bool)
    requires s.publishers == map[] && forall c :: !valid(c)
    ensures Play(s, schedule, valid).versions == s.versions
    decreases schedule
  {
    if schedule != [] {
      NothingValid(Apply(s, schedule[0], valid), schedule[1..], valid);
    }
  }
}
