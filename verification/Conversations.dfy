/** The conversation log of the memory service (platform/memory/memory.go): one record per conversation,
    read from and written back to its file by every operation, with an optimistic version, request
    de-duplication and replacement of message ranges by summaries. */
module Conversations {
  import opened Wrappers
  import opened Decimals
  import opened Templates

  type ID = string

  datatype Message = Message(
    seqNo: int, role: string, content: string, tokenEst: int, modelID: string, requestID: string, status: string)

  datatype Summary = Summary(fromSeq: int, toSeq: int, text: string, generatorModel: string)

  datatype Conversation = Conversation(
    dataClass: string, status: string, version: int, nextSeq: int, expiresAt: int,
    messages: seq<Message>, summaries: seq<Summary>, seenRequests: seq<string>)

  datatype Error = InvalidID | NotFound | VersionConflict | WriteFailed

  const SEEN_LIMIT := 256

  const DAY := 86400

  /** Go's zero time: a conversation that carries it never expires. */
  const ZERO_TIME := 0

  /** The coarse token count of a text: a quarter of its bytes, at least one unless it is empty. */
  function EstimateTokens(text: string): int {
    var n := |text| / 4;
    if n == 0 && text != "" then 1 else n
  }

  predicate ValidID(id: ID) {
    && 1 <= |id| <= 128
    && forall ch <- id :: 'A' <= ch <= 'Z' || 'a' <= ch <= 'z' || '0' <= ch <= '9' || ch == '_' || ch == '-'
  }

  predicate Expired(c: Conversation, now: int) {
    c.expiresAt != ZERO_TIME && now > c.expiresAt
  }

  function New(dataClass: string, expiresAt: int): Conversation {
    Conversation(dataClass, "active", 1, 1, expiresAt, [], [], [])
  }

  // ---------------------------------------------------------------- one operation, on values

  datatype Op =
    | Append(expected: int, requestID: string, modelID: string, user: seq<Message>, reply: string, status: string)
    | Replace(fromSeq: int, toSeq: int, text: string, model: string)

  function Stamped(first: int, requestID: string, user: seq<Message>): seq<Message> {
    seq(|user|, i requires 0 <= i < |user| =>
      user[i].(seqNo := first + i, requestID := requestID, status := "complete",
               tokenEst := EstimateTokens(user[i].content)))
  }

  function Reply(c: Conversation, op: Op): Message
    requires op.Append?
  {
    Message(c.nextSeq + |op.user|, "assistant", op.reply, EstimateTokens(op.reply), op.modelID, op.requestID,
            if op.status == "" then "complete" else op.status)
  }

  function LastOf(ids: seq<string>): seq<string> {
    if |ids| > SEEN_LIMIT then ids[|ids| - SEEN_LIMIT..] else ids
  }

  function Appended(c: Conversation, op: Op): Conversation
    requires op.Append?
  {
    c.(messages := c.messages + Stamped(c.nextSeq, op.requestID, op.user) + [Reply(c, op)],
       nextSeq := c.nextSeq + |op.user| + 1,
       version := c.version + 1,
       seenRequests := LastOf(c.seenRequests + [op.requestID]))
  }

  function Outside(messages: seq<Message>, fromSeq: int, toSeq: int): seq<Message> {
    if messages == [] then [] else
    var rest := Outside(messages[..|messages| - 1], fromSeq, toSeq);
    var m := messages[|messages| - 1];
    if m.seqNo < fromSeq || m.seqNo > toSeq then rest + [m] else rest
  }

  predicate Current(c: Conversation, expected: int) {
    expected <= 0 || c.version == expected
  }

  predicate TakesEffect(c: Conversation, op: Op) {
    op.Append? && Current(c, op.expected) && op.requestID !in c.seenRequests
  }

  function Step(c: Conversation, op: Op): Conversation {
    match op
    case Append(_, _, _, _, _, _) => if TakesEffect(c, op) then Appended(c, op) else c
    case Replace(fromSeq, toSeq, text, model) =>
      c.(messages := Outside(c.messages, fromSeq, toSeq),
         summaries := c.summaries + [Summary(fromSeq, toSeq, text, model)],
         version := c.version + 1)
  }

  // ---------------------------------------------------------------- the store

  /** The in-place filter of ReplaceWithSummary: keeps the messages outside the range at the front of `a`. */
  method KeepOutside(a: array<Message>, fromSeq: int, toSeq: int) returns (kept: nat)
    modifies a
    ensures kept <= a.Length && a[..kept] == Outside(old(a[..]), fromSeq, toSeq)
  {
    kept := 0;
    for i := 0 to a.Length
      invariant kept <= i
      invariant a[..kept] == Outside(old(a[..i]), fromSeq, toSeq)
      invariant a[i..] == old(a[i..])
    {
      var m := a[i];
      assert old(a[..i + 1])[..i] == old(a[..i]) && m == old(a[i..])[0];
      if m.seqNo < fromSeq || m.seqNo > toSeq {
        a[kept] := m;
        kept := kept + 1;
      }
    }
    assert old(a[..a.Length]) == old(a[..]);
  }

  /** The part of AppendTurn that builds the new record. */
  method AddTurn(was: Conversation, ghost expected: int, requestID: string, modelID: string, userMsgs: seq<Message>,
                 reply: string, status: string)
    returns (c: Conversation)
    ensures c == Appended(was, Append(expected, requestID, modelID, userMsgs, reply, status))
  {
    hide EstimateTokens;
    c := was;
    for k := 0 to |userMsgs|
      invariant c == was.(messages := was.messages + Stamped(was.nextSeq, requestID, userMsgs[..k]),
                          nextSeq := was.nextSeq + k)
    {
      StampedStep(was.nextSeq, requestID, userMsgs, k);
      var m := userMsgs[k].(seqNo := c.nextSeq, requestID := requestID, status := "complete",
                            tokenEst := EstimateTokens(userMsgs[k].content));
      c := c.(messages := c.messages + [m], nextSeq := c.nextSeq + 1);
    }
    assert userMsgs[..|userMsgs|] == userMsgs;
    var finalStatus := if status == "" then "complete" else status;
    var answer := Message(c.nextSeq, "assistant", reply, EstimateTokens(reply), modelID, requestID, finalStatus);
    c := c.(messages := c.messages + [answer]);
    c := c.(nextSeq := c.nextSeq + 1, version := c.version + 1, seenRequests := c.seenRequests + [requestID]);
    if |c.seenRequests| > SEEN_LIMIT {
      c := c.(seenRequests := c.seenRequests[|c.seenRequests| - SEEN_LIMIT..]);
    }
  }

  class ConversationStore {
    const messageDays: int
    var files: map<ID, Conversation>

    ghost predicate Valid()
      reads this
    {
      forall id <- files :: Inv(files[id])
    }

    constructor (messageDays: int)
      ensures Valid() && files == map[] && this.messageDays == messageDays
    {
      this.messageDays := messageDays;
      files := map[];
    }

    predicate Readable(id: ID, now: int)
      reads this
    {
      id in files && files[id].status != "deleting" && !Expired(files[id], now)
    }

    /** `io` says whether the file write succeeds; a failed one has no effect. */
    method GetOrCreate(id: ID, dataClass: string, expectedVersion: int, now: int, io: bool)
      returns (r: Result<Conversation, Error>)
      requires Valid()
      modifies this
      ensures Valid()
      ensures !ValidID(id) ==> r == Failure(InvalidID)
      ensures ValidID(id) && !old(Readable(id, now)) ==>
        r == if io then Success(New(dataClass, now + DAY * messageDays)) else Failure(WriteFailed)
      ensures ValidID(id) && old(Readable(id, now)) ==>
        r == if Current(old(files)[id], expectedVersion) then Success(old(files)[id]) else Failure(VersionConflict)
      ensures files == if r.Success? then old(files)[id := r.value] else old(files)
    {
      assert Inv(New(dataClass, now + DAY * messageDays));
      hide Inv;
      if !ValidID(id) {
        return Failure(InvalidID);
      }
      if !Readable(id, now) {
        var c := New(dataClass, now + DAY * messageDays);
        if !io {
          return Failure(WriteFailed);
        }
        files := files[id := c];
        return Success(c);
      }
      if expectedVersion > 0 && files[id].version != expectedVersion {
        return Failure(VersionConflict);
      }
      return Success(files[id]);
    }

    method AppendTurn(id: ID, expectedVersion: int, requestID: string, modelID: string, userMsgs: seq<Message>,
                      reply: string, status: string, now: int, io: bool)
      returns (r: Result<int, Error>)
      requires Valid()
      modifies this
      ensures Valid()
      ensures !old(Readable(id, now)) ==> r == Failure(NotFound) && files == old(files)
      ensures old(Readable(id, now)) && !Current(old(files)[id], expectedVersion) ==>
        r == Failure(VersionConflict) && files == old(files)
      ensures old(Readable(id, now)) && Current(old(files)[id], expectedVersion) ==>
        && var before := old(files)[id];
        && var after := Step(before, Append(expectedVersion, requestID, modelID, userMsgs, reply, status));
        && if requestID in before.seenRequests then r == Success(before.version) && files == old(files)
           else if io then r == Success(after.version) && files == old(files)[id := after]
           else r == Failure(WriteFailed) && files == old(files)
    {
      hide Inv, EstimateTokens;
      if !Readable(id, now) {
        return Failure(NotFound);
      }
      var c := files[id];
      if expectedVersion > 0 && c.version != expectedVersion {
        return Failure(VersionConflict);
      }
      for i := 0 to |c.seenRequests|
        invariant requestID !in c.seenRequests[..i]
      {
        if c.seenRequests[i] == requestID {
          return Success(c.version);
        }
      }
      ghost var op := Append(expectedVersion, requestID, modelID, userMsgs, reply, status);
      assert TakesEffect(c, op) by {
        assert c.seenRequests[..|c.seenRequests|] == c.seenRequests;
      }
      StepKeepsInv(c, op);
      c := AddTurn(c, expectedVersion, requestID, modelID, userMsgs, reply, status);
      if !io {
        return Failure(WriteFailed);
      }
      files := files[id := c];
      return Success(c.version);
    }

    method ReplaceWithSummary(id: ID, fromSeq: int, toSeq: int, text: string, generatorModel: string, now: int,
                              io: bool)
      returns (r: Result<(), Error>)
      requires Valid()
      modifies this
      ensures Valid()
      ensures !old(Readable(id, now)) ==> r == Failure(NotFound)
      ensures old(Readable(id, now)) ==> r == if io then Success(()) else Failure(WriteFailed)
      ensures r.Failure? ==> files == old(files)
      ensures r.Success? ==>
        files == old(files)[id := Step(old(files)[id], Replace(fromSeq, toSeq, text, generatorModel))]
    {
      hide Inv, EstimateTokens;
      if !Readable(id, now) {
        return Failure(NotFound);
      }
      var c := files[id];
      StepKeepsInv(c, Replace(fromSeq, toSeq, text, generatorModel));
      var slots := new Message[|c.messages|](i requires 0 <= i < |c.messages| => c.messages[i]);
      assert slots[..] == c.messages;
      var kept := KeepOutside(slots, fromSeq, toSeq);
      c := c.(messages := slots[..kept]);
      c := c.(summaries := c.summaries + [Summary(fromSeq, toSeq, text, generatorModel)], version := c.version + 1);
      if !io {
        return Failure(WriteFailed);
      }
      files := files[id := c];
      return Success(());
    }
  }

  lemma StampedStep(first: int, requestID: string, user: seq<Message>, k: nat)
    requires k < |user|
    ensures Stamped(first, requestID, user[..k + 1]) == Stamped(first, requestID, user[..k])
      + [user[k].(seqNo := first + k, requestID := requestID, status := "complete",
                  tokenEst := EstimateTokens(user[k].content))]
  {
  }

  // ---------------------------------------------------------------- what every run keeps

  predicate Ascending(messages: seq<Message>) {
    forall i, j :: 0 <= i < j < |messages| ==> messages[i].seqNo < messages[j].seqNo
  }

  ghost predicate Covered(c: Conversation, q: int) {
    || (exists m <- c.messages :: m.seqNo == q)
    || (exists s <- c.summaries :: s.fromSeq <= q <= s.toSeq)
  }

  /** Sequence numbers ascend below `nextSeq`, none is lost, and estimates belong to their texts. */
  ghost predicate Inv(c: Conversation) {
    && c.version >= 1 && c.nextSeq >= 1 && |c.seenRequests| <= SEEN_LIMIT
    && Ascending(c.messages)
    && (forall m <- c.messages :: 1 <= m.seqNo < c.nextSeq && m.tokenEst == EstimateTokens(m.content))
    && (forall q :: 1 <= q < c.nextSeq ==> Covered(c, q))
  }

  lemma {:induction false} OutsideIsAFilter(messages: seq<Message>, fromSeq: int, toSeq: int)
    requires Ascending(messages)
    ensures Ascending(Outside(messages, fromSeq, toSeq))
    ensures forall m :: m in Outside(messages, fromSeq, toSeq) <==> m in messages && !(fromSeq <= m.seqNo <= toSeq)
  {
    if messages != [] {
      var n := |messages| - 1;
      OutsideIsAFilter(messages[..n], fromSeq, toSeq);
      assert messages == messages[..n] + [messages[n]];
    }
  }

  lemma ReplaceKeepsInv(c: Conversation, op: Op)
    requires Inv(c) && op.Replace?
    ensures Inv(Step(c, op))
  {
    hide EstimateTokens;
    OutsideIsAFilter(c.messages, op.fromSeq, op.toSeq);
    var d := Step(c, op);
    forall q | 1 <= q < d.nextSeq ensures Covered(d, q) {
      assert Covered(c, q);
      if m :| m in c.messages && m.seqNo == q {
        if op.fromSeq <= q <= op.toSeq {
          assert d.summaries[|d.summaries| - 1] in d.summaries;
        } else {
          assert m in d.messages;
        }
      } else {
        var s :| s in c.summaries && s.fromSeq <= q <= s.toSeq;
        assert s in d.summaries;
      }
    }
  }

  lemma LastOfBounded(ids: seq<string>)
    ensures |LastOf(ids)| <= SEEN_LIMIT
  {
  }

  lemma AppendKeepsInv(c: Conversation, op: Op)
    requires Inv(c) && op.Append?
    ensures Inv(Appended(c, op))
  {
    hide EstimateTokens, LastOf;
    var d := Appended(c, op);
    assert |d.seenRequests| <= SEEN_LIMIT by { LastOfBounded(c.seenRequests + [op.requestID]); }
    forall q | 1 <= q < d.nextSeq ensures Covered(d, q) {
      if q < c.nextSeq {
        assert Covered(c, q);
        if m :| m in c.messages && m.seqNo == q {
          assert m in d.messages;
        }
      } else {
        var m := d.messages[|c.messages| + q - c.nextSeq];
        assert m in d.messages && m.seqNo == q;
      }
    }
    forall i, j | 0 <= i < j < |d.messages| ensures d.messages[i].seqNo < d.messages[j].seqNo {
      assert i < |c.messages| ==> c.messages[i] in c.messages;
    }
  }

  lemma StepKeepsInv(c: Conversation, op: Op)
    requires Inv(c)
    ensures Inv(Step(c, op)) && Step(c, op).version >= c.version
  {
    hide Inv;
    if op.Replace? {
      ReplaceKeepsInv(c, op);
    } else {
      AppendKeepsInv(c, op);
    }
  }

  // ---------------------------------------------------------------- whole runs

  function Run(c: Conversation, ops: seq<Op>): Conversation
    decreases |ops|
  {
    if ops == [] then c else Step(Run(c, ops[..|ops| - 1]), ops[|ops| - 1])
  }

  /** The request ids whose append took effect, oldest first. */
  function Applied(c: Conversation, ops: seq<Op>): seq<string>
    decreases |ops|
  {
    if ops == [] then [] else
    var before := ops[..|ops| - 1];
    var op := ops[|ops| - 1];
    Applied(c, before) + if TakesEffect(Run(c, before), op) then [op.requestID] else []
  }

  lemma {:induction false} RunKeepsInv(c: Conversation, ops: seq<Op>)
    requires Inv(c)
    ensures Inv(Run(c, ops)) && Run(c, ops).version >= c.version
    decreases |ops|
  {
    hide Inv, Step;
    if ops != [] {
      RunKeepsInv(c, ops[..|ops| - 1]);
      StepKeepsInv(Run(c, ops[..|ops| - 1]), ops[|ops| - 1]);
    }
  }

  lemma {:induction false} RunConcat(c: Conversation, a: seq<Op>, b: seq<Op>)
    ensures Run(c, a + b) == Run(Run(c, a), b)
    ensures Applied(c, a + b) == Applied(c, a) + Applied(Run(c, a), b)
    decreases |b|
  {
    hide Step, TakesEffect;
    if b == [] {
      assert a + b == a;
    } else {
      var n := |b| - 1;
      assert (a + b)[..|a + b| - 1] == a + b[..n] && (a + b)[|a + b| - 1] == b[n];
      RunConcat(c, a, b[..n]);
    }
  }

  lemma LastOfShort(ids: seq<string>)
    ensures |ids| <= SEEN_LIMIT ==> LastOf(ids) == ids
  {
  }

  lemma LastOfStep(ids: seq<string>, id: string)
    ensures LastOf(LastOf(ids) + [id]) == LastOf(ids + [id])
  {
  }

  lemma {:induction false} SeenIsTheLastApplied(c: Conversation, ops: seq<Op>)
    requires |c.seenRequests| <= SEEN_LIMIT
    ensures Run(c, ops).seenRequests == LastOf(c.seenRequests + Applied(c, ops))
    decreases |ops|
  {
    hide Appended, LastOf, Outside;
    if ops == [] {
      LastOfShort(c.seenRequests);
      assert c.seenRequests + [] == c.seenRequests;
    } else {
      var before, op := ops[..|ops| - 1], ops[|ops| - 1];
      SeenIsTheLastApplied(c, before);
      var all := c.seenRequests + Applied(c, before);
      if TakesEffect(Run(c, before), op) {
        AppendRemembers(Run(c, before), op);
        LastOfStep(all, op.requestID);
        assert all + [op.requestID] == c.seenRequests + Applied(c, ops);
      } else {
        assert Applied(c, ops) == Applied(c, before) + [] == Applied(c, before);
      }
    }
  }

  /** Over every run of appends and replacements: nothing is lost from 1 .. nextSeq-1, the log stays in order,
      and the remembered requests are the last 256 that took effect. */
  lemma EveryRunCoversItsLog(dataClass: string, expiresAt: int, ops: seq<Op>)
    ensures Inv(Run(New(dataClass, expiresAt), ops))
    ensures var ids := Applied(New(dataClass, expiresAt), ops);
      Run(New(dataClass, expiresAt), ops).seenRequests == if |ids| <= 256 then ids else ids[|ids| - 256..]
  {
    var c := New(dataClass, expiresAt);
    RunKeepsInv(c, ops);
    SeenIsTheLastApplied(c, ops);
    assert [] + Applied(c, ops) == Applied(c, ops);
  }

  /** Optimistic locking: of all appends that carry one positive expected version at most one takes effect. */
  lemma OneAppendPerVersion(c: Conversation, ops: seq<Op>, i: nat, j: nat)
    requires Inv(c) && i < j < |ops| && ops[i].Append? && ops[j].Append?
    requires ops[i].expected == ops[j].expected > 0
    ensures !(TakesEffect(Run(c, ops[..i]), ops[i]) && TakesEffect(Run(c, ops[..j]), ops[j]))
  {
    hide Inv, Appended;
    RunKeepsInv(c, ops[..i]);
    StepKeepsInv(Run(c, ops[..i]), ops[i]);
    var mid := Run(c, ops[..i + 1]);
    assert ops[..i + 1][..i] == ops[..i];
    RunKeepsInv(mid, ops[i + 1..j]);
    RunConcat(c, ops[..i + 1], ops[i + 1..j]);
    assert ops[..i + 1] + ops[i + 1..j] == ops[..j];
    if TakesEffect(Run(c, ops[..i]), ops[i]) {
      assert mid.version == ops[i].expected + 1 by {
        assert mid == Step(Run(c, ops[..i]), ops[i]);
        AppendRaisesVersion(Run(c, ops[..i]), ops[i]);
      }
    }
  }

  lemma AppendRaisesVersion(c: Conversation, op: Op)
    requires op.Append?
    ensures Appended(c, op).version == c.version + 1
  {
  }

  lemma {:induction false} AppliedAreFresh(c: Conversation, ops: seq<Op>, requestID: string)
    requires |c.seenRequests| <= SEEN_LIMIT
    requires forall op <- ops :: op.Append? ==> op.requestID != requestID
    ensures requestID !in Applied(c, ops)
    decreases |ops|
  {
    if ops != [] {
      AppliedAreFresh(c, ops[..|ops| - 1], requestID);
      assert ops[|ops| - 1] in ops;
    }
  }

  /** A retry of an applied append: any append under its request id, whatever it says and whatever version it
      expects.  If its version is the current one it is absorbed exactly while fewer than 256 other appends have
      taken effect since.  Sent again unchanged with the version it first saw, it is refused as a conflict. */
  lemma RetryIsAbsorbedIff(c: Conversation, op: Op, others: seq<Op>, again: Op)
    requires Inv(c) && TakesEffect(c, op)
    requires forall o <- others :: o.Append? ==> o.requestID != op.requestID
    requires again.Append? && again.requestID == op.requestID
    ensures var now := Run(Step(c, op), others);
      TakesEffect(now, again) <==> Current(now, again.expected) && |Applied(Step(c, op), others)| >= SEEN_LIMIT
    ensures again.expected == op.expected > 0 ==> !Current(Run(Step(c, op), others), again.expected)
  {
    hide Inv, Appended;
    var first := Step(c, op);
    assert |c.seenRequests| <= SEEN_LIMIT && |first.seenRequests| <= SEEN_LIMIT by {
      InvBoundsSeen(c);
      StepKeepsInv(c, op);
      InvBoundsSeen(first);
    }
    StepKeepsInv(c, op);
    RunKeepsInv(first, others);
    AppendRaisesVersion(c, op);
    SeenIsTheLastApplied(first, others);
    AppliedAreFresh(first, others, op.requestID);
    var ids := Applied(first, others);
    assert first.seenRequests == LastOf(c.seenRequests + [op.requestID]) by { AppendRemembers(c, op); }
    LastSeenAt(c.seenRequests, op.requestID, ids);
  }

  /** A turn as the program sends it, with the version that its request has just read. */
  function Turn(version: int, requestID: string): Op {
    Append(version, requestID, "", [], "", "")
  }

  /** `n` turns after the first one of a new conversation, each under its own request id. */
  function Turns(n: nat): (turns: seq<Op>)
    ensures |turns| == n
    ensures forall k | 0 <= k < n :: turns[k] == Turn(k + 2, Decimal(k))
  {
    if n == 0 then [] else Turns(n - 1) + [Turn(n + 1, Decimal(n - 1))]
  }

  function TurnIDs(n: nat): seq<string> {
    seq(n, k requires 0 <= k < n => Decimal(k))
  }

  lemma {:induction false} TurnsAllApply(first: Conversation, n: nat)
    requires first.version == 2 && first.seenRequests == ["r"]
    ensures Run(first, Turns(n)).version == n + 2 && Applied(first, Turns(n)) == TurnIDs(n)
  {
    hide Run, Applied, Appended, LastOf, Decimal, TakesEffect;
    if n == 0 {
      RunOfNothing(first);
    } else {
      TurnsAllApply(first, n - 1);
      var before, turn := Run(first, Turns(n - 1)), Turn(n + 1, Decimal(n - 1));
      TurnApplies(first, n - 1, before, turn);
      AppendRaisesVersion(before, turn);
      RunOneMore(first, Turns(n - 1), turn);
      assert TurnIDs(n) == TurnIDs(n - 1) + [Decimal(n - 1)];
    }
  }

  lemma RunOfNothing(c: Conversation)
    ensures Run(c, []) == c && Applied(c, []) == []
  {
  }

  lemma RunOneMore(c: Conversation, ops: seq<Op>, op: Op)
    ensures Run(c, ops + [op]) == Step(Run(c, ops), op)
    ensures Applied(c, ops + [op]) == Applied(c, ops) + if TakesEffect(Run(c, ops), op) then [op.requestID] else []
  {
    hide Step, TakesEffect;
    assert (ops + [op])[..|ops + [op]| - 1] == ops;
  }

  lemma TurnApplies(first: Conversation, n: nat, before: Conversation, turn: Op)
    requires first.seenRequests == ["r"] && Applied(first, Turns(n)) == TurnIDs(n)
    requires before == Run(first, Turns(n)) && turn == Turn(before.version, Decimal(n))
    ensures TakesEffect(before, turn)
  {
    hide Run, Applied, LastOf, Decimal;
    SeenIsTheLastApplied(first, Turns(n));
    LastOfContains(["r"] + TurnIDs(n));
    TurnIsNew(n);
  }

  lemma TurnIsNew(n: nat)
    ensures Decimal(n) !in ["r"] + TurnIDs(n)
  {
    DecimalHasDigits(n);
    forall k: nat | k < n ensures Decimal(k) != Decimal(n) {
      if Decimal(k) == Decimal(n) {
        DecimalIsInjective(k, n);
      }
    }
  }

  lemma LastOfContains(ids: seq<string>)
    ensures forall id <- LastOf(ids) :: id in ids
  {
  }

  /** A new conversation, one turn, `n` others, and the first one sent again, each with the version current at
      its time: the turn is stored a second time if and only if there were at least 256 others. */
  lemma RetryIsStoredTwiceIff(dataClass: string, expiresAt: int, n: nat)
    ensures var c := New(dataClass, expiresAt);
      && TakesEffect(c, Turn(c.version, "r"))
      && var now := Run(Step(c, Turn(c.version, "r")), Turns(n));
      && (TakesEffect(now, Turn(now.version, "r")) <==> n >= 256)
  {
    hide Inv, Turns;
    var c := New(dataClass, expiresAt);
    assert Inv(c) by { NewIsInv(dataClass, expiresAt); }
    var op := Turn(c.version, "r");
    assert Step(c, op).seenRequests == ["r"] && Step(c, op).version == 2;
    TurnsAllApply(Step(c, op), n);
    var now := Run(Step(c, op), Turns(n));
    forall o | o in Turns(n) && o.Append? ensures o.requestID != op.requestID {
      var k :| 0 <= k < n && Turns(n)[k] == o;
      DecimalHasDigits(k);
    }
    RetryIsAbsorbedIff(c, op, Turns(n), Turn(now.version, "r"));
  }

  lemma NewIsInv(dataClass: string, expiresAt: int)
    ensures Inv(New(dataClass, expiresAt))
  {
  }

  lemma InvBoundsSeen(c: Conversation)
    requires Inv(c)
    ensures |c.seenRequests| <= SEEN_LIMIT
  {
  }

  lemma AppendRemembers(c: Conversation, op: Op)
    requires op.Append?
    ensures Appended(c, op).seenRequests == LastOf(c.seenRequests + [op.requestID])
  {
  }

  lemma LastSeenAt(seen: seq<string>, id: string, ids: seq<string>)
    requires id !in seen && id !in ids && |seen| <= SEEN_LIMIT
    ensures id in LastOf(LastOf(seen + [id]) + ids) <==> |ids| < SEEN_LIMIT
  {
    var first := LastOf(seen + [id]);
    assert first[|first| - 1] == id;
    var all := first + ids;
    if |ids| < SEEN_LIMIT {
      var k := |first| - 1 - (|all| - |LastOf(all)|);
      assert LastOf(all)[k] == id;
    }
  }

  // ---------------------------------------------------------------- what one turn records, and how long it lives

  /** A turn in the log: the messages sent, numbered on from the last, and the reply behind them. */
  lemma TurnIsRecorded(c: Conversation, op: Op)
    requires op.Append?
    ensures var d := Appended(c, op);
      && |d.messages| == |c.messages| + |op.user| + 1 && d.messages[..|c.messages|] == c.messages
      && (forall i | 0 <= i < |op.user| ::
            var m := d.messages[|c.messages| + i];
            && m.seqNo == c.nextSeq + i && m.role == op.user[i].role && m.content == op.user[i].content
            && m.requestID == op.requestID && m.status == "complete"
            && m.tokenEst == EstimateTokens(op.user[i].content))
      && var reply := d.messages[|d.messages| - 1];
      && reply.seqNo == c.nextSeq + |op.user| && reply.role == "assistant" && reply.content == op.reply
      && reply.requestID == op.requestID && reply.modelID == op.modelID
      && reply.status == (if op.status == "" then "complete" else op.status)
      && reply.tokenEst == EstimateTokens(op.reply)
      && d.version == c.version + 1 && d.nextSeq == c.nextSeq + |op.user| + 1
  {
    hide EstimateTokens, LastOf;
  }

  /** Four bytes to a token, and no text but the empty one for free. */
  lemma EstimateIsAQuarter(text: string)
    ensures var n := EstimateTokens(text);
      && (|text| >= 4 ==> 4 * n <= |text| < 4 * (n + 1)) && (1 <= |text| < 4 ==> n == 1) && (text == "" ==> n == 0)
  {
  }

  /** A conversation takes turns up to the end of its days and not after them, and asking for it then starts a new
      one.  Without an id of 1 to 128 letters, digits, dashes and underscores there is none. */
  method UseAndExpire(store: ConversationStore, id: ID, dataClass: string, now: int, later: int, requestID: string)
    returns (made: Result<Conversation, Error>, turn: Result<int, Error>, again: Result<Conversation, Error>)
    requires store.Valid() && id !in store.files && now + 86400 * store.messageDays != 0
    modifies store
    ensures store.Valid()
    ensures made.Failure? <==>
      !(1 <= |id| <= 128 && forall ch <- id :: ch in UPPER || ch in LOWER || ch in DIGITS || ch == '_' || ch == '-')
    ensures made.Success? ==>
      turn == if later <= now + 86400 * store.messageDays then Success(2) else Failure(NotFound)
    ensures made.Success? && later > now + 86400 * store.messageDays ==>
      again.Success? && again.value.version == 1 && again.value.messages == []
    ensures made.Success? && later <= now + 86400 * store.messageDays ==>
      again.Success? && again.value.version == 2 && |again.value.messages| == 1
  {
    hide ConversationStore.Valid, UPPER, LOWER, DIGITS;
    forall ch: char
      ensures ('A' <= ch <= 'Z' <==> ch in UPPER) && ('a' <= ch <= 'z' <==> ch in LOWER)
      ensures '0' <= ch <= '9' <==> ch in DIGITS
    {
      UpperCharacters(ch);
      LowerCharacters(ch);
      DigitCharacters(ch);
    }
    made := store.GetOrCreate(id, dataClass, 0, now, true);
    if made.Failure? {
      return made, Failure(made.error), made;
    }
    turn := store.AppendTurn(id, 1, requestID, "", [], "", "", later, true);
    again := store.GetOrCreate(id, dataClass, 0, later, true);
  }
}
