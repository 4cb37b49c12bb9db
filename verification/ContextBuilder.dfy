/** The context builder (platform/memory/context.go): which part of a conversation goes into the next
    inference, and which range it proposes to summarise. */
module ContextBuilder {
  import opened Wrappers
  import opened Conversations

  /** A message of the current request: its JSON, and its text if the JSON parses. */
  datatype Incoming = Incoming(raw: string, content: Option<string>)

  datatype Entry = SummaryEntry(text: string) | PastEntry(role: string, content: string) | CurrentEntry(raw: string)

  datatype Range = Range(fromSeq: int, toSeq: int)

  datatype Built = Built(entries: seq<Entry>, tokenEst: int, suggestion: Option<Range>)

  const SAFETY_MARGIN := 256
  const DEFAULT_WINDOW := 8192
  const DEFAULT_RESERVED := 1024

  function Budget(contextWindow: int, reservedOutput: int): int {
    (if contextWindow <= 0 then DEFAULT_WINDOW else contextWindow)
    - (if reservedOutput <= 0 then DEFAULT_RESERVED else reservedOutput) - SAFETY_MARGIN
  }

  function CurrentTokens(current: seq<Incoming>): int {
    if current == [] then 0 else
    var last := current[|current| - 1];
    CurrentTokens(current[..|current| - 1]) + if last.content.Some? then EstimateTokens(last.content.value) else 0
  }

  function SummaryTokens(summaries: seq<Summary>): int {
    if summaries == [] then 0
    else SummaryTokens(summaries[..|summaries| - 1]) + EstimateTokens(summaries[|summaries| - 1].text)
  }

  /** What current messages and summaries leave for past messages. */
  function Remaining(c: Conversation, current: seq<Incoming>, contextWindow: int, reservedOutput: int): int {
    Budget(contextWindow, reservedOutput) - CurrentTokens(current) - SummaryTokens(c.summaries)
  }

  function Tokens(messages: seq<Message>): int {
    if messages == [] then 0 else Tokens(messages[..|messages| - 1]) + messages[|messages| - 1].tokenEst
  }

  predicate IsComplete(m: Message) {
    m.status == "complete"
  }

  function Complete(messages: seq<Message>): seq<Message> {
    if messages == [] then [] else
    var m := messages[|messages| - 1];
    Complete(messages[..|messages| - 1]) + if IsComplete(m) then [m] else []
  }

  /** The newest complete message that no longer fits, or -1. */
  function CutAt(messages: seq<Message>, remain: int): (cut: int)
    ensures -1 <= cut < |messages|
    ensures cut >= 0 ==> IsComplete(messages[cut])
  {
    if messages == [] then -1 else
    var m := messages[|messages| - 1];
    if !IsComplete(m) then CutAt(messages[..|messages| - 1], remain)
    else if remain - m.tokenEst < 0 then |messages| - 1
    else CutAt(messages[..|messages| - 1], remain - m.tokenEst)
  }

  function Kept(messages: seq<Message>, remain: int): seq<Message> {
    Complete(messages[CutAt(messages, remain) + 1..])
  }

  function SuggestedRange(messages: seq<Message>, remain: int): Option<Range> {
    var cut := CutAt(messages, remain);
    if cut < 0 then None else Some(Range(messages[0].seqNo, messages[cut].seqNo))
  }

  function SummaryEntries(summaries: seq<Summary>): seq<Entry> {
    seq(|summaries|, i requires 0 <= i < |summaries| => SummaryEntry("[conversation summary] " + summaries[i].text))
  }

  function PastEntries(messages: seq<Message>): seq<Entry> {
    seq(|messages|, i requires 0 <= i < |messages| => PastEntry(messages[i].role, messages[i].content))
  }

  function CurrentEntries(current: seq<Incoming>): seq<Entry> {
    seq(|current|, i requires 0 <= i < |current| => CurrentEntry(current[i].raw))
  }

  function Mirror(messages: seq<Message>): seq<Message> {
    seq(|messages|, i requires 0 <= i < |messages| => messages[|messages| - 1 - i])
  }

  method Flip(a: array<Message>)
    modifies a
    ensures a[..] == Mirror(old(a[..]))
  {
    var i, j := 0, a.Length - 1;
    while i < j
      invariant 0 <= i && i + j == a.Length - 1 && i <= j + 2
      invariant forall k :: 0 <= k < a.Length && !(i <= k <= j) ==> a[k] == old(a[a.Length - 1 - k])
      invariant forall k :: i <= k <= j ==> a[k] == old(a[k])
    {
      a[i], a[j] := a[j], a[i];
      i, j := i + 1, j - 1;
    }
  }

  lemma MirrorEmpty()
    ensures Mirror([]) == []
  {
  }

  lemma MirrorSnoc(picked: seq<Message>, m: Message)
    ensures Mirror(picked + [m]) == [m] + Mirror(picked)
  {
  }

  lemma {:induction false} CompleteCons(m: Message, rest: seq<Message>)
    ensures Complete([m] + rest) == (if IsComplete(m) then [m] else []) + Complete(rest)
  {
    var n := |rest| - 1;
    if rest == [] {
      assert [m] + rest == [m] && [m][..0] == [];
    } else {
      CompleteCons(m, rest[..n]);
      assert ([m] + rest)[..|rest|] == [m] + rest[..n];
    }
  }

  /** The loop that takes complete messages, newest first, while they fit. */
  method Pick(messages: seq<Message>, remaining: int) returns (picked: seq<Message>, cut: int)
    ensures cut == CutAt(messages, remaining) && Mirror(picked) == Kept(messages, remaining)
  {
    var remain, i := remaining, |messages| - 1;
    hide IsComplete, EstimateTokens, Mirror;
    picked, cut := [], -1;
    assert Mirror(picked) == [] by { MirrorEmpty(); }
    assert messages[..i + 1] == messages && messages[i + 1..] == [];
    while i >= 0
      invariant -1 <= i < |messages| && cut == -1
      invariant CutAt(messages, remaining) == CutAt(messages[..i + 1], remain)
      invariant Mirror(picked) == Complete(messages[i + 1..])
    {
      var m := messages[i];
      assert messages[..i + 1][..i] == messages[..i] && messages[i..] == [m] + messages[i + 1..];
      CompleteCons(m, messages[i + 1..]);
      if IsComplete(m) {
        if remain - m.tokenEst < 0 {
          cut := i;
          return;
        }
        remain := remain - m.tokenEst;
        MirrorSnoc(picked, m);
        picked := picked + [m];
      }
      i := i - 1;
    }
  }

  method CostOfCurrent(current: seq<Incoming>) returns (tokens: int)
    ensures tokens == CurrentTokens(current)
  {
    hide EstimateTokens;
    tokens := 0;
    for i := 0 to |current|
      invariant tokens == CurrentTokens(current[..i])
    {
      assert current[..i + 1][..i] == current[..i];
      if current[i].content.Some? {
        tokens := tokens + EstimateTokens(current[i].content.value);
      }
    }
    assert current[..|current|] == current;
  }

  method PlaceSummaries(summaries: seq<Summary>, available: int) returns (prefix: seq<Entry>, remain: int)
    ensures prefix == SummaryEntries(summaries) && remain == available - SummaryTokens(summaries)
  {
    hide EstimateTokens;
    prefix, remain := [], available;
    for i := 0 to |summaries|
      invariant prefix == SummaryEntries(summaries[..i])
      invariant remain == available - SummaryTokens(summaries[..i])
    {
      assert summaries[..i + 1][..i] == summaries[..i];
      prefix := prefix + [SummaryEntry("[conversation summary] " + summaries[i].text)];
      remain := remain - EstimateTokens(summaries[i].text);
    }
    assert summaries[..|summaries|] == summaries;
  }

  method BuildContext(c: Conversation, current: seq<Incoming>, contextWindow: int, reservedOutput: int)
    returns (b: Built)
    ensures var remain := Remaining(c, current, contextWindow, reservedOutput);
      b == Built(SummaryEntries(c.summaries) + PastEntries(Kept(c.messages, remain)) + CurrentEntries(current),
                 Tokens(Kept(c.messages, remain)) + CurrentTokens(current), SuggestedRange(c.messages, remain))
    ensures |b.entries| >= |c.summaries| + |current|
    ensures forall i | 0 <= i < |c.summaries| ::
      b.entries[i] == SummaryEntry("[conversation summary] " + c.summaries[i].text)
    ensures forall i | 0 <= i < |current| ::
      b.entries[|b.entries| - |current| + i] == CurrentEntry(current[i].raw)
    ensures b.suggestion.Some? ==> c.messages != [] && b.suggestion.value.fromSeq == c.messages[0].seqNo
  {
    hide EstimateTokens, CurrentTokens, SummaryTokens, Mirror, Complete, CutAt, Kept;
    var window := if contextWindow <= 0 then DEFAULT_WINDOW else contextWindow;
    var reserved := if reservedOutput <= 0 then DEFAULT_RESERVED else reservedOutput;
    var budget := window - reserved - SAFETY_MARGIN;
    var currentTokens := CostOfCurrent(current);
    var prefix, remain := PlaceSummaries(c.summaries, budget - currentTokens);
    var picked, cut := Pick(c.messages, remain);
    var slots := new Message[|picked|](i requires 0 <= i < |picked| => picked[i]);
    assert slots[..] == picked;
    Flip(slots);
    ghost var kept := Kept(c.messages, remain);
    var pastTokens := 0;
    for i := 0 to slots.Length
      invariant slots[..] == kept
      invariant prefix == SummaryEntries(c.summaries) + PastEntries(kept[..i])
      invariant pastTokens == Tokens(kept[..i])
    {
      assert slots[i] == kept[i] && kept[..i + 1][..i] == kept[..i];
      prefix := prefix + [PastEntry(slots[i].role, slots[i].content)];
      pastTokens := pastTokens + slots[i].tokenEst;
    }
    assert kept[..|kept|] == kept;
    var suggestion :=
      if cut >= 0 && |c.messages| > 0 then Some(Range(c.messages[0].seqNo, c.messages[cut].seqNo)) else None;
    var currentEntries := CurrentEntries(current);
    b := Built(prefix + currentEntries, pastTokens + currentTokens, suggestion);
  }

  // ---------------------------------------------------------------- what is kept

  ghost predicate EstimatesHold(messages: seq<Message>) {
    forall m <- messages :: m.tokenEst >= 0
  }

  lemma {:induction false} TokensNonNegative(messages: seq<Message>)
    requires EstimatesHold(messages)
    ensures Tokens(Complete(messages)) >= 0
  {
    if messages != [] {
      var n := |messages| - 1;
      TokensNonNegative(messages[..n]);
      CompleteSnocCost(messages[..n], messages[n]);
      assert messages[..n] + [messages[n]] == messages && messages[n] in messages;
    }
  }

  lemma CompleteSnocCost(messages: seq<Message>, m: Message)
    ensures Complete(messages + [m]) == Complete(messages) + if IsComplete(m) then [m] else []
    ensures Tokens(Complete(messages + [m])) == Tokens(Complete(messages)) + if IsComplete(m) then m.tokenEst else 0
  {
    assert (messages + [m])[..|messages|] == messages;
    var kept := Complete(messages);
    assert (kept + [m])[..|kept|] == kept && kept + [] == kept;
  }

  lemma NoTokens(messages: seq<Message>)
    ensures messages == [] ==> Complete(messages) == [] && Tokens(Complete(messages)) == 0
  {
  }

  /** The suffix of complete messages from `k` on costs its tokens; the cut is the first that does not fit. */
  lemma {:induction false} SuffixFitsIff(messages: seq<Message>, remain: int, k: nat)
    requires EstimatesHold(messages) && remain >= 0 && k <= |messages|
    ensures Tokens(Complete(messages[k..])) <= remain <==> k > CutAt(messages, remain)
    decreases |messages|
  {
    hide Complete, IsComplete, Tokens;
    assert k == |messages| ==> Tokens(Complete(messages[k..])) == 0 by { NoTokens(messages[k..]); }
    if k < |messages| {
      var n := |messages| - 1;
      var m := messages[n];
      assert m in messages;
      assert messages[k..] == messages[..n][k..] + [m];
      CompleteSnocCost(messages[..n][k..], m);
      TokensNonNegative(messages[..n][k..]);
      if !IsComplete(m) {
        SuffixFitsIff(messages[..n], remain, k);
      } else if remain - m.tokenEst >= 0 {
        SuffixFitsIff(messages[..n], remain - m.tokenEst, k);
      }
    }
  }

  lemma {:induction false} BehindTheCutNothingIsComplete(messages: seq<Message>, remain: int)
    requires EstimatesHold(messages) && remain < 0
    ensures forall i :: CutAt(messages, remain) < i < |messages| ==> !IsComplete(messages[i])
  {
    hide IsComplete;
    if messages != [] {
      var n := |messages| - 1;
      assert messages[n] in messages;
      if !IsComplete(messages[n]) {
        BehindTheCutNothingIsComplete(messages[..n], remain);
      }
    }
  }

  lemma {:induction false} CompleteIsEmptyIff(messages: seq<Message>)
    ensures Complete(messages) == [] <==> forall m <- messages :: !IsComplete(m)
  {
    hide IsComplete;
    if messages != [] {
      var n := |messages| - 1;
      CompleteIsEmptyIff(messages[..n]);
      assert messages == messages[..n] + [messages[n]];
    }
  }

  lemma NothingFits(messages: seq<Message>, remain: int)
    requires EstimatesHold(messages) && remain < 0
    ensures Kept(messages, remain) == []
    ensures CutAt(messages, remain) < 0 <==> Complete(messages) == []
  {
    hide IsComplete, Complete;
    var cut := CutAt(messages, remain);
    BehindTheCutNothingIsComplete(messages, remain);
    CompleteIsEmptyIff(messages[cut + 1..]);
    CompleteIsEmptyIff(messages);
    assert cut >= 0 ==> messages[cut] in messages;
  }

  lemma InvEstimates(c: Conversation)
    requires Inv(c)
    ensures EstimatesHold(c.messages)
  {
  }

  lemma KeptIsTheLongestFit(messages: seq<Message>, remain: int)
    requires EstimatesHold(messages)
    ensures Kept(messages, remain) != [] ==> Tokens(Kept(messages, remain)) <= remain
    ensures remain >= 0 ==> forall k :: 0 <= k <= |messages| ==>
      (Tokens(Complete(messages[k..])) <= remain <==> k > CutAt(messages, remain))
    ensures SuggestedRange(messages, remain) == None <==> Kept(messages, remain) == Complete(messages)
  {
    hide Tokens, Complete, CutAt;
    var cut := CutAt(messages, remain);
    if remain >= 0 {
      forall k | 0 <= k <= |messages| ensures Tokens(Complete(messages[k..])) <= remain <==> k > cut {
        SuffixFitsIff(messages, remain, k);
      }
      assert Tokens(Complete(messages[cut + 1..])) <= remain;
      assert messages[0..] == messages;
      assert cut >= 0 ==> Tokens(Complete(messages[0..])) > remain;
    } else {
      NothingFits(messages, remain);
      assert messages[0..] == messages;
    }
  }

  /** The context holds the longest run of newest complete messages that fits the budget: a suffix of the
      log fits if and only if it starts behind the cut.  If anything is kept, everything fits; a summary
      is proposed exactly when something complete was left out. */
  lemma ContextKeepsTheLongestFit(c: Conversation, current: seq<Incoming>, contextWindow: int, reservedOutput: int)
    requires Inv(c)
    ensures var remain := Remaining(c, current, contextWindow, reservedOutput);
      var kept := Kept(c.messages, remain);
      kept != [] ==>
        CurrentTokens(current) + SummaryTokens(c.summaries) + Tokens(kept) <= Budget(contextWindow, reservedOutput)
    ensures var remain := Remaining(c, current, contextWindow, reservedOutput);
      remain >= 0 ==> forall k :: 0 <= k <= |c.messages| ==>
        (Tokens(Complete(c.messages[k..])) <= remain <==> k > CutAt(c.messages, remain))
    ensures var remain := Remaining(c, current, contextWindow, reservedOutput);
      SuggestedRange(c.messages, remain) == None <==> Kept(c.messages, remain) == Complete(c.messages)
  {
    hide Inv, Budget, CurrentTokens, SummaryTokens, Tokens, Complete, CutAt, Kept, SuggestedRange, EstimatesHold;
    InvEstimates(c);
    KeptIsTheLongestFit(c.messages, Remaining(c, current, contextWindow, reservedOutput));
  }

  /** Only messages whose status is complete are kept: all of those behind the cut, in order, and none before. */
  lemma {:induction false} CompleteAreTheComplete(messages: seq<Message>)
    ensures forall m :: m in Complete(messages) <==> m in messages && m.status == "complete"
  {
    if messages != [] {
      var n := |messages| - 1;
      CompleteAreTheComplete(messages[..n]);
      assert messages == messages[..n] + [messages[n]];
    }
  }

  lemma KeptAreTheComplete(messages: seq<Message>, remain: int)
    ensures forall m <- Kept(messages, remain) :: m in messages && m.status == "complete"
    ensures forall i | CutAt(messages, remain) < i < |messages| ::
      messages[i].status == "complete" ==> messages[i] in Kept(messages, remain)
  {
    hide Complete, CutAt;
    CompleteAreTheComplete(messages[CutAt(messages, remain) + 1..]);
    forall i | CutAt(messages, remain) < i < |messages| && messages[i].status == "complete"
      ensures messages[i] in Kept(messages, remain)
    {
      assert messages[CutAt(messages, remain) + 1..][i - CutAt(messages, remain) - 1] == messages[i];
    }
  }

  /** A window of 8192 tokens, 1024 of them for the answer, unless the caller says otherwise, and 256 to spare. */
  lemma BudgetByTheNumbers(contextWindow: int, reservedOutput: int)
    ensures contextWindow > 0 && reservedOutput > 0 ==>
      Budget(contextWindow, reservedOutput) == contextWindow - reservedOutput - 256
    ensures contextWindow > 0 && reservedOutput <= 0 ==> Budget(contextWindow, reservedOutput) == contextWindow - 1280
    ensures contextWindow <= 0 && reservedOutput > 0 ==> Budget(contextWindow, reservedOutput) == 7936 - reservedOutput
    ensures contextWindow <= 0 && reservedOutput <= 0 ==> Budget(contextWindow, reservedOutput) == 6912
  {
  }

  /** Every summary, current message and stored message costs its own estimate, and nothing costs more. */
  lemma EachTextCostsItsEstimate(summaries: seq<Summary>, s: Summary, current: seq<Incoming>, m: Incoming,
                                 stored: seq<Message>, t: Message)
    ensures SummaryTokens(summaries + [s]) == SummaryTokens(summaries) + EstimateTokens(s.text)
    ensures CurrentTokens(current + [m])
      == CurrentTokens(current) + (if m.content.Some? then EstimateTokens(m.content.value) else 0)
    ensures Tokens(stored + [t]) == Tokens(stored) + t.tokenEst
    ensures SummaryTokens([]) == CurrentTokens([]) == Tokens([]) == 0
  {
    hide EstimateTokens;
    assert (summaries + [s])[..|summaries|] == summaries;
    assert (current + [m])[..|current|] == current;
    assert (stored + [t])[..|stored|] == stored;
  }

  /** What was just said is in the next context, if it fits: a turn that was stored whole comes last. */
  lemma TheLastTurnIsRemembered(c: Conversation, op: Op, remain: int)
    requires op.Append? && op.status in {"", "complete"} && EstimatesHold(c.messages)
    requires Tokens(Stamped(c.nextSeq, op.requestID, op.user)) + EstimateTokens(op.reply) <= remain
    ensures var turn := Stamped(c.nextSeq, op.requestID, op.user) + [Reply(c, op)];
      var kept := Kept(Appended(c, op).messages, remain);
      |turn| <= |kept| && kept[|kept| - |turn|..] == turn
  {
    hide CutAt, Complete, Tokens, EstimateTokens, LastOf;
    var d := Appended(c, op);
    var turn := Stamped(c.nextSeq, op.requestID, op.user) + [Reply(c, op)];
    var n := |c.messages|;
    assert d.messages == c.messages + turn;
    assert d.messages[n..] == turn;
    AllComplete(turn);
    TokensSnoc(Stamped(c.nextSeq, op.requestID, op.user), Reply(c, op));
    assert EstimatesHold(d.messages) by { TurnEstimates(c, op); }
    TokensNonNegative(d.messages[n..]);
    SuffixFitsIff(d.messages, remain, n);
    var cut := CutAt(d.messages, remain);
    assert d.messages[cut + 1..] == d.messages[cut + 1..n] + turn;
    CompleteConcat(d.messages[cut + 1..n], turn);
  }

  lemma TurnEstimates(c: Conversation, op: Op)
    requires op.Append? && EstimatesHold(c.messages)
    ensures EstimatesHold(Appended(c, op).messages)
  {
  }

  lemma TokensSnoc(messages: seq<Message>, m: Message)
    ensures Tokens(messages + [m]) == Tokens(messages) + m.tokenEst
  {
    assert (messages + [m])[..|messages|] == messages;
  }

  lemma {:induction false} AllComplete(messages: seq<Message>)
    requires forall m <- messages :: m.status == "complete"
    ensures Complete(messages) == messages
  {
    if messages != [] {
      var n := |messages| - 1;
      AllComplete(messages[..n]);
      assert messages == messages[..n] + [messages[n]] && messages[n] in messages;
    }
  }

  lemma {:induction false} CompleteConcat(a: seq<Message>, b: seq<Message>)
    ensures Complete(a + b) == Complete(a) + Complete(b)
  {
    if b == [] {
      assert a + b == a;
    } else {
      var n := |b| - 1;
      assert (a + b)[..|a + b| - 1] == a + b[..n];
      CompleteConcat(a, b[..n]);
    }
  }

  // ---------------------------------------------------------------- agreement with ReplaceWithSummary

  lemma {:induction false} RunOnlyAdds(c: Conversation, ops: seq<Op>)
    requires Inv(c)
    ensures Run(c, ops).nextSeq >= c.nextSeq
    ensures forall m <- Run(c, ops).messages :: m in c.messages || m.seqNo >= c.nextSeq
    decreases |ops|
  {
    hide Inv, EstimateTokens;
    if ops != [] {
      var before, op := Run(c, ops[..|ops| - 1]), ops[|ops| - 1];
      RunOnlyAdds(c, ops[..|ops| - 1]);
      RunKeepsInv(c, ops[..|ops| - 1]);
      if op.Replace? {
        InvAscending(before);
        OutsideIsAFilter(before.messages, op.fromSeq, op.toSeq);
      }
    }
  }

  lemma InvAscending(c: Conversation)
    requires Inv(c)
    ensures Ascending(c.messages) && c.nextSeq >= 1
    ensures forall m <- c.messages :: 1 <= m.seqNo < c.nextSeq
  {
  }

  lemma RangeIsThePrefix(messages: seq<Message>, cut: nat, m: Message)
    requires Ascending(messages) && cut < |messages| && m in messages
    ensures messages[0].seqNo <= m.seqNo <= messages[cut].seqNo <==> m in messages[..cut + 1]
  {
    var i :| 0 <= i < |messages| && messages[i] == m;
    assert i <= cut ==> messages[..cut + 1][i] == m;
  }

  /** Replacing the proposed range, after any other turns and replacements, removes exactly what is left of
      the messages up to the cut: nothing that the context kept, and nothing added since. */
  lemma SuggestionRemovesTheCut(c: Conversation, remain: int, ops: seq<Op>, text: string, model: string)
    requires Inv(c) && CutAt(c.messages, remain) >= 0
    ensures var range := SuggestedRange(c.messages, remain).value;
      var later := Run(c, ops);
      var after := Step(later, Replace(range.fromSeq, range.toSeq, text, model));
      && Ascending(after.messages)
      && forall m :: m in after.messages <==> m in later.messages && m !in c.messages[..CutAt(c.messages, remain) + 1]
  {
    hide Inv, Outside, EstimateTokens, Appended, TakesEffect;
    var range := SuggestedRange(c.messages, remain).value;
    var cut := CutAt(c.messages, remain);
    var later := Run(c, ops);
    RunKeepsInv(c, ops);
    RunOnlyAdds(c, ops);
    InvAscending(c);
    InvAscending(later);
    OutsideIsAFilter(later.messages, range.fromSeq, range.toSeq);
    forall m | m in later.messages
      ensures range.fromSeq <= m.seqNo <= range.toSeq <==> m in c.messages[..cut + 1]
    {
      assert c.messages[cut] in c.messages;
      if m in c.messages {
        RangeIsThePrefix(c.messages, cut, m);
      }
    }
  }

  /** When only turns were appended in between, the log that remains is the rest, in order. */
  lemma SuggestionAfterAppends(c: Conversation, remain: int, ops: seq<Op>, text: string, model: string)
    requires Inv(c) && CutAt(c.messages, remain) >= 0 && forall op <- ops :: op.Append?
    ensures var range := SuggestedRange(c.messages, remain).value;
      var later := Run(c, ops);
      && c.messages <= later.messages
      && Step(later, Replace(range.fromSeq, range.toSeq, text, model)).messages
         == later.messages[CutAt(c.messages, remain) + 1..]
  {
    hide Inv, EstimateTokens, Appended, TakesEffect, Outside, CutAt;
    var range := SuggestedRange(c.messages, remain).value;
    var n := CutAt(c.messages, remain) + 1;
    var later := Run(c, ops);
    AppendsExtend(c, ops);
    RunKeepsInv(c, ops);
    InvAscending(later);
    OutsideOfPrefix(later.messages, n, range.fromSeq, range.toSeq);
  }

  lemma {:induction false} AppendsExtend(c: Conversation, ops: seq<Op>)
    requires forall op <- ops :: op.Append?
    ensures c.messages <= Run(c, ops).messages
    decreases |ops|
  {
    hide EstimateTokens;
    if ops != [] {
      AppendsExtend(c, ops[..|ops| - 1]);
      assert ops[|ops| - 1] in ops;
    }
  }

  lemma {:induction false} OutsideOfPrefix(messages: seq<Message>, n: nat, fromSeq: int, toSeq: int)
    requires n <= |messages|
    requires forall i :: 0 <= i < n ==> fromSeq <= messages[i].seqNo <= toSeq
    requires forall i :: n <= i < |messages| ==> messages[i].seqNo < fromSeq || messages[i].seqNo > toSeq
    ensures Outside(messages, fromSeq, toSeq) == messages[n..]
    decreases |messages|
  {
    if messages != [] {
      var last := |messages| - 1;
      if n <= last {
        OutsideOfPrefix(messages[..last], n, fromSeq, toSeq);
        assert messages[n..] == messages[..last][n..] + [messages[last]];
      } else {
        OutsideOfPrefix(messages[..last], last, fromSeq, toSeq);
      }
    }
  }
}
