/** One step across its primary and fallback pools (runStep and attempt in
    platform/workflow/service.go).

    The executor is an arbitrary function of the step, the attempt number and the rendered input;
    every (step, attempt) pair is asked at most once, so this covers every sequence of outcomes. */
module Attempts {
  import opened Wrappers
  import opened FlowDefinitions
  import opened Runs

  // ---------------------------------------------------------------- one attempt

  /** What the executor answers: an error, or an HTTP response whose body may hold a chat completion. */
  datatype ExecResult =
    | Refused(code: BackendCode, message: string)
    | Replied(statusCode: int, content: Option<string>, usageIn: Option<int>, usageOut: Option<int>,
              deploymentID: string, routeType: string)

  type Exec = (nat, nat, string) -> ExecResult

  datatype AttemptResult = AttemptResult(
    error: Option<BackendCode>, message: string, output: string, usageIn: Option<int>, usageOut: Option<int>,
    deploymentID: string, routeType: string)

  function Interpret(r: ExecResult): AttemptResult {
    match r
    case Refused(code, message) => AttemptResult(Some(code), message, "", None, None, "", "")
    case Replied(statusCode, content, i, o, dep, route) =>
      if statusCode >= 400 then
        AttemptResult(Some(ErrInternalContract), "upstream returned an error status", "", i, o, dep, route)
      else if content.None? then
        AttemptResult(Some(ErrInternalContract), "upstream response is not a chat completion", "", i, o, dep, route)
      else AttemptResult(None, "", content.value, i, o, dep, route)
  }

  predicate Retryable(code: BackendCode) {
    code.ErrCapacityExhausted? || code.ErrModelNotAvailable? || code.ErrPlatformNotReady?
  }

  /** The attempt settles the step: it succeeded, or failed in a way that must not be tried again. */
  predicate Decisive(a: AttemptResult) {
    a.error.None? || !Retryable(a.error.value)
  }

  /** The step's error code when `a` was its last attempt. */
  function CodeOf(a: AttemptResult): Code {
    match a.error
    case None => NoCode
    case Some(ErrInferenceTimeout) => StepTimeout
    case Some(ErrInvalidRequest) => InputValidation
    case Some(code) => if Retryable(code) then NoEligible else InvalidResponse
  }

  /** The message that goes with a failed attempt. */
  function ReasonOf(a: AttemptResult): Reason {
    match a.error
    case None => NoReason
    case Some(ErrInferenceTimeout) => TimedOut
    case Some(_) => Upstream(a.message)
  }

  // ---------------------------------------------------------------- the walk

  datatype Target = Target(poolID: string, fallback: bool)

  function Targets(s: Step): (ts: seq<Target>)
    ensures |ts| >= 1
  {
    [Target(s.poolID, false)] +
    match s.fallbackPolicy
    case None => []
    case Some(p) => seq(|p.allowedPoolIDs|, i requires 0 <= i < |p.allowedPoolIDs| => Target(p.allowedPoolIDs[i], true))
  }

  function MaxAttempts(s: Step): int {
    if s.retryPolicy.Some? then s.retryPolicy.value.maxAttempts else DEFAULT_MAX_ATTEMPTS
  }

  /** Attempts per target: a policy that was never validated may ask for none. */
  function Tries(s: Step): nat {
    if MaxAttempts(s) < 0 then 0 else MaxAttempts(s)
  }

  function MaxCalls(s: Step): nat {
    |Targets(s)| * Tries(s)
  }

  lemma MulMono(a: nat, b: nat, m: nat)
    requires a <= b
    ensures a * m <= b * m
  {
  }

  lemma DivIs(x: nat, m: nat, t: nat)
    requires m > 0
    ensures x / m == t <==> t * m <= x < (t + 1) * m
  {
    var q := x / m;
    assert q * m <= x < q * m + m == (q + 1) * m;
    if t * m <= x < (t + 1) * m {
      if q < t {
        MulMono(q + 1, t, m);
      } else if q > t {
        MulMono(t + 1, q, m);
      }
    }
  }

  lemma TargetIndex(m: nat, t: nat, a: nat, n: nat)
    requires a < m && t < n
    ensures (t * m + a) / m == t && t * m + a < n * m
  {
    MulMono(t + 1, n, m);
    DivIs(t * m + a, m, t);
  }

  lemma TargetInRange(k: nat, m: nat, n: nat)
    requires k < n * m
    ensures m > 0 && k / m < n && (k / m == 0 <==> k < m)
  {
    assert m == 0 ==> n * m == 0;
    DivIs(k, m, k / m);
    if k / m >= n {
      MulMono(n, k / m, m);
    }
    DivIs(k, m, 0);
  }

  function Answer(exec: Exec, idx: nat, text: string, k: nat): AttemptResult {
    Interpret(exec(idx, k + 1, text))
  }

  /** The message of a step after `n` attempts. */
  function ReasonAfter(exec: Exec, idx: nat, text: string, n: int): Reason {
    if n <= 0 then NoEligibleRuntime else ReasonOf(Answer(exec, idx, text, n - 1))
  }

  /** How many attempts are made, given that the first `k` settled nothing. */
  function WalkLength(exec: Exec, idx: nat, text: string, total: nat, k: nat): (n: nat)
    requires k <= total
    ensures k <= n <= total
    ensures forall i | k <= i < n - 1 :: !Decisive(Answer(exec, idx, text, i))
    ensures k < n < total ==> Decisive(Answer(exec, idx, text, n - 1))
    ensures k < total ==> k < n
    decreases total - k
  {
    if k == total then k
    else if Decisive(Answer(exec, idx, text, k)) then k + 1
    else WalkLength(exec, idx, text, total, k + 1)
  }

  function DecisionAt(exec: Exec, idx: nat, s: Step, text: string, k: nat): RouteDecision
    requires k < MaxCalls(s)
  {
    TargetInRange(k, Tries(s), |Targets(s)|);
    var tg := Targets(s)[k / Tries(s)];
    var a := Answer(exec, idx, text, k);
    RouteDecision(k + 1, tg.poolID, a.deploymentID, a.routeType, tg.fallback, a.error)
  }

  function FirstDecisions(exec: Exec, idx: nat, s: Step, text: string, n: nat): seq<RouteDecision>
    requires n <= MaxCalls(s)
  {
    seq(n, k requires 0 <= k < n => DecisionAt(exec, idx, s, text, k))
  }

  function Calls(exec: Exec, idx: nat, s: Step, text: string): (n: nat)
    ensures n <= MaxCalls(s)
  {
    WalkLength(exec, idx, text, MaxCalls(s), 0)
  }

  /** The routing decisions of an uninterrupted step. */
  function Walk(exec: Exec, idx: nat, s: Step, text: string): seq<RouteDecision> {
    FirstDecisions(exec, idx, s, text, Calls(exec, idx, s, text))
  }

  /** The code of an uninterrupted step. */
  function WalkCode(exec: Exec, idx: nat, s: Step, text: string): (c: Code)
    ensures c !in {Cancelled, TemplateRender, BudgetExceeded}
  {
    var n := Calls(exec, idx, s, text);
    if n == 0 then NoEligible else CodeOf(Answer(exec, idx, text, n - 1))
  }

  /** The pools of the fallback policy in its order, from 0. */
  function FallbackPool(s: Step, n: int): string {
    if s.fallbackPolicy.Some? && 0 <= n < |s.fallbackPolicy.value.allowedPoolIDs|
    then s.fallbackPolicy.value.allowedPoolIDs[n] else ""
  }

  /** Decision `k` is attempt `k + 1` on target `k / tries`. */
  lemma WalkVisitsTargetsInOrder(exec: Exec, idx: nat, s: Step, text: string, k: nat)
    requires k < |Walk(exec, idx, s, text)|
    ensures Tries(s) > 0 && 0 <= k / Tries(s) < |Targets(s)|
    ensures var d := Walk(exec, idx, s, text)[k];
      d.attempt == k + 1 && d.poolID == Targets(s)[k / Tries(s)].poolID
      && (d.fallbackUsed <==> k >= Tries(s))
      && d.errorCode == Answer(exec, idx, text, k).error
      && d.poolID == if k < Tries(s) then s.poolID else FallbackPool(s, k / Tries(s) - 1)
  {
    TargetInRange(k, Tries(s), |Targets(s)|);
  }

  /** Every decision but the last failed retryably; a success or a timeout is always the last one. */
  lemma OnlyRetryableFailuresAreRetried(exec: Exec, idx: nat, s: Step, text: string)
    ensures var w := Walk(exec, idx, s, text);
      && (forall k | 0 <= k < |w| - 1 :: w[k].errorCode.Some? && Retryable(w[k].errorCode.value))
      && (forall k | 0 <= k < |w| :: w[k].errorCode in {None, Some(ErrInferenceTimeout)} ==> k == |w| - 1)
  {
    var w := Walk(exec, idx, s, text);
    forall k | 0 <= k < |w| - 1 ensures w[k].errorCode.Some? && Retryable(w[k].errorCode.value) {
      assert !Decisive(Answer(exec, idx, text, k));
    }
  }

  /** At most tries x (1 + fallback pools) calls; fewer only after a decisive answer. */
  lemma WalkStopsForAReason(exec: Exec, idx: nat, s: Step, text: string)
    ensures var n := |Walk(exec, idx, s, text)|;
      && n <= Tries(s) * (1 + if s.fallbackPolicy.Some? then |s.fallbackPolicy.value.allowedPoolIDs| else 0)
      && (n < MaxCalls(s) ==> n > 0 && Decisive(Answer(exec, idx, text, n - 1)))
  {
  }

  /** What each answer of the executor becomes: its own error, an internal one for an error status or a reply that
      is no completion, or none. */
  lemma AnswersAreRecorded(exec: Exec, idx: nat, s: Step, text: string, k: nat)
    requires k < |Walk(exec, idx, s, text)|
    ensures var x, d := exec(idx, k + 1, text), Walk(exec, idx, s, text)[k];
      if x.Refused? then d.errorCode == Some(x.code) && d.deploymentID == "" && d.routeType == ""
      else
        && d.deploymentID == x.deploymentID && d.routeType == x.routeType
        && (d.errorCode == None <==> x.statusCode < 400 && x.content.Some?)
        && (d.errorCode != None ==> d.errorCode == Some(ErrInternalContract))
  {
  }

  /** Which failures are tried again: capacity, model and platform unavailable, and no other.  The walk goes on
      until another answer comes or the attempts, on each pool the policy's number or one, are used up. */
  lemma TriedAgainAfterThreeCodesOnly(exec: Exec, idx: nat, s: Step, text: string)
    ensures var w := Walk(exec, idx, s, text);
      var tries := if s.retryPolicy.None? then 1 else s.retryPolicy.value.maxAttempts;
      var pools := if s.fallbackPolicy.None? then 1 else 1 + |s.fallbackPolicy.value.allowedPoolIDs|;
      && (tries <= 0 ==> w == [])
      && (tries > 0 ==> 1 <= |w| <= pools * tries)
      && (forall k | 0 <= k < |w| - 1 ::
            w[k].errorCode in {Some(ErrCapacityExhausted), Some(ErrModelNotAvailable), Some(ErrPlatformNotReady)})
      && (tries > 0 && |w| < pools * tries ==>
            w[|w| - 1].errorCode
              !in {Some(ErrCapacityExhausted), Some(ErrModelNotAvailable), Some(ErrPlatformNotReady)})
  {
    var w := Walk(exec, idx, s, text);
    forall k | 0 <= k < |w| - 1
      ensures w[k].errorCode in {Some(ErrCapacityExhausted), Some(ErrModelNotAvailable), Some(ErrPlatformNotReady)}
    {
      assert !Decisive(Answer(exec, idx, text, k));
    }
    TargetCount(s);
  }

  lemma TargetCount(s: Step)
    ensures MaxCalls(s) == 0 <==> Tries(s) == 0
    ensures |Targets(s)| == if s.fallbackPolicy.None? then 1 else 1 + |s.fallbackPolicy.value.allowedPoolIDs|
  {
    if Tries(s) > 0 {
      MulMono(1, |Targets(s)|, Tries(s));
    }
  }

  /** The step's code, by the error of its last attempt. */
  lemma CodeByTheLastError(exec: Exec, idx: nat, s: Step, text: string)
    ensures var w, code := Walk(exec, idx, s, text), WalkCode(exec, idx, s, text);
      if w == [] then code == NoEligible else
        var error := w[|w| - 1].errorCode;
        && (error == None <==> code == NoCode)
        && (error == Some(ErrInferenceTimeout) <==> code == StepTimeout)
        && (error == Some(ErrInvalidRequest) <==> code == InputValidation)
        && (error in {Some(ErrCapacityExhausted), Some(ErrModelNotAvailable), Some(ErrPlatformNotReady)}
            <==> code == NoEligible)
        && code in {NoCode, StepTimeout, InputValidation, NoEligible, InvalidResponse}
  {
  }

  /** `no_eligible_runtime` means that every allowed attempt was made and failed retryably. */
  lemma NoEligibleMeansExhausted(exec: Exec, idx: nat, s: Step, text: string)
    ensures WalkCode(exec, idx, s, text) == NoEligible <==>
      forall k | 0 <= k < MaxCalls(s) :: !Decisive(Answer(exec, idx, text, k))
  {
    var n := Calls(exec, idx, s, text);
    if WalkCode(exec, idx, s, text) == NoEligible && n > 0 {
      assert !Decisive(Answer(exec, idx, text, n - 1));
    }
  }

  /** A fallback pool is used only after every earlier target was tried to exhaustion without a decision. */
  lemma FallbackOnlyAfterExhaustion(exec: Exec, idx: nat, s: Step, text: string, k: nat)
    requires k < |Walk(exec, idx, s, text)| && Walk(exec, idx, s, text)[k].fallbackUsed
    ensures Tries(s) > 0
    ensures var m := Tries(s); var w := Walk(exec, idx, s, text);
      1 <= k / m && forall j | 0 <= j < (k / m) * m :: j < k && w[j].errorCode.Some? && Retryable(w[j].errorCode.value)
  {
    var m := Tries(s);
    TargetInRange(k, m, |Targets(s)|);
    DivIs(k, m, k / m);
    OnlyRetryableFailuresAreRetried(exec, idx, s, text);
  }

  // ---------------------------------------------------------------- what a walk announces

  /** Turning to target `t`. */
  function Selected(s: Step, t: nat): seq<EventKind> {
    if t < |Targets(s)| && Targets(s)[t].fallback then [FallbackSelected(s.stepID, Targets(s)[t].poolID)] else []
  }

  /** Before call `k`, unless it is the first. */
  function Retry(s: Step, k: nat): seq<EventKind> {
    if k > 0 then [StepRetryingEvent(s.stepID, k + 1)] else []
  }

  function Selections(s: Step, t: nat): seq<EventKind> {
    if t == 0 then [] else Selections(s, t - 1) + Selected(s, t - 1)
  }

  /** All events before the answer to call `n - 1`. */
  function Preludes(s: Step, n: nat): seq<EventKind> {
    if n == 0 then [] else
    var k, m := n - 1, Tries(s);
    Preludes(s, k) + (if m > 0 && (k / m) * m == k then Selected(s, k / m) else []) + Retry(s, k)
  }

  /** The events of an uninterrupted step between its start and its end. */
  function WalkLog(exec: Exec, idx: nat, s: Step, text: string): seq<EventKind> {
    if Tries(s) == 0 then Selections(s, |Targets(s)|) else Preludes(s, Calls(exec, idx, s, text))
  }

  /** The events when `t` targets are exhausted. */
  function Sofar(s: Step, t: nat): seq<EventKind> {
    if Tries(s) == 0 then Selections(s, t) else Preludes(s, t * Tries(s))
  }

  /** The events when target `t` was turned to and answered `a` calls. */
  function Told(s: Step, t: nat, a: nat): seq<EventKind> {
    if a == 0 then Sofar(s, t) + Selected(s, t) else Preludes(s, t * Tries(s) + a)
  }

  lemma ToldStep(s: Step, t: nat, a: nat)
    requires t < |Targets(s)| && a < Tries(s)
    ensures var k := t * Tries(s) + a;
      Told(s, t, a) + Retry(s, k) == Preludes(s, k + 1) == Told(s, t, a + 1)
  {
    hide Targets, Selected, Retry;
    var m := Tries(s);
    TargetIndex(m, t, a, |Targets(s)|);
  }

  lemma ToldLast(s: Step, t: nat)
    ensures Told(s, t, Tries(s)) == Sofar(s, t + 1)
  {
    hide Selected;
    if Tries(s) > 0 {
      NextTarget(Tries(s), t);
    }
  }

  lemma {:induction false} PreludesGrow(s: Step, n: nat, more: nat)
    requires n <= more
    ensures Preludes(s, n) <= Preludes(s, more)
    decreases more
  {
    hide Selected, Retry;
    if n < more {
      PreludesGrow(s, n, more - 1);
    }
  }

  lemma UndecidedGoesOn(exec: Exec, idx: nat, s: Step, text: string, t: nat, a: nat)
    requires t < |Targets(s)| && a < Tries(s)
    requires forall k | 0 <= k < t * Tries(s) + a :: !Decisive(Answer(exec, idx, text, k))
    ensures Calls(exec, idx, s, text) > t * Tries(s) + a
  {
    hide Targets, Tries, Decisive, Answer;
    TargetIndex(Tries(s), t, a, |Targets(s)|);
    UndecidedPrefix(exec, idx, text, MaxCalls(s), 0, t * Tries(s) + a);
  }

  lemma BeginsTheWalk(exec: Exec, idx: nat, s: Step, text: string, k: nat, told: seq<EventKind>,
                      retry: seq<EventKind>)
    requires Tries(s) > 0 && k < Calls(exec, idx, s, text) && told + retry == Preludes(s, k + 1)
    ensures told <= WalkLog(exec, idx, s, text) && told + retry <= WalkLog(exec, idx, s, text)
  {
    hide Preludes, Calls;
    PreludesGrow(s, k + 1, Calls(exec, idx, s, text));
  }

  /** As long as nothing was decisive, what was announced begins what an uninterrupted step announces. */
  lemma ToldWithin(exec: Exec, idx: nat, s: Step, text: string, t: nat, a: nat, k: nat)
    requires t < |Targets(s)| && a < Tries(s) && k == t * Tries(s) + a
    requires forall i | 0 <= i < k :: !Decisive(Answer(exec, idx, text, i))
    ensures Told(s, t, a) <= WalkLog(exec, idx, s, text)
    ensures Told(s, t, a) + Retry(s, k) <= WalkLog(exec, idx, s, text)
  {
    hide *;
    UndecidedGoesOn(exec, idx, s, text, t, a);
    ToldStep(s, t, a);
    BeginsTheWalk(exec, idx, s, text, k, Told(s, t, a), Retry(s, k));
  }

  /** A decisive answer to call `k` ends the walk there. */
  lemma ToldDecisively(exec: Exec, idx: nat, s: Step, text: string, t: nat, a: nat)
    requires t < |Targets(s)| && a < Tries(s)
    requires forall k | 0 <= k < t * Tries(s) + a :: !Decisive(Answer(exec, idx, text, k))
    requires Decisive(Answer(exec, idx, text, t * Tries(s) + a))
    ensures Told(s, t, a) + Retry(s, t * Tries(s) + a) == WalkLog(exec, idx, s, text)
  {
    hide Targets, Selected, Retry, Decisive, Answer, Told, Preludes;
    var k := t * Tries(s) + a;
    TargetIndex(Tries(s), t, a, |Targets(s)|);
    UndecidedPrefix(exec, idx, text, MaxCalls(s), 0, k);
    assert Calls(exec, idx, s, text) == k + 1;
    ToldStep(s, t, a);
  }

  lemma ToldOut(exec: Exec, idx: nat, s: Step, text: string)
    requires forall k | 0 <= k < MaxCalls(s) :: !Decisive(Answer(exec, idx, text, k))
    ensures Sofar(s, |Targets(s)|) == WalkLog(exec, idx, s, text)
  {
    hide Targets, Selected, Decisive, Answer, Preludes, Selections;
    UndecidedPrefix(exec, idx, text, MaxCalls(s), 0, MaxCalls(s));
  }

  // ---------------------------------------------------------------- runStep

  /** `n` attempts have been recorded on `st`, none of them decisive. */
  ghost predicate Trying(exec: Exec, idx: nat, s: Step, text: string, st: StepState, n: nat) {
    && st.status in {StepRunning, StepRetrying} && st.errorCode == NoCode
    && st.inputTokens == 0 && st.outputTokens == 0 && st.attempts == n
    && n <= MaxCalls(s) && st.decisions == FirstDecisions(exec, idx, s, text, n)
    && (forall k | 0 <= k < n :: !Decisive(Answer(exec, idx, text, k)))
  }

  /** How runStep leaves the step when it returns `code` (success is `NoCode`). */
  ghost predicate Attempted(exec: Exec, idx: nat, s: Step, text: string, st: StepState, code: Code) {
    var w := Walk(exec, idx, s, text);
    && st.status in {StepRunning, StepRetrying} && st.errorCode == NoCode
    && st.attempts == |st.decisions| && st.decisions <= w
    && (code != Cancelled ==> st.decisions == w && code == WalkCode(exec, idx, s, text))
    && (if code == NoCode then Billed(exec, idx, text, st) else st.inputTokens == 0 && st.outputTokens == 0)
  }

  /** The step carries the usage its last attempt reported. */
  ghost predicate Billed(exec: Exec, idx: nat, text: string, st: StepState) {
    && st.attempts > 0
    && var a := Answer(exec, idx, text, st.attempts - 1);
    && st.inputTokens == (if a.usageIn.Some? then a.usageIn.value else 0)
    && st.outputTokens == (if a.usageOut.Some? then a.usageOut.value else 0)
  }

  lemma {:induction false} UndecidedPrefix(exec: Exec, idx: nat, text: string, total: nat, k: nat, n: nat)
    requires k <= n <= total && forall i | k <= i < n :: !Decisive(Answer(exec, idx, text, i))
    ensures WalkLength(exec, idx, text, total, k) == WalkLength(exec, idx, text, total, n)
    decreases n - k
  {
    if k < n {
      UndecidedPrefix(exec, idx, text, total, k + 1, n);
    }
  }

  lemma OneMoreAttempt(exec: Exec, idx: nat, s: Step, text: string, st: StepState, n: nat)
    requires Trying(exec, idx, s, text, st, n) && n < MaxCalls(s)
    ensures var a := Answer(exec, idx, text, n);
      var next := WithAttempt(st, n + 1, DecisionAt(exec, idx, s, text, n), a.error.None?, a.usageIn, a.usageOut);
      if Decisive(a) then next.attempts == n + 1 && Attempted(exec, idx, s, text, next, CodeOf(a))
      else Trying(exec, idx, s, text, next, n + 1)
  {
    var a := Answer(exec, idx, text, n);
    var next := WithAttempt(st, n + 1, DecisionAt(exec, idx, s, text, n), a.error.None?, a.usageIn, a.usageOut);
    assert next.decisions == FirstDecisions(exec, idx, s, text, n + 1);
    UndecidedPrefix(exec, idx, text, MaxCalls(s), 0, n);
  }

  lemma StillTrying(exec: Exec, idx: nat, s: Step, text: string, st: StepState, n: nat)
    requires Trying(exec, idx, s, text, st, n)
    ensures Trying(exec, idx, s, text, st.(status := StepRetrying), n)
  {
  }

  lemma GivingUp(exec: Exec, idx: nat, s: Step, text: string, st: StepState, n: nat)
    requires Trying(exec, idx, s, text, st, n)
    ensures Attempted(exec, idx, s, text, st, Cancelled)
    ensures n == MaxCalls(s) ==> Attempted(exec, idx, s, text, st, NoEligible)
  {
    UndecidedPrefix(exec, idx, text, MaxCalls(s), 0, n);
  }

  lemma TargetOf(exec: Exec, idx: nat, s: Step, text: string, t: nat, a: nat)
    requires t < |Targets(s)| && a < Tries(s)
    ensures var k := t * Tries(s) + a;
      && k < MaxCalls(s)
      && DecisionAt(exec, idx, s, text, k).poolID == Targets(s)[t].poolID
      && DecisionAt(exec, idx, s, text, k).fallbackUsed == Targets(s)[t].fallback
  {
    TargetIndex(Tries(s), t, a, |Targets(s)|);
  }

  lemma NextTarget(m: nat, t: nat)
    ensures t * m + m == (t + 1) * m
  {
  }

  method RunStep(run: Run, s: Step, idx: nat, text: string, exec: Exec)
    returns (output: string, code: Code, reason: Reason)
    requires run.Observable(idx) && !Terminal(run.status) && run.doneClosed == 0 && run.stage == Working
    requires idx < |run.steps|
    requires Trying(exec, idx, s, text, run.steps[idx], 0)
    modifies run`status, run`taken, run`trail, run`ctx, run`signalling, run`announcing, run`lastSeq, run`events,
      run`steps
    ensures run.Observable(idx) && !Terminal(run.status)
    ensures old(run.ctx) != Live ==> run.ctx == old(run.ctx)
    ensures old(run.ctx) != Live ==> run.steps == old(run.steps) && (Tries(s) > 0 ==> code == Cancelled)
    ensures |run.steps| == |old(run.steps)| && run.steps[idx].stepID == old(run.steps)[idx].stepID
    ensures forall j | 0 <= j < |run.steps| && j != idx :: run.steps[j] == old(run.steps)[j]
    ensures Attempted(exec, idx, s, text, run.steps[idx], code)
    ensures Announced(Own(old(run.events)), Own(run.events), WalkLog(exec, idx, s, text), code)
    ensures code == Cancelled ==> run.ctx != Live
    ensures code == NoCode ==> output == Answer(exec, idx, text, run.steps[idx].attempts - 1).output
    ensures code != Cancelled ==> reason == ReasonAfter(exec, idx, text, run.steps[idx].attempts)
  {
    hide Run.Observable, Own, Trying, Attempted, Answer, Tries, Targets, Sofar, WalkLog, Announced;
    var tries := Tries(s);
    var targets := Targets(s);
    ghost var base := Own(run.events);
    reason := NoEligibleRuntime;
    NothingTold(s);
    for t := 0 to |targets|
      invariant run.Observable(idx) && !Terminal(run.status)
      invariant old(run.ctx) != Live ==> run.ctx == old(run.ctx)
      invariant |run.steps| == |old(run.steps)| && run.steps[idx].stepID == old(run.steps)[idx].stepID
      invariant forall j | 0 <= j < |run.steps| && j != idx :: run.steps[j] == old(run.steps)[j]
      invariant Trying(exec, idx, s, text, run.steps[idx], t * tries)
      invariant Own(run.events) == base + Sofar(s, t)
      invariant reason == ReasonAfter(exec, idx, text, t * tries)
      invariant old(run.ctx) != Live ==> run.steps == old(run.steps) && (Tries(s) > 0 ==> t == 0)
    {
      var over: bool;
      over, output, code, reason := TryTarget(run, s, idx, text, exec, t, reason, base);
      if over {
        return;
      }
    }
    NothingDecided(exec, idx, s, text, run.steps[idx], |targets| * tries);
    GivingUp(exec, idx, s, text, run.steps[idx], |targets| * tries);
    AnnouncedAll(exec, idx, s, text, base, Own(run.events));
    return "", NoEligible, reason;
  }

  /** The switch of runStep over the answer to one attempt. */
  method Judge(answer: AttemptResult) returns (over: bool, code: Code, reason: Reason)
    ensures over == Decisive(answer) && code == CodeOf(answer) != Cancelled && reason == ReasonOf(answer)
  {
    match answer.error
    case None => return true, NoCode, NoReason;
    case Some(ErrInferenceTimeout) => return true, StepTimeout, TimedOut;
    case Some(failure) =>
      if Retryable(failure) {
        return false, NoEligible, Upstream(answer.message);
      }
      return true, if failure == ErrInvalidRequest then InputValidation else InvalidResponse, Upstream(answer.message);
  }

  /** The inner loop of runStep, over the attempts on target `t`; `base` is what was said before the step. */
  method TryTarget(run: Run, s: Step, idx: nat, text: string, exec: Exec, t: nat, before: Reason,
                   ghost base: seq<EventKind>)
    returns (over: bool, output: string, code: Code, reason: Reason)
    requires run.Observable(idx) && !Terminal(run.status) && run.doneClosed == 0 && run.stage == Working
    requires idx < |run.steps|
    requires t < |Targets(s)| && Trying(exec, idx, s, text, run.steps[idx], t * Tries(s))
    requires Own(run.events) == base + Sofar(s, t) && before == ReasonAfter(exec, idx, text, t * Tries(s))
    modifies run`status, run`taken, run`trail, run`ctx, run`signalling, run`announcing, run`lastSeq, run`events,
      run`steps
    ensures run.Observable(idx) && !Terminal(run.status)
    ensures old(run.ctx) != Live ==> run.ctx == old(run.ctx)
    ensures old(run.ctx) != Live ==> run.steps == old(run.steps) && (Tries(s) > 0 ==> over && code == Cancelled)
    ensures |run.steps| == |old(run.steps)| && run.steps[idx].stepID == old(run.steps)[idx].stepID
    ensures forall j | 0 <= j < |run.steps| && j != idx :: run.steps[j] == old(run.steps)[j]
    ensures !over ==> Trying(exec, idx, s, text, run.steps[idx], (t + 1) * Tries(s))
    ensures !over ==> Own(run.events) == base + Sofar(s, t + 1)
    ensures over ==> Attempted(exec, idx, s, text, run.steps[idx], code)
    ensures over ==> Announced(base, Own(run.events), WalkLog(exec, idx, s, text), code)
    ensures !over ==> reason == ReasonAfter(exec, idx, text, (t + 1) * Tries(s))
    ensures over && code != Cancelled ==> reason == ReasonAfter(exec, idx, text, run.steps[idx].attempts)
    ensures over && code == Cancelled ==> run.ctx != Live
    ensures over && code == NoCode ==> output == Answer(exec, idx, text, run.steps[idx].attempts - 1).output
  {
    hide Run.Observable, Own, Trying, Attempted, Answer, DecisionAt, Tries, Targets, Told, Sofar, Retry, WalkLog;
    hide Announced, Decisive, CodeOf, ReasonOf;
    var tries := Tries(s);
    var tg := Targets(s)[t];
    over, reason, output, code := false, before, "", NoCode;
    if tg.fallback {
      run.Say(FallbackSelected(s.stepID, tg.poolID), idx);
    }
    TurnedTo(s, t);
    var attempt := t * tries;
    for a := 0 to tries
      invariant attempt == t * tries + a
      invariant run.Observable(idx) && !Terminal(run.status)
      invariant old(run.ctx) != Live ==> run.ctx == old(run.ctx)
      invariant |run.steps| == |old(run.steps)| && run.steps[idx].stepID == old(run.steps)[idx].stepID
      invariant forall j | 0 <= j < |run.steps| && j != idx :: run.steps[j] == old(run.steps)[j]
      invariant Trying(exec, idx, s, text, run.steps[idx], attempt)
      invariant Own(run.events) == base + Told(s, t, a)
      invariant reason == ReasonAfter(exec, idx, text, attempt)
      invariant old(run.ctx) != Live ==> run.steps == old(run.steps) && a == 0
    {
      TargetOf(exec, idx, s, text, t, a);
      NothingDecided(exec, idx, s, text, run.steps[idx], attempt);
      var aborted, answer := TryOnce(run, s, idx, text, exec, tg, attempt);
      if aborted {
        AnnouncedPart(exec, idx, s, text, t, a, base, Own(run.events));
        return true, "", Cancelled, Aborted;
      }
      AnnouncedCall(exec, idx, s, text, t, a, base, Own(run.events), answer);
      attempt := attempt + 1;
      over, code, reason := Judge(answer);
      if over {
        return true, answer.output, code, reason;
      }
    }
    NextTarget(tries, t);
    ToldLast(s, t);
    return false, "", NoCode, reason;
  }

  /** What the runner says during a step that ends in `code`: all of the walk's events, or their beginning
      if the run was aborted. */
  ghost predicate Announced(before: seq<EventKind>, after: seq<EventKind>, full: seq<EventKind>, code: Code) {
    if code == Cancelled then before <= after <= before + full else after == before + full
  }

  lemma NothingTold(s: Step)
    ensures Sofar(s, 0) == [] && forall own: seq<EventKind> :: own == own + Sofar(s, 0)
  {
  }

  lemma TurnedTo(s: Step, t: nat)
    requires t < |Targets(s)|
    ensures forall base: seq<EventKind> :: var tg := Targets(s)[t];
      base + Sofar(s, t) + (if tg.fallback then [FallbackSelected(s.stepID, tg.poolID)] else []) == base + Told(s, t, 0)
    ensures !Targets(s)[t].fallback ==> Told(s, t, 0) == Sofar(s, t)
  {
    hide Targets, Sofar;
  }

  lemma NothingDecided(exec: Exec, idx: nat, s: Step, text: string, st: StepState, n: nat)
    requires Trying(exec, idx, s, text, st, n)
    ensures st.attempts == n && forall k | 0 <= k < n :: !Decisive(Answer(exec, idx, text, k))
  {
  }

  lemma AnnouncedPart(exec: Exec, idx: nat, s: Step, text: string, t: nat, a: nat, base: seq<EventKind>,
                      own: seq<EventKind>)
    requires t < |Targets(s)| && a < Tries(s)
    requires forall k | 0 <= k < t * Tries(s) + a :: !Decisive(Answer(exec, idx, text, k))
    requires own == base + Told(s, t, a) || own == base + Told(s, t, a) + Retry(s, t * Tries(s) + a)
    ensures Announced(base, own, WalkLog(exec, idx, s, text), Cancelled)
  {
    hide Targets, Tries, Told, Retry, WalkLog, Decisive, Answer;
    ToldWithin(exec, idx, s, text, t, a, t * Tries(s) + a);
    assert base + Told(s, t, a) + Retry(s, t * Tries(s) + a) == base + (Told(s, t, a) + Retry(s, t * Tries(s) + a));
  }

  lemma AnnouncedCall(exec: Exec, idx: nat, s: Step, text: string, t: nat, a: nat, base: seq<EventKind>,
                      own: seq<EventKind>,
                      answer: AttemptResult)
    requires t < |Targets(s)| && a < Tries(s) && answer == Answer(exec, idx, text, t * Tries(s) + a)
    requires forall k | 0 <= k < t * Tries(s) + a :: !Decisive(Answer(exec, idx, text, k))
    requires own == base + Told(s, t, a) + Retry(s, t * Tries(s) + a)
    ensures own == base + Told(s, t, a + 1)
    ensures Decisive(answer) ==> own == base + WalkLog(exec, idx, s, text)
    ensures Decisive(answer) ==>
      forall code :: code != Cancelled ==> Announced(base, own, WalkLog(exec, idx, s, text), code)
  {
    hide Targets, Tries, Told, Retry, WalkLog, Decisive, Answer;
    ToldStep(s, t, a);
    assert own == base + (Told(s, t, a) + Retry(s, t * Tries(s) + a));
    if Decisive(answer) {
      ToldDecisively(exec, idx, s, text, t, a);
    }
  }

  lemma AnnouncedAll(exec: Exec, idx: nat, s: Step, text: string, base: seq<EventKind>, own: seq<EventKind>)
    requires forall k | 0 <= k < MaxCalls(s) :: !Decisive(Answer(exec, idx, text, k))
    requires own == base + Sofar(s, |Targets(s)|)
    ensures Announced(base, own, WalkLog(exec, idx, s, text), NoEligible)
  {
    hide Sofar, WalkLog, Targets, Answer, Decisive, MaxCalls;
    ToldOut(exec, idx, s, text);
  }

  /** One turn of runStep's inner loop, with other goroutines let in wherever the lock is free. */
  method TryOnce(run: Run, s: Step, idx: nat, text: string, exec: Exec, tg: Target, attempt: nat)
    returns (aborted: bool, answer: AttemptResult)
    requires run.Observable(idx) && !Terminal(run.status) && run.doneClosed == 0 && run.stage == Working
    requires idx < |run.steps|
    requires attempt < MaxCalls(s) && Trying(exec, idx, s, text, run.steps[idx], attempt)
    requires tg.poolID == DecisionAt(exec, idx, s, text, attempt).poolID
    requires tg.fallback == DecisionAt(exec, idx, s, text, attempt).fallbackUsed
    modifies run`status, run`taken, run`trail, run`ctx, run`signalling, run`announcing, run`lastSeq, run`events,
      run`steps
    ensures run.Observable(idx) && !Terminal(run.status)
    ensures old(run.ctx) != Live ==> run.ctx == old(run.ctx)
    ensures old(run.ctx) != Live ==> aborted && run.steps == old(run.steps) && Own(run.events) == Own(old(run.events))
    ensures |run.steps| == |old(run.steps)| && run.steps[idx].stepID == old(run.steps)[idx].stepID
    ensures forall j | 0 <= j < |run.steps| && j != idx :: run.steps[j] == old(run.steps)[j]
    ensures
      || Own(run.events) == Own(old(run.events)) + Retry(s, attempt)
      || (aborted && Own(run.events) == Own(old(run.events)))
    ensures aborted ==> run.ctx != Live && Attempted(exec, idx, s, text, run.steps[idx], Cancelled)
    ensures !aborted ==> answer == Answer(exec, idx, text, attempt)
    ensures !aborted ==>
      if Decisive(answer)
      then run.steps[idx].attempts == attempt + 1 && Attempted(exec, idx, s, text, run.steps[idx], CodeOf(answer))
      else Trying(exec, idx, s, text, run.steps[idx], attempt + 1)
  {
    hide Run.Observable, Own, MaxCalls, Trying, Attempted, Answer, Decisive, CodeOf, Retry;
    answer := AttemptResult(None, "", "", None, None, "", "");
    aborted := AwaitTurn(run, s, idx, text, exec, attempt);
    if aborted {
      return;
    }
    run.Interfere(idx);
    answer := Answer(exec, idx, text, attempt);
    var decision :=
      RouteDecision(attempt + 1, tg.poolID, answer.deploymentID, answer.routeType, tg.fallback, answer.error);
    OneMoreAttempt(exec, idx, s, text, run.steps[idx], attempt);
    run.RecordAttempt(idx, attempt + 1, decision, answer.error.None?, answer.usageIn, answer.usageOut);
    run.Interfere(idx);
  }

  /** The part of a turn before the call: the context is checked, and a retry announced and delayed. */
  method AwaitTurn(run: Run, s: Step, idx: nat, text: string, exec: Exec, attempt: nat) returns (aborted: bool)
    requires run.Observable(idx) && !Terminal(run.status) && run.doneClosed == 0 && run.stage == Working
    requires idx < |run.steps|
    requires Trying(exec, idx, s, text, run.steps[idx], attempt)
    modifies run`status, run`taken, run`trail, run`ctx, run`signalling, run`announcing, run`lastSeq, run`events,
      run`steps
    ensures run.Observable(idx) && !Terminal(run.status)
    ensures old(run.ctx) != Live ==> run.ctx == old(run.ctx)
    ensures old(run.ctx) != Live ==> aborted && run.steps == old(run.steps) && Own(run.events) == Own(old(run.events))
    ensures |run.steps| == |old(run.steps)| && run.steps[idx].stepID == old(run.steps)[idx].stepID
    ensures forall j | 0 <= j < |run.steps| && j != idx :: run.steps[j] == old(run.steps)[j]
    ensures
      || Own(run.events) == Own(old(run.events)) + Retry(s, attempt)
      || (aborted && Own(run.events) == Own(old(run.events)))
    ensures if aborted then run.ctx != Live && Attempted(exec, idx, s, text, run.steps[idx], Cancelled)
            else Trying(exec, idx, s, text, run.steps[idx], attempt)
  {
    hide Run.Observable, Own, Trying, Attempted;
    run.Interfere(idx);
    if run.ctx != Live {
      GivingUp(exec, idx, s, text, run.steps[idx], attempt);
      return true;
    }
    if attempt > 0 {
      StillTrying(exec, idx, s, text, run.steps[idx], attempt);
      run.MarkActive(idx, StepRetrying);
      run.Say(StepRetryingEvent(s.stepID, attempt + 1), idx);
      var backoffElapsed: bool := *;
      if run.ctx != Live && !backoffElapsed {
        GivingUp(exec, idx, s, text, run.steps[idx], attempt);
        return true;
      }
    }
    return false;
  }
}
