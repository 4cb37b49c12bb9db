/** The inference orchestrator (platform/orchestrator/orchestrator.go): which candidates a request may use,
    in which order it tries them, and when it stops.  Each upstream call is one given outcome. */
module Orchestrators {
  import opened Wrappers
  import opened Pools

  datatype Candidate = Candidate(deploymentID: string, routeType: string, physicalModel: string, contextLength: int)

  datatype Error = InvalidRequest | ModelNotAvailable | InferenceTimeout | InternalContract | Other(code: string)

  /** What one attempt brings; `started` says that an event stream had already begun. */
  datatype Outcome =
    | Answered(status: int, ms: nat)
    | Failed(error: Error, started: bool, ms: nat)

  datatype Request = Request(contractVersion: string, poolID: string, endpoint: string)

  const CHAT := "/v1/chat/completions"

  // ---------------------------------------------------------------- candidates

  function Filter(cands: seq<Candidate>, keep: Candidate -> bool): seq<Candidate> {
    if cands == [] then [] else
    var last := cands[|cands| - 1];
    Filter(cands[..|cands| - 1], keep) + if keep(last) then [last] else []
  }

  function DeploymentIDs(cands: seq<Candidate>): seq<string> {
    seq(|cands|, i requires 0 <= i < |cands| => cands[i].deploymentID)
  }

  function Member(pools: map<string, set<string>>, poolID: string): Candidate -> bool {
    (c: Candidate) => poolID in pools && c.deploymentID in pools[poolID]
  }

  function Supports(endpoint: string): Candidate -> bool {
    (c: Candidate) => endpoint == CHAT || c.routeType == "connector"
  }

  /** The candidates that pool and endpoint leave, or why there are none. */
  function Eligible(cands: seq<Candidate>, pools: map<string, set<string>>,
                    req: Request): Result<seq<Candidate>, Error>
  {
    if req.poolID != "" && req.poolID !in pools then Failure(InvalidRequest) else
    var members := if req.poolID == "" then cands else Filter(cands, Member(pools, req.poolID));
    if req.poolID != "" && members == [] then Failure(ModelNotAvailable) else
    var usable := if req.endpoint == CHAT then members else Filter(members, Supports(req.endpoint));
    if req.endpoint != CHAT && usable == [] then Failure(ModelNotAvailable) else Success(usable)
  }

  /** The entry of `byID`: the last candidate with this deployment id. */
  function LastWith(cands: seq<Candidate>, id: string): Option<Candidate> {
    if cands == [] then None
    else if cands[|cands| - 1].deploymentID == id then Some(cands[|cands| - 1])
    else LastWith(cands[..|cands| - 1], id)
  }

  method FilterInPlace(a: array<Candidate>, length: nat, keep: Candidate -> bool) returns (kept: nat)
    requires length <= a.Length
    modifies a
    ensures kept <= length && a[..kept] == Filter(old(a[..length]), keep)
  {
    kept := 0;
    for i := 0 to length
      invariant kept <= i
      invariant a[..kept] == Filter(old(a[..i]), keep)
      invariant a[i..] == old(a[i..])
    {
      var c := a[i];
      assert old(a[..i + 1])[..i] == old(a[..i]) && c == old(a[i..])[0];
      if keep(c) {
        a[kept] := c;
        kept := kept + 1;
      }
    }
  }

  /** The pool and endpoint filters of prepare. */
  method Select(cands: seq<Candidate>, pools: map<string, set<string>>, req: Request)
    returns (r: Result<seq<Candidate>, Error>)
    ensures r == Eligible(cands, pools, req)
  {
    var slots := new Candidate[|cands|](i requires 0 <= i < |cands| => cands[i]);
    var length := |cands|;
    assert slots[..length] == cands;
    if req.poolID != "" {
      if req.poolID !in pools {
        return Failure(InvalidRequest);
      }
      length := FilterInPlace(slots, length, Member(pools, req.poolID));
      if length == 0 {
        return Failure(ModelNotAvailable);
      }
    }
    if req.endpoint != CHAT {
      length := FilterInPlace(slots, length, Supports(req.endpoint));
      if length == 0 {
        return Failure(ModelNotAvailable);
      }
    }
    return Success(slots[..length]);
  }

  /** What the request may use, all checks passed: the candidates and the conversation key. */
  function Checked(version: string, resolved: Result<seq<Candidate>, Error>, pools: map<string, set<string>>,
                   req: Request,
                   lookup: Result<string, Error>): Result<(seq<Candidate>, string), Error>
  {
    if req.contractVersion != version then Failure(InternalContract)
    else if resolved.Failure? then Failure(resolved.error) else
    var eligible := Eligible(resolved.value, pools, req);
    if eligible.Failure? then Failure(eligible.error)
    else if lookup.Failure? then Failure(lookup.error)
    else Success((eligible.value, lookup.value))
  }

  /** `resolved` is what the model manager answers, and `lookup` the conversation key (empty without a
      conversation) or the error of the conversation store. */
  method Prepare(pool: Pool, version: string, resolved: Result<seq<Candidate>, Error>, pools: map<string, set<string>>,
                 req: Request, lookup: Result<string, Error>, now: int)
    returns (r: Result<seq<Candidate>, Error>)
    requires pool.Valid()
    modifies pool`sticky
    ensures var checked := Checked(version, resolved, pools, req, lookup);
      if checked.Failure? then r == Failure(checked.error) && pool.sticky == old(pool.sticky)
      else r.Success? && pool.sticky == StickyLeft(old(pool.sticky), pool.stickyTTL, checked.value.1, now)
           && IsArrangement(r.value, checked.value.0,
             Ordered(pool.nodes, StickyFor(old(pool.sticky), pool.stickyTTL, checked.value.1, now),
                     DeploymentIDs(checked.value.0)))
  {
    hide Ordered, Eligible, Filter, LastWith;
    if req.contractVersion != version {
      return Failure(InternalContract);
    }
    if resolved.Failure? {
      return Failure(resolved.error);
    }
    var selected := Select(resolved.value, pools, req);
    if selected.Failure? {
      return Failure(selected.error);
    }
    var eligible := selected.value;
    if lookup.Failure? {
      return Failure(lookup.error);
    }
    var convKey := lookup.value;
    var order := pool.Order(DeploymentIDs(eligible), convKey, now);
    var ordered := Arrange(eligible, order) by {
      OrderedIDsAreKnown(pool.nodes, StickyFor(old(pool.sticky), pool.stickyTTL, convKey, now), eligible);
    }
    return Success(ordered);
  }

  ghost predicate IsArrangement(ordered: seq<Candidate>, cands: seq<Candidate>, order: seq<string>) {
    && |ordered| == |order|
    && forall i :: 0 <= i < |order| ==> LastWith(cands, order[i]) == Some(ordered[i])
  }

  /** The lookup loops of prepare: the map keeps the last candidate of each id. */
  method Arrange(cands: seq<Candidate>, order: seq<string>) returns (ordered: seq<Candidate>)
    requires forall id <- order :: LastWith(cands, id).Some?
    ensures IsArrangement(ordered, cands, order)
  {
    var byID: map<string, Candidate> := map[];
    for i := 0 to |cands|
      invariant forall id :: LastWith(cands[..i], id) == if id in byID then Some(byID[id]) else None
    {
      assert cands[..i + 1][..i] == cands[..i];
      byID := byID[cands[i].deploymentID := cands[i]];
    }
    assert cands[..|cands|] == cands;
    ordered := [];
    for i := 0 to |order|
      invariant |ordered| == i
      invariant forall k :: 0 <= k < i ==> LastWith(cands, order[k]) == Some(ordered[k])
    {
      assert order[i] in order;
      ordered := ordered + [byID[order[i]]];
    }
  }

  lemma {:induction false} LastWithFinds(cands: seq<Candidate>, k: nat)
    requires k < |cands|
    ensures LastWith(cands, cands[k].deploymentID).Some?
    ensures var found := LastWith(cands, cands[k].deploymentID).value;
      found in cands && found.deploymentID == cands[k].deploymentID
  {
    var n := |cands| - 1;
    if cands[n].deploymentID != cands[k].deploymentID {
      LastWithFinds(cands[..n], k);
    }
  }

  lemma OrderedIDsAreKnown(nodes: map<string, Node>, stickyNode: string, cands: seq<Candidate>)
    ensures multiset(Ordered(nodes, stickyNode, DeploymentIDs(cands))) == multiset(DeploymentIDs(cands))
    ensures forall id <- Ordered(nodes, stickyNode, DeploymentIDs(cands)) :: LastWith(cands, id).Some?
  {
    hide Ordered;
    var ids := DeploymentIDs(cands);
    var order := Ordered(nodes, stickyNode, ids);
    OrderRanksCandidates(nodes, stickyNode, ids);
    forall id | id in order ensures LastWith(cands, id).Some? {
      assert id in multiset(order);
      assert id in ids;
      var k :| 0 <= k < |ids| && ids[k] == id;
      LastWithFinds(cands, k);
    }
  }

  /** The filter by positions: those whose candidate is accepted, in order. */
  lemma {:induction false} FilterPicks(cands: seq<Candidate>, keep: Candidate -> bool) returns (at: seq<nat>)
    ensures Rising(at, |cands|) && |Filter(cands, keep)| == |at|
    ensures forall k | 0 <= k < |at| :: Filter(cands, keep)[k] == cands[at[k]]
    ensures forall i | 0 <= i < |cands| :: keep(cands[i]) <==> i in at
  {
    at := [];
    if cands != [] {
      var n := |cands| - 1;
      var front := FilterPicks(cands[..n], keep);
      at := front + if keep(cands[n]) then [n] else [];
      forall i | 0 <= i < |cands| ensures keep(cands[i]) <==> i in at {
        assert i < n ==> cands[..n][i] == cands[i];
      }
    }
  }

  /** A candidate that a request may use: of its pool, if it names one, and a connector unless it is a chat. */
  predicate MayServe(c: Candidate, pools: map<string, set<string>>, req: Request) {
    && (req.poolID != "" ==> req.poolID in pools && c.deploymentID in pools[req.poolID])
    && (req.endpoint != "/v1/chat/completions" ==> c.routeType == "connector")
  }

  /** Pool and endpoint leave exactly the candidates that may serve the request; an unknown pool is a bad request,
      and nobody left is an unavailable model, unless nothing was asked for. */
  lemma EligibleAreThoseThatMayServe(cands: seq<Candidate>, pools: map<string, set<string>>, req: Request)
    ensures var r := Eligible(cands, pools, req);
      && (r == Failure(InvalidRequest) <==> req.poolID != "" && req.poolID !in pools)
      && (r.Failure? ==> r.error in {InvalidRequest, ModelNotAvailable})
      && (r.Success? ==> forall c :: c in r.value <==> c in cands && MayServe(c, pools, req))
      && (r == Failure(ModelNotAvailable) <==>
           && (req.poolID != "" ==> req.poolID in pools)
           && (req.poolID != "" || req.endpoint != "/v1/chat/completions")
           && forall c <- cands :: !MayServe(c, pools, req))
  {
    var members := if req.poolID == "" then cands else Filter(cands, Member(pools, req.poolID));
    FilterKeeps(cands, Member(pools, req.poolID));
    FilterKeeps(members, Supports(req.endpoint));
    var usable := if req.endpoint == CHAT then members else Filter(members, Supports(req.endpoint));
    if req.poolID == "" || req.poolID in pools {
      assert forall c :: c in usable <==> c in cands && MayServe(c, pools, req);
      NoneLeft(members);
      NoneLeft(usable);
      assert forall c :: c in usable ==> c in members;
    }
  }

  lemma NoneLeft(cands: seq<Candidate>)
    ensures cands == [] <==> forall c :: c !in cands
  {
    assert cands != [] ==> cands[0] in cands;
  }

  lemma {:induction false} FilterKeeps(cands: seq<Candidate>, keep: Candidate -> bool)
    ensures forall c :: c in Filter(cands, keep) <==> c in cands && keep(c)
  {
    if cands != [] {
      var n := |cands| - 1;
      FilterKeeps(cands[..n], keep);
      assert cands == cands[..n] + [cands[n]];
    }
  }

  /** The lookup map holds the last candidate of an id. */
  lemma {:induction false} LastWithIsTheLast(cands: seq<Candidate>, id: string, k: nat)
    requires k < |cands| && cands[k].deploymentID == id
    requires forall i | k < i < |cands| :: cands[i].deploymentID != id
    ensures LastWith(cands, id) == Some(cands[k])
  {
    var n := |cands| - 1;
    if k < n {
      LastWithIsTheLast(cands[..n], id, k);
    }
  }

  /** Which check refuses first, and what is left when none does: contract version, model, unknown pool, nobody who
      may serve the request, conversation. */
  lemma RefusalsInOrder(version: string, resolved: Result<seq<Candidate>, Error>, pools: map<string, set<string>>,
                        req: Request, lookup: Result<string, Error>)
    ensures var r := Checked(version, resolved, pools, req, lookup);
      if req.contractVersion != version then r == Failure(InternalContract)
      else if resolved.Failure? then r == Failure(resolved.error)
      else if req.poolID != "" && req.poolID !in pools then r == Failure(InvalidRequest)
      else if (req.poolID != "" || req.endpoint != "/v1/chat/completions")
              && forall c <- resolved.value :: !MayServe(c, pools, req) then r == Failure(ModelNotAvailable)
      else if lookup.Failure? then r == Failure(lookup.error)
      else r.Success? && r.value.1 == lookup.value
           && forall c :: c in r.value.0 <==> c in resolved.value && MayServe(c, pools, req)
  {
    hide Eligible, MayServe;
    if resolved.Success? {
      EligibleAreThoseThatMayServe(resolved.value, pools, req);
    }
  }

  // ---------------------------------------------------------------- prepare loses no candidate

  predicate OnePerID(cands: seq<Candidate>) {
    forall i, j :: 0 <= i < |cands| && 0 <= j < |cands| && cands[i].deploymentID == cands[j].deploymentID ==>
      cands[i] == cands[j]
  }

  function Without<T>(s: seq<T>, k: nat): seq<T>
    requires k < |s|
  {
    s[..k] + s[k + 1..]
  }

  lemma DeploymentIDsSnoc(part: seq<Candidate>)
    ensures |DeploymentIDs(part)| == |part|
    ensures part != [] ==> var n := |part| - 1;
      multiset(DeploymentIDs(part)) == multiset(DeploymentIDs(part[..n])) + multiset{part[n].deploymentID}
  {
    if part != [] {
      var n := |part| - 1;
      assert DeploymentIDs(part) == DeploymentIDs(part[..n]) + [part[n].deploymentID];
    }
  }

  lemma ArrangementAt(cands: seq<Candidate>, ordered: seq<Candidate>, order: seq<string>, k: nat)
    requires IsArrangement(ordered, cands, order)
    ensures |ordered| == |order|
    ensures k < |order| ==> LastWith(cands, order[k]) == Some(ordered[k])
    ensures k < |order| ==> IsArrangement(Without(ordered, k), cands, Without(order, k))
  {
    hide LastWith;
  }

  lemma {:induction false} ArrangementPermutes(cands: seq<Candidate>, part: seq<Candidate>, ordered: seq<Candidate>,
                                               order: seq<string>)
    requires OnePerID(cands) && IsArrangement(ordered, cands, order)
    requires (forall c <- part :: c in cands) && multiset(order) == multiset(DeploymentIDs(part))
    ensures multiset(ordered) == multiset(part)
    decreases |part|
  {
    hide OnePerID, LastWith, IsArrangement, Without, DeploymentIDs;
    ArrangementAt(cands, ordered, order, 0);
    assert |order| == |multiset(order)| == |multiset(DeploymentIDs(part))| == |DeploymentIDs(part)| == |part| by {
      DeploymentIDsSnoc(part);
    }
    if part != [] {
      var n := |part| - 1;
      var id := part[n].deploymentID;
      DeploymentIDsSnoc(part);
      assert id in multiset(order);
      var k :| 0 <= k < |order| && order[k] == id;
      KnownByID(cands, part[n]);
      ArrangementAt(cands, ordered, order, k);
      RemoveAt(order, k);
      RemoveAt(ordered, k);
      Cancel(multiset(Without(order, k)), multiset(DeploymentIDs(part[..n])), id);
      ArrangementPermutes(cands, part[..n], Without(ordered, k), Without(order, k));
      assert part == part[..n] + [part[n]];
    }
  }

  lemma Cancel<T>(a: multiset<T>, b: multiset<T>, x: T)
    requires a + multiset{x} == b + multiset{x}
    ensures a == b
  {
    assert a == a + multiset{x} - multiset{x};
    assert b == b + multiset{x} - multiset{x};
  }

  lemma RemoveAt<T>(s: seq<T>, k: nat)
    requires k < |s|
    ensures multiset(s) == multiset(Without(s, k)) + multiset{s[k]}
  {
    assert s == s[..k] + [s[k]] + s[k + 1..];
  }

  lemma KnownByID(cands: seq<Candidate>, c: Candidate)
    requires OnePerID(cands) && c in cands
    ensures LastWith(cands, c.deploymentID) == Some(c)
  {
    var k :| 0 <= k < |cands| && cands[k] == c;
    LastWithFinds(cands, k);
  }

  /** The arrangement is a permutation of the candidates if and only if no two different ones share an id:
      otherwise the last of them is tried twice and the others never. */
  lemma PrepareLosesNoCandidateIff(cands: seq<Candidate>, ordered: seq<Candidate>, order: seq<string>)
    requires multiset(order) == multiset(DeploymentIDs(cands)) && IsArrangement(ordered, cands, order)
    ensures multiset(ordered) == multiset(cands) <==> OnePerID(cands)
  {
    if OnePerID(cands) {
      ArrangementPermutes(cands, cands, ordered, order);
    }
    if multiset(ordered) == multiset(cands) {
      forall i, j | 0 <= i < |cands| && 0 <= j < |cands| && cands[i].deploymentID == cands[j].deploymentID
        ensures cands[i] == cands[j]
      {
        InArrangement(cands, ordered, order, i);
        InArrangement(cands, ordered, order, j);
      }
    }
  }

  lemma InArrangement(cands: seq<Candidate>, ordered: seq<Candidate>, order: seq<string>, i: nat)
    requires i < |cands| && IsArrangement(ordered, cands, order) && multiset(ordered) == multiset(cands)
    ensures LastWith(cands, cands[i].deploymentID) == Some(cands[i])
  {
    assert cands[i] in multiset(ordered);
    var k :| 0 <= k < |ordered| && ordered[k] == cands[i];
    LastWithIsLabelled(cands, order[k]);
  }

  lemma {:induction false} LastWithIsLabelled(cands: seq<Candidate>, id: string)
    ensures LastWith(cands, id).Some? ==> LastWith(cands, id).value.deploymentID == id
  {
    if cands != [] {
      LastWithIsLabelled(cands[..|cands| - 1], id);
    }
  }

  // ---------------------------------------------------------------- failover

  predicate Decisive(o: Outcome, streaming: bool) {
    o.Answered? || o.error == InferenceTimeout || (streaming && o.started)
  }

  predicate Healthy(o: Outcome, streaming: bool) {
    o.Answered? && (streaming || o.status < 500)
  }

  predicate Rising(tried: seq<nat>, n: nat) {
    (forall a :: 0 <= a < |tried| ==> tried[a] < n) && forall a, b :: 0 <= a < b < |tried| ==> tried[a] < tried[b]
  }

  /** The attempts on candidates `0 .. |views|-1`, oldest first, where `views[i]` says whether candidate `i`
      accepted requests when its turn came: exactly the accepting ones and the last of all were tried. */
  ghost predicate Tries(ordered: seq<string>, outcomes: seq<Outcome>, streaming: bool, views: seq<bool>,
                        tried: seq<nat>)
    requires |views| <= |ordered| == |outcomes|
  {
    && Rising(tried, |views|)
    && (forall i :: 0 <= i < |views| ==> (i in tried <==> views[i] || i == |ordered| - 1))
    && (forall a :: 0 <= a < |tried| - 1 ==> !Decisive(outcomes[tried[a]], streaming))
  }

  /** How a whole request ends. */
  ghost predicate Ends(ordered: seq<string>, outcomes: seq<Outcome>, streaming: bool, views: seq<bool>, tried: seq<nat>,
                       r: Result<int, Error>)
    requires |outcomes| == |ordered|
  {
    && |views| <= |ordered| && Tries(ordered, outcomes, streaming, views, tried)
    && if ordered == [] then r == Failure(ModelNotAvailable) else
       && tried != []
       && var last := tried[|tried| - 1];
       && |views| == last + 1
       && (Decisive(outcomes[last], streaming) || last == |ordered| - 1)
       && r == ResultOf(outcomes[last])
  }

  function ResultOf(o: Outcome): Result<int, Error> {
    if o.Answered? then Success(o.status) else Failure(o.error)
  }

  /** What the attempts do to the pool: one look at each candidate, and for each one tried an acquire and a
      release with the outcome. */
  function AttemptOps(ordered: seq<string>, outcomes: seq<Outcome>, streaming: bool, views: seq<bool>): seq<Own>
    requires |views| <= |ordered| == |outcomes|
  {
    if views == [] then [] else
    var i := |views| - 1;
    AttemptOps(ordered, outcomes, streaming, views[..i]) + [DidLook(ordered[i], views[i])]
    + if views[i] || i == |ordered| - 1
      then [DidAcquire(ordered[i]), DidRelease(ordered[i], outcomes[i].ms, Healthy(outcomes[i], streaming))]
      else []
  }

  /** All that a request does to the pool; only a success is remembered for its conversation. */
  function RequestOps(ordered: seq<string>, outcomes: seq<Outcome>, streaming: bool, views: seq<bool>,
                      r: Result<int, Error>, convKey: string, now: int): seq<Own>
    requires |views| <= |ordered| == |outcomes|
  {
    AttemptOps(ordered, outcomes, streaming, views)
    + if r.Success? && views != [] then [DidStick(convKey, ordered[|views| - 1], now)] else []
  }

  /** The failover loop before candidate `|views|`: every attempt so far failed and may be followed. */
  ghost predicate Unfinished(ordered: seq<string>, outcomes: seq<Outcome>, streaming: bool, views: seq<bool>,
                             tried: seq<nat>,
                             r: Result<int, Error>, ops: seq<Own>)
    requires |views| <= |ordered| == |outcomes|
  {
    && Tries(ordered, outcomes, streaming, views, tried)
    && ops == AttemptOps(ordered, outcomes, streaming, views)
    && (if tried == [] then r == Failure(ModelNotAvailable) else
        var o := outcomes[tried[|tried| - 1]]; !Decisive(o, streaming) && r == Failure(o.error))
  }

  lemma UnfinishedAtFirst(ordered: seq<string>, outcomes: seq<Outcome>, streaming: bool)
    requires |outcomes| == |ordered|
    ensures Unfinished(ordered, outcomes, streaming, [], [], Failure(ModelNotAvailable), [])
  {
  }

  lemma TriedStep(ordered: seq<string>, outcomes: seq<Outcome>, streaming: bool, views: seq<bool>, tried: seq<nat>,
                  open: bool)
    requires |views| < |ordered| == |outcomes| && Tries(ordered, outcomes, streaming, views, tried)
    requires tried != [] ==> !Decisive(outcomes[tried[|tried| - 1]], streaming)
    ensures var i := |views|;
      if open || i == |ordered| - 1 then Tries(ordered, outcomes, streaming, views + [open], tried + [i])
      else Tries(ordered, outcomes, streaming, views + [open], tried)
  {
    hide Decisive;
    var i := |views|;
    assert i !in tried;
    if open || i == |ordered| - 1 {
      forall j | 0 <= j <= i ensures j in tried + [i] <==> (views + [open])[j] || j == |ordered| - 1 {
        assert j < i ==> (views + [open])[j] == views[j];
      }
    }
  }

  lemma OpsStep(ordered: seq<string>, outcomes: seq<Outcome>, streaming: bool, views: seq<bool>, open: bool)
    requires |views| < |ordered| == |outcomes|
    ensures var i := |views|;
      AttemptOps(ordered, outcomes, streaming, views + [open])
      == AttemptOps(ordered, outcomes, streaming, views) + [DidLook(ordered[i], open)]
         + if open || i == |ordered| - 1
           then [DidAcquire(ordered[i]), DidRelease(ordered[i], outcomes[i].ms, Healthy(outcomes[i], streaming))]
           else []
  {
    assert (views + [open])[..|views|] == views;
  }

  lemma Skipped(ordered: seq<string>, outcomes: seq<Outcome>, streaming: bool, views: seq<bool>, tried: seq<nat>,
                r: Result<int, Error>, ops: seq<Own>)
    requires |views| < |ordered| - 1 && |ordered| == |outcomes|
    requires Unfinished(ordered, outcomes, streaming, views, tried, r, ops)
    ensures var looked := ops + [DidLook(ordered[|views|], false)];
      Unfinished(ordered, outcomes, streaming, views + [false], tried, r, looked)
  {
    hide Decisive, AttemptOps;
    TriedStep(ordered, outcomes, streaming, views, tried, false);
    OpsStep(ordered, outcomes, streaming, views, false);
  }

  /** One attempt: the request is over if its outcome is decisive or no candidate is left. */
  lemma Attempted(ordered: seq<string>, outcomes: seq<Outcome>, streaming: bool, views: seq<bool>, tried: seq<nat>,
                  r: Result<int, Error>, ops: seq<Own>, open: bool)
    requires |views| < |ordered| == |outcomes| && (open || |views| == |ordered| - 1)
    requires Unfinished(ordered, outcomes, streaming, views, tried, r, ops)
    ensures var i := |views|; var o := outcomes[i];
      && ops + [DidLook(ordered[i], open)] + [DidAcquire(ordered[i])]
             + [DidRelease(ordered[i], o.ms, Healthy(o, streaming))]
         == AttemptOps(ordered, outcomes, streaming, views + [open])
      && (Decisive(o, streaming) || i == |ordered| - 1 ==>
           Ends(ordered, outcomes, streaming, views + [open], tried + [i], ResultOf(o)))
      && (!Decisive(o, streaming) ==>
           Unfinished(ordered, outcomes, streaming, views + [open], tried + [i], ResultOf(o),
                      AttemptOps(ordered, outcomes, streaming, views + [open])))
  {
    assert !Decisive(outcomes[|views|], streaming) ==> outcomes[|views|].Failed?;
    hide Decisive, Healthy, AttemptOps;
    var i := |views|;
    TriedStep(ordered, outcomes, streaming, views, tried, open);
    OpsStep(ordered, outcomes, streaming, views, open);
    assert (tried + [i])[|tried|] == i;
  }

  lemma NobodyLeft(ordered: seq<string>, outcomes: seq<Outcome>, streaming: bool, views: seq<bool>, tried: seq<nat>,
                   r: Result<int, Error>, ops: seq<Own>)
    requires |views| == |ordered| == |outcomes| && Unfinished(ordered, outcomes, streaming, views, tried, r, ops)
    ensures Ends(ordered, outcomes, streaming, views, tried, r) && r.Failure?
    ensures ops == AttemptOps(ordered, outcomes, streaming, views)
  {
    assert forall i :: 0 <= i < |outcomes| ==> !Decisive(outcomes[i], streaming) ==> outcomes[i].Failed?;
    hide Decisive, AttemptOps;
    if ordered != [] {
      var n := |ordered| - 1;
      assert n in tried;
      var a :| 0 <= a < |tried| && tried[a] == n;
      LastIsGreatest(tried, a);
    }
  }

  lemma LastIsGreatest(tried: seq<nat>, a: nat)
    requires a < |tried| && forall b, c :: 0 <= b < c < |tried| ==> tried[b] < tried[c]
    ensures tried[a] <= tried[|tried| - 1]
  {
  }

  /** Acquires the node, waits for the outcome, releases the node; others act on the pool meanwhile. */
  method TryOn(pool: Pool, id: string, ms: nat, ok: bool)
    requires pool.Valid()
    modifies pool
    ensures pool.Valid() && pool.mine == old(pool.mine) + [DidAcquire(id)] + [DidRelease(id, ms, ok)]
  {
    pool.Others();
    pool.Acquire(id);
    pool.Others();
    pool.Release(id, ms, ok);
    pool.Others();
  }

  /** Other requests act on the pool before every operation of this one. */
  method Execute(pool: Pool, ordered: seq<string>, convKey: string, outcomes: seq<Outcome>, now: int)
    returns (tried: seq<nat>, r: Result<int, Error>, ghost views: seq<bool>)
    requires pool.Valid() && |outcomes| == |ordered|
    modifies pool
    ensures pool.Valid() && |views| <= |ordered| && Ends(ordered, outcomes, false, views, tried, r)
    ensures pool.mine == old(pool.mine) + RequestOps(ordered, outcomes, false, views, r, convKey, now)
  {
    hide Pool.Valid, AttemptOps, Unfinished, Ends;
    tried, r, views := [], Failure(ModelNotAvailable), [];
    ghost var ops: seq<Own> := [];
    UnfinishedAtFirst(ordered, outcomes, false);
    for i := 0 to |ordered|
      invariant pool.Valid() && |views| == i && pool.mine == old(pool.mine) + ops
      invariant Unfinished(ordered, outcomes, false, views, tried, r, ops)
    {
      pool.Others();
      var open := pool.Assignable(ordered[i]);
      ghost var looked := ops + [DidLook(ordered[i], open)];
      assert pool.mine == old(pool.mine) + looked;
      if !open && i < |ordered| - 1 {
        Skipped(ordered, outcomes, false, views, tried, r, ops);
        views, ops := views + [open], looked;
        continue;
      }
      Attempted(ordered, outcomes, false, views, tried, r, ops, open);
      match outcomes[i]
      case Answered(status, ms) =>
        TryOn(pool, ordered[i], ms, status < 500);
        pool.RecordSticky(convKey, ordered[i], now);
        tried, r, views := tried + [i], Success(status), views + [open];
        return;
      case Failed(error, _, ms) =>
        TryOn(pool, ordered[i], ms, false);
        tried, r, views := tried + [i], Failure(error), views + [open];
        ops := looked + [DidAcquire(ordered[i])] + [DidRelease(ordered[i], ms, false)];
        if error == InferenceTimeout {
          return;
        }
    }
    NobodyLeft(ordered, outcomes, false, views, tried, r, ops);
  }

  method ExecuteStream(pool: Pool, ordered: seq<string>, convKey: string, outcomes: seq<Outcome>, now: int)
    returns (tried: seq<nat>, r: Result<int, Error>, ghost views: seq<bool>)
    requires pool.Valid() && |outcomes| == |ordered|
    modifies pool
    ensures pool.Valid() && |views| <= |ordered| && Ends(ordered, outcomes, true, views, tried, r)
    ensures pool.mine == old(pool.mine) + RequestOps(ordered, outcomes, true, views, r, convKey, now)
  {
    hide Pool.Valid, AttemptOps, Unfinished, Ends;
    tried, r, views := [], Failure(ModelNotAvailable), [];
    ghost var ops: seq<Own> := [];
    UnfinishedAtFirst(ordered, outcomes, true);
    for i := 0 to |ordered|
      invariant pool.Valid() && |views| == i && pool.mine == old(pool.mine) + ops
      invariant Unfinished(ordered, outcomes, true, views, tried, r, ops)
    {
      pool.Others();
      var open := pool.Assignable(ordered[i]);
      ghost var looked := ops + [DidLook(ordered[i], open)];
      assert pool.mine == old(pool.mine) + looked;
      if !open && i < |ordered| - 1 {
        Skipped(ordered, outcomes, true, views, tried, r, ops);
        views, ops := views + [open], looked;
        continue;
      }
      Attempted(ordered, outcomes, true, views, tried, r, ops, open);
      match outcomes[i]
      case Answered(status, ms) =>
        TryOn(pool, ordered[i], ms, true);
        pool.RecordSticky(convKey, ordered[i], now);
        tried, r, views := tried + [i], Success(status), views + [open];
        return;
      case Failed(error, started, ms) =>
        TryOn(pool, ordered[i], ms, false);
        tried, r, views := tried + [i], Failure(error), views + [open];
        ops := looked + [DidAcquire(ordered[i])] + [DidRelease(ordered[i], ms, false)];
        if started {
          return;
        }
        if error == InferenceTimeout {
          return;
        }
    }
    NobodyLeft(ordered, outcomes, true, views, tried, r, ops);
  }

  // ---------------------------------------------------------------- what a request ends with

  /** A request ends with the outcome of the first candidate that accepts requests at its turn and is
      decisive (answers, times out, or began to stream); if there is none, with that of the last one. */
  lemma FailoverEndsAtTheFirstDecisive(ordered: seq<string>, outcomes: seq<Outcome>, streaming: bool, views: seq<bool>,
                                       tried: seq<nat>, r: Result<int, Error>, i: nat)
    requires |outcomes| == |ordered| && Ends(ordered, outcomes, streaming, views, tried, r) && i < |views|
    requires i == |ordered| - 1 || (views[i] && Decisive(outcomes[i], streaming))
    requires forall j :: 0 <= j < i && views[j] ==> !Decisive(outcomes[j], streaming)
    ensures r == ResultOf(outcomes[i]) && tried != [] && tried[|tried| - 1] == i && |views| == i + 1
  {
    hide Decisive, ResultOf;
    assert i in tried;
    var last := tried[|tried| - 1];
    assert last in tried;
    var a :| 0 <= a < |tried| && tried[a] == i;
    LastIsGreatest(tried, a);
    EarlierNotDecisive(ordered, outcomes, streaming, views, tried, a);
  }

  lemma EarlierNotDecisive(ordered: seq<string>, outcomes: seq<Outcome>, streaming: bool, views: seq<bool>,
                           tried: seq<nat>, a: nat)
    requires |views| <= |ordered| == |outcomes| && Tries(ordered, outcomes, streaming, views, tried) && a < |tried|
    ensures tried[a] < tried[|tried| - 1] ==> !Decisive(outcomes[tried[a]], streaming)
  {
    hide Decisive;
  }

  /** A request is never sent again after an answer, a timeout or the first event of a stream, and it ends before
      the last candidate only for one of these; the result is that of the last attempt. */
  lemma NothingFollowsAnAnswerOrTimeout(ordered: seq<string>, outcomes: seq<Outcome>, streaming: bool,
                                        views: seq<bool>, tried: seq<nat>, r: Result<int, Error>)
    requires |outcomes| == |ordered| && Ends(ordered, outcomes, streaming, views, tried, r)
    ensures forall a | 0 <= a < |tried| - 1 ::
      && outcomes[tried[a]].Failed? && outcomes[tried[a]].error != InferenceTimeout
      && !(streaming && outcomes[tried[a]].started)
    ensures ordered != [] ==>
      && tried != []
      && var last := outcomes[tried[|tried| - 1]];
      && (tried[|tried| - 1] == |ordered| - 1 || last.Answered? || last.error == InferenceTimeout
          || (streaming && last.started))
      && r == (if last.Answered? then Success(last.status) else Failure(last.error))
    ensures ordered == [] ==> tried == [] && r == Failure(ModelNotAvailable)
  {
    assert tried != [] ==> tried[0] < |views|;
  }

  /** What the pool learns from the request's look at a candidate and its attempt: the node is reported well by an
      answer, unless it was a server error outside a stream. */
  lemma EachAttemptIsReported(ordered: seq<string>, outcomes: seq<Outcome>, streaming: bool, views: seq<bool>,
                              open: bool)
    requires |views| < |ordered| == |outcomes|
    ensures var before := AttemptOps(ordered, outcomes, streaming, views);
      var after := AttemptOps(ordered, outcomes, streaming, views + [open]);
      var id, o := ordered[|views|], outcomes[|views|];
      if !open && |views| < |ordered| - 1 then after == before + [DidLook(id, false)]
      else after == before + [DidLook(id, open), DidAcquire(id),
                              DidRelease(id, o.ms, o.Answered? && (streaming || o.status < 500))]
  {
    OpsStep(ordered, outcomes, streaming, views, open);
  }

  /** A conversation is bound to the node that answered, at the end, and to none by a failure. */
  lemma OnlyTheAnsweringNodeIsRemembered(ordered: seq<string>, outcomes: seq<Outcome>, streaming: bool,
                                         views: seq<bool>, tried: seq<nat>, r: Result<int, Error>, convKey: string,
                                         now: int)
    requires |outcomes| == |ordered| && |views| <= |ordered| && Ends(ordered, outcomes, streaming, views, tried, r)
    ensures var ops := AttemptOps(ordered, outcomes, streaming, views);
      RequestOps(ordered, outcomes, streaming, views, r, convKey, now)
      == if tried != [] && outcomes[tried[|tried| - 1]].Answered?
         then ops + [DidStick(convKey, ordered[tried[|tried| - 1]], now)] else ops
  {
    hide AttemptOps;
  }

  /** The outcome of a request is a function of what the candidates answered and how they looked. */
  lemma FailoverIsDetermined(ordered: seq<string>, outcomes: seq<Outcome>, streaming: bool, v: seq<bool>, w: seq<bool>,
                             t: seq<nat>, u: seq<nat>, r: Result<int, Error>, q: Result<int, Error>)
    requires |outcomes| == |ordered|
    requires Ends(ordered, outcomes, streaming, v, t, r) && Ends(ordered, outcomes, streaming, w, u, q)
    requires v <= w || w <= v
    ensures r == q && v == w
  {
    hide Decisive, ResultOf;
    if ordered != [] {
      if |v| < |w| {
        ShorterIsOver(ordered, outcomes, streaming, v, w, t, u, r, q);
      } else if |w| < |v| {
        ShorterIsOver(ordered, outcomes, streaming, w, v, u, t, q, r);
      }
    }
  }

  lemma ShorterIsOver(ordered: seq<string>, outcomes: seq<Outcome>, streaming: bool, v: seq<bool>, w: seq<bool>,
                      t: seq<nat>, u: seq<nat>, r: Result<int, Error>, q: Result<int, Error>)
    requires |outcomes| == |ordered| > 0
    requires Ends(ordered, outcomes, streaming, v, t, r) && Ends(ordered, outcomes, streaming, w, u, q) && v <= w
    ensures |v| == |w|
  {
    hide Decisive, ResultOf;
    var last := t[|t| - 1];
    assert last in t;
    assert last in u;
    var a :| 0 <= a < |u| && u[a] == last;
    LastIsGreatest(u, a);
    EarlierNotDecisive(ordered, outcomes, streaming, w, u, a);
  }

  function AfterOp(nodes: map<string, Node>, op: Own): map<string, Node> {
    match op
    case DidAcquire(id) => if id in nodes then nodes[id := Acquired(nodes[id])] else nodes
    case DidRelease(id, ms, ok) => if id in nodes then nodes[id := Released(nodes[id], ms, ok)] else nodes
    case DidLook(_, _) => nodes
    case DidStick(_, _, _) => nodes
  }

  /** The nodes after some operations of this request, if nobody else acted. */
  function Replayed(nodes: map<string, Node>, ops: seq<Own>): map<string, Node> {
    if ops == [] then nodes else AfterOp(Replayed(nodes, ops[..|ops| - 1]), ops[|ops| - 1])
  }

  /** The attempts leave the count of every node as it was. */
  lemma {:induction false} AttemptsAreBalanced(nodes: map<string, Node>, ordered: seq<string>, outcomes: seq<Outcome>,
                                               streaming: bool, views: seq<bool>)
    requires |views| <= |ordered| == |outcomes| && forall id <- nodes :: Sound(nodes[id])
    ensures var after := Replayed(nodes, AttemptOps(ordered, outcomes, streaming, views));
      && after.Keys == nodes.Keys
      && forall id <- nodes :: after[id].inflight == nodes[id].inflight
  {
    if views != [] {
      var i := |views| - 1;
      AttemptsAreBalanced(nodes, ordered, outcomes, streaming, views[..i]);
      var ops := AttemptOps(ordered, outcomes, streaming, views[..i]);
      var look := DidLook(ordered[i], views[i]);
      ReplayedOne(nodes, ops, look);
      if views[i] || i == |ordered| - 1 {
        var take := DidAcquire(ordered[i]);
        var give := DidRelease(ordered[i], outcomes[i].ms, Healthy(outcomes[i], streaming));
        assert AttemptOps(ordered, outcomes, streaming, views) == ops + [look] + [take] + [give];
        ReplayedOne(nodes, ops + [look], take);
        ReplayedOne(nodes, ops + [look] + [take], give);
      } else {
        assert AttemptOps(ordered, outcomes, streaming, views) == ops + [look];
      }
    }
  }

  lemma ReplayedOne(nodes: map<string, Node>, ops: seq<Own>, op: Own)
    ensures Replayed(nodes, ops + [op]) == AfterOp(Replayed(nodes, ops), op)
  {
    assert (ops + [op])[..|ops|] == ops;
  }
}
