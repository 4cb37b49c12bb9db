/** The node pool (platform/pool/pool.go): in-flight counts, latency averages, health, sticky routing and
    the order in which a request tries its candidates. */
module Pools {

  /** One deployment.  The moving average is a `real`. */
  datatype Node = Node(routeType: string, healthy: bool, draining: bool, inflight: int, ema: real)

  datatype StickyEntry = StickyEntry(nodeID: string, expires: int)

  datatype Scored = Scored(id: string, order: real, dead: bool, position: nat)

  const STICKY_LIMIT := 4096

  function Fresh(routeType: string): Node {
    Node(routeType, true, false, 0, 0.0)
  }

  function Acquired(n: Node): Node {
    n.(inflight := n.inflight + 1)
  }

  function NextEma(ema: real, ms: real): real {
    if ema == 0.0 then ms else 0.8 * ema + 0.2 * ms
  }

  function Released(n: Node, ms: nat, ok: bool): Node {
    n.(inflight := if n.inflight > 0 then n.inflight - 1 else n.inflight,
       ema := NextEma(n.ema, ms as real),
       healthy := n.healthy && ok)
  }

  predicate Sound(n: Node) {
    n.inflight >= 0 && n.ema >= 0.0
  }

  // ---------------------------------------------------------------- ordering, on values

  predicate Dead(nodes: map<string, Node>, id: string) {
    id in nodes && (!nodes[id].healthy || nodes[id].draining)
  }

  function Score(nodes: map<string, Node>, stickyNode: string, id: string): real {
    if id !in nodes then 0.0
    else if id == stickyNode && !Dead(nodes, id) then -1.0
    else nodes[id].inflight as real * 1000.0 + nodes[id].ema
  }

  function Scores(nodes: map<string, Node>, stickyNode: string, candidates: seq<string>): seq<Scored> {
    seq(|candidates|, i requires 0 <= i < |candidates| =>
      Scored(candidates[i], Score(nodes, stickyNode, candidates[i]), Dead(nodes, candidates[i]), i))
  }

  predicate Less(a: Scored, b: Scored) {
    if a.dead != b.dead then !a.dead else a.order < b.order
  }

  function InsertStable(sorted: seq<Scored>, x: Scored): seq<Scored> {
    if sorted == [] then [x] else
    var n := |sorted| - 1;
    if Less(x, sorted[n]) then InsertStable(sorted[..n], x) + [sorted[n]] else sorted + [x]
  }

  /** Go's sort.SliceStable under `Less`; `StableSortIsUnique` shows that the algorithm does not matter. */
  function StableSort(items: seq<Scored>): seq<Scored> {
    if items == [] then [] else InsertStable(StableSort(items[..|items| - 1]), items[|items| - 1])
  }

  function IDs(items: seq<Scored>): seq<string> {
    seq(|items|, i requires 0 <= i < |items| => items[i].id)
  }

  function Ordered(nodes: map<string, Node>, stickyNode: string, candidates: seq<string>): seq<string> {
    IDs(StableSort(Scores(nodes, stickyNode, candidates)))
  }

  /** The node an unexpired sticky entry names, or the empty string. */
  function StickyFor(sticky: map<string, StickyEntry>, ttl: int, convKey: string, now: int): string {
    if convKey != "" && ttl > 0 && convKey in sticky && now < sticky[convKey].expires
    then sticky[convKey].nodeID else ""
  }

  /** The entries left after a look at `convKey`: its own goes if it has expired. */
  function StickyLeft(sticky: map<string, StickyEntry>, ttl: int, convKey: string, now: int): map<string, StickyEntry> {
    if convKey != "" && ttl > 0 && convKey in sticky && now >= sticky[convKey].expires
    then sticky - {convKey} else sticky
  }

  function WithoutExpired(sticky: map<string, StickyEntry>, now: int): map<string, StickyEntry> {
    map k | k in sticky && now <= sticky[k].expires :: sticky[k]
  }

  function StickyAfter(sticky: map<string, StickyEntry>, ttl: int, convKey: string, nodeID: string,
                       now: int): map<string, StickyEntry>
  {
    if convKey == "" || ttl <= 0 then sticky else
    var added := sticky[convKey := StickyEntry(nodeID, now + ttl)];
    if |added| > STICKY_LIMIT then WithoutExpired(added, now) else added
  }

  /** An operation of the one request that is being followed. */
  datatype Own = DidLook(id: string, open: bool) | DidAcquire(id: string) | DidRelease(id: string, ms: nat, ok: bool)
    | DidStick(convKey: string, id: string, now: int)

  // ---------------------------------------------------------------- the pool

  class Pool {
    const stickyTTL: int
    var nodes: map<string, Node>
    var sticky: map<string, StickyEntry>

    /** What the request that is being followed has done so far. */
    ghost var mine: seq<Own>

    ghost predicate Valid()
      reads this
    {
      forall id <- nodes :: Sound(nodes[id])
    }

    constructor (stickyTTL: int)
      ensures Valid() && this.stickyTTL == stickyTTL && nodes == map[] && sticky == map[] && mine == []
    {
      this.stickyTTL := stickyTTL;
      nodes, sticky, mine := map[], map[], [];
    }

    method Register(id: string, routeType: string)
      requires Valid()
      modifies this`nodes
      ensures Valid()
      ensures id in old(nodes) ==> nodes == old(nodes)[id := old(nodes)[id].(routeType := routeType)]
      ensures id !in old(nodes) ==> nodes == old(nodes)[id := Fresh(routeType)]
      ensures id !in old(nodes) ==>
        nodes[id].healthy && !nodes[id].draining && nodes[id].inflight == 0 && nodes[id].ema == 0.0
    {
      if id in nodes {
        nodes := nodes[id := nodes[id].(routeType := routeType)];
        return;
      }
      nodes := nodes[id := Node(routeType, true, false, 0, 0.0)];
    }

    method SetHealth(id: string, healthy: bool)
      requires Valid()
      modifies this`nodes
      ensures Valid()
      ensures nodes == if id in old(nodes) then old(nodes)[id := old(nodes)[id].(healthy := healthy)] else old(nodes)
    {
      if id in nodes {
        nodes := nodes[id := nodes[id].(healthy := healthy)];
      }
    }

    method SetDraining(id: string, draining: bool)
      requires Valid()
      modifies this`nodes
      ensures Valid()
      ensures nodes == if id in old(nodes) then old(nodes)[id := old(nodes)[id].(draining := draining)] else old(nodes)
    {
      if id in nodes {
        nodes := nodes[id := nodes[id].(draining := draining)];
      }
    }

    /** Whether the node takes requests at this moment. */
    method Assignable(id: string) returns (open: bool)
      requires Valid()
      modifies this`mine
      ensures Valid()
      ensures open == (id in nodes && nodes[id].healthy && !nodes[id].draining)
      ensures mine == old(mine) + [DidLook(id, open)]
    {
      open := id in nodes && nodes[id].healthy && !nodes[id].draining;
      mine := mine + [DidLook(id, open)];
    }

    method Acquire(id: string)
      requires Valid()
      modifies this`nodes, this`mine
      ensures Valid()
      ensures nodes == if id in old(nodes) then old(nodes)[id := Acquired(old(nodes)[id])] else old(nodes)
      ensures mine == old(mine) + [DidAcquire(id)]
    {
      mine := mine + [DidAcquire(id)];
      if id in nodes {
        nodes := nodes[id := nodes[id].(inflight := nodes[id].inflight + 1)];
      }
    }

    /** The function that Acquire returns. */
    method Release(id: string, ms: nat, ok: bool)
      requires Valid()
      modifies this`nodes, this`mine
      ensures Valid()
      ensures nodes == if id in old(nodes) then old(nodes)[id := Released(old(nodes)[id], ms, ok)] else old(nodes)
      ensures mine == old(mine) + [DidRelease(id, ms, ok)]
    {
      mine := mine + [DidRelease(id, ms, ok)];
      if id !in nodes {
        return;
      }
      var n := nodes[id];
      if n.inflight > 0 {
        n := n.(inflight := n.inflight - 1);
      }
      if n.ema == 0.0 {
        n := n.(ema := ms as real);
      } else {
        n := n.(ema := 0.8 * n.ema + 0.2 * (ms as real));
      }
      if !ok {
        n := n.(healthy := false);
      }
      nodes := nodes[id := n];
    }

    method Order(candidates: seq<string>, convKey: string, now: int) returns (out: seq<string>)
      requires Valid()
      modifies this`sticky
      ensures out == Ordered(nodes, StickyFor(old(sticky), stickyTTL, convKey, now), candidates)
      ensures sticky == StickyLeft(old(sticky), stickyTTL, convKey, now)
    {
      var stickyNode := "";
      if convKey != "" && stickyTTL > 0 {
        if convKey in sticky {
          if now < sticky[convKey].expires {
            stickyNode := sticky[convKey].nodeID;
          } else {
            sticky := sticky - {convKey};
          }
        }
      }
      var items: seq<Scored> := [];
      for i := 0 to |candidates|
        invariant items == Scores(nodes, stickyNode, candidates[..i])
      {
        var id := candidates[i];
        var s := Scored(id, 0.0, false, i);
        if id in nodes {
          var n := nodes[id];
          s := s.(order := n.inflight as real * 1000.0 + n.ema);
          if !n.healthy || n.draining {
            s := s.(dead := true);
          }
          if id == stickyNode && !s.dead {
            s := s.(order := -1.0);
          }
        }
        items := items + [s];
      }
      assert candidates[..|candidates|] == candidates;
      items := StableSort(items);
      out := [];
      for i := 0 to |items|
        invariant out == IDs(items[..i])
      {
        out := out + [items[i].id];
      }
      assert items[..|items|] == items;
    }

    method RecordSticky(convKey: string, nodeID: string, now: int)
      requires Valid()
      modifies this`sticky, this`mine
      ensures Valid()
      ensures sticky == StickyAfter(old(sticky), stickyTTL, convKey, nodeID, now)
      ensures mine == old(mine) + [DidStick(convKey, nodeID, now)]
    {
      mine := mine + [DidStick(convKey, nodeID, now)];
      if convKey == "" || stickyTTL <= 0 {
        return;
      }
      sticky := sticky[convKey := StickyEntry(nodeID, now + stickyTTL)];
      if |sticky| > STICKY_LIMIT {
        sticky := map k | k in sticky && !(now > sticky[k].expires) :: sticky[k];
      }
    }

    /** Whatever other requests, probes and administrators do to the pool meanwhile. */
    method Others()
      requires Valid()
      modifies this
      ensures Valid() && mine == old(mine) && old(nodes.Keys) <= nodes.Keys
    {
      ghost var own := mine;
      var more: nat := *;
      while more > 0
        invariant Valid() && old(nodes.Keys) <= nodes.Keys
      {
        var choice: int, id: string, flag: bool, ms: nat, text: string, now: int := *, *, *, *, *, *;
        match choice {
          case 0 => Register(id, text);
          case 1 => SetHealth(id, flag);
          case 2 => SetDraining(id, flag);
          case 3 => Acquire(id);
          case 4 => Release(id, ms, flag);
          case 5 => RecordSticky(text, id, now);
          case _ => var _ := Order([id], text, now);
        }
        more := more - 1;
      }
      mine := own;
    }
  }

  // ---------------------------------------------------------------- the order is the stable one

  /** Strictly before: alive before dead, then by score, then by position among the candidates. */
  predicate Before(a: Scored, b: Scored) {
    Less(a, b) || (!Less(b, a) && a.position < b.position)
  }

  ghost predicate Ranked(items: seq<Scored>) {
    forall i, j :: 0 <= i < j < |items| ==> Before(items[i], items[j])
  }

  lemma {:induction false} InsertPermutes(sorted: seq<Scored>, x: Scored)
    ensures multiset(InsertStable(sorted, x)) == multiset(sorted) + multiset{x}
    ensures multiset(IDs(InsertStable(sorted, x))) == multiset(IDs(sorted)) + multiset{x.id}
  {
    hide Less;
    if sorted == [] {
      assert IDs([x]) == [x.id] && IDs(sorted) == [];
    } else {
      var n := |sorted| - 1;
      assert sorted == sorted[..n] + [sorted[n]];
      IDsSnoc(sorted[..n], sorted[n]);
      IDsSnoc(sorted, x);
      InsertPermutes(sorted[..n], x);
      IDsSnoc(InsertStable(sorted[..n], x), sorted[n]);
    }
  }

  lemma RankedSnoc(items: seq<Scored>, x: Scored)
    requires Ranked(items) && forall s <- items :: Before(s, x)
    ensures Ranked(items + [x])
  {
  }

  lemma BeforeIsTransitive(a: Scored, b: Scored, c: Scored)
    requires Before(a, b) && Before(b, c)
    ensures Before(a, c)
  {
  }

  lemma {:induction false} InsertRanks(sorted: seq<Scored>, x: Scored)
    requires Ranked(sorted) && forall s <- sorted :: s.position < x.position
    ensures Ranked(InsertStable(sorted, x))
  {
    hide Before, Less, Ranked;
    if sorted == [] {
      RankedSnoc(sorted, x) by { RankedShort(sorted); }
      assert [] + [x] == [x];
    } else {
      var n := |sorted| - 1;
      var last := sorted[n];
      assert sorted == sorted[..n] + [last] && last in sorted;
      RankedPrefix(sorted, n);
      if Less(x, last) {
        InsertRanks(sorted[..n], x);
        InsertPermutes(sorted[..n], x);
        var front := InsertStable(sorted[..n], x);
        forall s | s in front ensures Before(s, last) {
          assert s in multiset(front);
          LessIsBefore(x, last);
          assert s != x ==> s in sorted[..n];
        }
        RankedSnoc(front, last);
      } else {
        forall s | s in sorted ensures Before(s, x) {
          NotLessIsBefore(x, last);
          if s in sorted[..n] {
            BeforeIsTransitive(s, last, x);
          }
        }
        RankedSnoc(sorted, x);
      }
    }
  }

  lemma RankedShort(items: seq<Scored>)
    ensures |items| <= 1 ==> Ranked(items)
  {
  }

  lemma RankedPrefix(items: seq<Scored>, n: nat)
    requires Ranked(items) && n + 1 == |items|
    ensures Ranked(items[..n]) && forall s <- items[..n] :: Before(s, items[n])
  {
  }

  lemma LessIsBefore(a: Scored, b: Scored)
    ensures Less(a, b) ==> Before(a, b)
  {
  }

  lemma NotLessIsBefore(x: Scored, last: Scored)
    ensures !Less(x, last) && last.position < x.position ==> Before(last, x)
  {
  }

  lemma IDsSnoc(items: seq<Scored>, x: Scored)
    ensures IDs(items + [x]) == IDs(items) + [x.id]
  {
  }

  lemma {:induction false} SortRanks(items: seq<Scored>)
    requires forall i, j :: 0 <= i < j < |items| ==> items[i].position < items[j].position
    ensures Ranked(StableSort(items)) && multiset(StableSort(items)) == multiset(items)
    ensures multiset(IDs(StableSort(items))) == multiset(IDs(items))
  {
    if items != [] {
      var n := |items| - 1;
      var front := StableSort(items[..n]);
      SortRanks(items[..n]);
      assert items == items[..n] + [items[n]];
      IDsSnoc(items[..n], items[n]);
      forall s | s in front ensures s.position < items[n].position {
        assert s in multiset(front);
        assert s in items[..n];
      }
      InsertRanks(front, items[n]);
      InsertPermutes(front, items[n]);
    }
  }

  lemma SameHead(a: seq<Scored>, b: seq<Scored>)
    requires Ranked(a) && Ranked(b) && multiset(a) == multiset(b) && |a| == |b| > 0
    ensures a[0] == b[0]
  {
    assert a[0] in multiset(b) && b[0] in multiset(a);
    var i :| 0 <= i < |b| && b[i] == a[0];
    var j :| 0 <= j < |a| && a[j] == b[0];
    assert i > 0 ==> Before(b[0], b[i]);
    assert j > 0 ==> Before(a[0], a[j]);
  }

  lemma RankedTail(items: seq<Scored>)
    requires Ranked(items) && items != []
    ensures Ranked(items[1..]) && multiset(items[1..]) == multiset(items) - multiset{items[0]}
  {
    assert items == [items[0]] + items[1..];
  }

  /** There is only one stable order, whatever algorithm finds it. */
  lemma {:induction false} StableSortIsUnique(a: seq<Scored>, b: seq<Scored>)
    requires Ranked(a) && Ranked(b) && multiset(a) == multiset(b)
    ensures a == b
  {
    hide Before, Ranked;
    assert |a| == |multiset(a)| == |multiset(b)| == |b|;
    if a != [] {
      SameHead(a, b);
      RankedTail(a);
      RankedTail(b);
      StableSortIsUnique(a[1..], b[1..]);
      assert b == [b[0]] + b[1..] && a == [a[0]] + a[1..];
    }
  }

  lemma ScoresArePositioned(nodes: map<string, Node>, stickyNode: string, candidates: seq<string>)
    ensures var items := Scores(nodes, stickyNode, candidates);
      (forall i, j :: 0 <= i < j < |items| ==> items[i].position < items[j].position) && IDs(items) == candidates
  {
  }

  /** Order loses no candidate and invents none, puts dead nodes last, and scores ascend. */
  lemma OrderRanksCandidates(nodes: map<string, Node>, stickyNode: string, candidates: seq<string>)
    ensures var out := Ordered(nodes, stickyNode, candidates);
      && multiset(out) == multiset(candidates)
      && (forall i, j :: 0 <= i < j < |out| && Dead(nodes, out[i]) ==> Dead(nodes, out[j]))
      && (forall i, j :: 0 <= i < j < |out| && Dead(nodes, out[i]) == Dead(nodes, out[j]) ==>
           Score(nodes, stickyNode, out[i]) <= Score(nodes, stickyNode, out[j]))
  {
    hide StableSort;
    var items := Scores(nodes, stickyNode, candidates);
    var sorted := StableSort(items);
    ScoresArePositioned(nodes, stickyNode, candidates);
    SortRanks(items);
    forall s | s in sorted
      ensures s.dead == Dead(nodes, s.id) && s.order == Score(nodes, stickyNode, s.id)
    {
      assert s in multiset(sorted);
      assert s in items;
    }
    var out := IDs(sorted);
    forall i, j | 0 <= i < j < |out|
      ensures Dead(nodes, out[i]) ==> Dead(nodes, out[j])
      ensures Dead(nodes, out[i]) == Dead(nodes, out[j]) ==>
        Score(nodes, stickyNode, out[i]) <= Score(nodes, stickyNode, out[j])
    {
      assert sorted[i] in sorted && sorted[j] in sorted && Before(sorted[i], sorted[j]);
    }
  }

  /** The order by what the pool knows of the nodes: those that are unhealthy or draining come last, and among the
      others, the sticky one aside, the one with fewer requests in flight comes first, each counting as much as a
      second of average latency. */
  lemma LessLoadedComesFirst(nodes: map<string, Node>, stickyNode: string, candidates: seq<string>, i: nat, j: nat)
    requires i < j < |Ordered(nodes, stickyNode, candidates)|
    ensures var a, b := Ordered(nodes, stickyNode, candidates)[i], Ordered(nodes, stickyNode, candidates)[j];
      && (a in nodes && (!nodes[a].healthy || nodes[a].draining) ==>
           b in nodes && (!nodes[b].healthy || nodes[b].draining))
      && (a in nodes && b in nodes && a != stickyNode && b != stickyNode
          && nodes[a].healthy && nodes[b].healthy && !nodes[a].draining && !nodes[b].draining ==>
           1000.0 * nodes[a].inflight as real + nodes[a].ema <= 1000.0 * nodes[b].inflight as real + nodes[b].ema)
      && (a in nodes && b !in nodes && a != stickyNode && nodes[a].healthy && !nodes[a].draining ==>
           1000.0 * nodes[a].inflight as real + nodes[a].ema <= 0.0)
  {
    hide Ordered;
    OrderRanksCandidates(nodes, stickyNode, candidates);
  }

  /** What a finished request leaves on its node: the first latency is taken over and later ones move the average
      a fifth of the way; a failure marks the node, and a success does not clear it. */
  lemma ReleaseIsWeighed(n: Node, ms: nat, ok: bool)
    ensures var after := Released(n, ms, ok);
      && after.inflight == (if n.inflight > 0 then n.inflight - 1 else n.inflight)
      && (n.ema == 0.0 ==> after.ema == ms as real)
      && (n.ema != 0.0 ==> 5.0 * (after.ema - n.ema) == ms as real - n.ema)
      && (after.healthy <==> n.healthy && ok)
      && after.draining == n.draining && after.routeType == n.routeType
  {
  }

  /** A live, registered sticky candidate comes first: counts and averages are never negative. */
  lemma StickyComesFirst(nodes: map<string, Node>, stickyNode: string, candidates: seq<string>)
    requires forall id <- nodes :: Sound(nodes[id])
    requires stickyNode in nodes && !Dead(nodes, stickyNode) && stickyNode in candidates
    ensures Ordered(nodes, stickyNode, candidates)[..1] == [stickyNode]
  {
    hide Ordered;
    var out := Ordered(nodes, stickyNode, candidates);
    OrderRanksCandidates(nodes, stickyNode, candidates);
    assert stickyNode in multiset(candidates);
    assert stickyNode in multiset(out);
    var k :| 0 <= k < |out| && out[k] == stickyNode;
    assert k > 0 ==> !Dead(nodes, out[0]) && Score(nodes, stickyNode, out[0]) <= Score(nodes, stickyNode, out[k]);
  }

  /** A conversation stays on the node that served it last until the entry expires, whatever is swept. */
  lemma StickyRemembers(sticky: map<string, StickyEntry>, ttl: int, convKey: string, nodeID: string, now: int,
                        later: int)
    requires convKey != "" && now <= later
    ensures StickyFor(StickyAfter(sticky, ttl, convKey, nodeID, now), ttl, convKey, later)
      == if ttl > 0 && later < now + ttl then nodeID else ""
  {
  }

  /** Nothing is swept while there is room for 4096 conversations. */
  lemma NothingIsSweptBelowTheLimit(sticky: map<string, StickyEntry>, ttl: int, convKey: string, nodeID: string,
                                    now: int, other: string)
    requires |sticky[convKey := StickyEntry(nodeID, now + ttl)]| <= 4096 && other in sticky && other != convKey
    ensures var after := StickyAfter(sticky, ttl, convKey, nodeID, now);
      other in after && after[other] == sticky[other]
  {
  }

  /** The opportunistic sweep changes no later answer. */
  lemma SweepChangesNoAnswer(sticky: map<string, StickyEntry>, ttl: int, convKey: string, sweep: int, now: int)
    requires sweep <= now
    ensures StickyFor(WithoutExpired(sticky, sweep), ttl, convKey, now) == StickyFor(sticky, ttl, convKey, now)
  {
  }

  // ---------------------------------------------------------------- averages and in-flight counts

  function EmaOf(samples: seq<nat>): real {
    if samples == [] then 0.0 else NextEma(EmaOf(samples[..|samples| - 1]), samples[|samples| - 1] as real)
  }

  /** The average never leaves the range of the observed latencies. */
  lemma {:induction false} EmaStaysWithinSamples(samples: seq<nat>, low: nat, high: nat)
    requires samples != [] && forall s <- samples :: low <= s <= high
    ensures low as real <= EmaOf(samples) <= high as real
  {
    var n := |samples| - 1;
    assert samples[n] in samples;
    assert forall s <- samples[..n] :: s in samples;
    if n > 0 {
      assert |samples[..n]| == n;
      EmaStaysWithinSamples(samples[..n], low, high);
    } else {
      assert samples[..n] == [];
    }
  }

  /** One node and its requests in flight: `counted` were acquired while it was registered. */
  datatype Gauge = Gauge(node: Node, registered: bool, counted: nat, uncounted: nat)

  datatype GaugeStep = Registers | Acquires | Releases(ms: nat, ok: bool) | ReleasesUncounted(ms: nat, ok: bool)

  function GaugeApply(g: Gauge, step: GaugeStep): Gauge {
    match step
    case Registers => g.(registered := true)
    case Acquires =>
      if g.registered then g.(node := Acquired(g.node), counted := g.counted + 1) else g.(uncounted := g.uncounted + 1)
    case Releases(ms, ok) =>
      if g.counted > 0 then g.(node := Released(g.node, ms, ok), counted := g.counted - 1) else g
    case ReleasesUncounted(ms, ok) =>
      if g.uncounted == 0 then g
      else g.(node := if g.registered then Released(g.node, ms, ok) else g.node, uncounted := g.uncounted - 1)
  }

  function GaugeRun(g: Gauge, steps: seq<GaugeStep>): Gauge
    decreases |steps|
  {
    if steps == [] then g else GaugeRun(GaugeApply(g, steps[0]), steps[1..])
  }

  predicate Balanced(g: Gauge) {
    g.node.inflight == g.counted
  }

  lemma {:induction false} GaugeKeepsBalance(g: Gauge, steps: seq<GaugeStep>)
    requires Balanced(g) && g.uncounted == 0 && g.registered
    ensures Balanced(GaugeRun(g, steps))
    decreases |steps|
  {
    if steps != [] {
      GaugeKeepsBalance(GaugeApply(g, steps[0]), steps[1..]);
    }
  }

  predicate RegistersBeforeUse(steps: seq<GaugeStep>) {
    steps != [] ==> !steps[0].Acquires? && (steps[0].Registers? || RegistersBeforeUse(steps[1..]))
  }

  /** The count of a node that is registered before its first request is the number of its requests in flight,
      whatever happens afterwards. */
  lemma {:induction false} RegisteredFirstIsBalanced(rt: string, steps: seq<GaugeStep>)
    requires RegistersBeforeUse(steps)
    ensures Balanced(GaugeRun(Gauge(Fresh(rt), false, 0, 0), steps))
    decreases |steps|
  {
    if steps != [] {
      var g := Gauge(Fresh(rt), false, 0, 0);
      if steps[0].Registers? {
        GaugeKeepsBalance(GaugeApply(g, steps[0]), steps[1..]);
      } else {
        assert GaugeApply(g, steps[0]) == g;
        RegisteredFirstIsBalanced(rt, steps[1..]);
      }
    }
  }

  /** A request that comes before the registration leaves the uncounted one behind. */
  lemma EarlyRequestIsUncounted(rt: string)
    ensures var g := GaugeRun(Gauge(Fresh(rt), false, 0, 0), [Acquires, Registers]);
      && g.registered && Balanced(g) && g.uncounted == 1
      && exists steps :: !Balanced(GaugeRun(g, steps))
  {
    var steps := [Acquires, Registers];
    var start := Gauge(Fresh(rt), false, 0, 0);
    var g := GaugeApply(GaugeApply(start, Acquires), Registers);
    assert steps[1..] == [Registers] && steps[1..][1..] == [];
    assert GaugeRun(start, steps) == GaugeRun(GaugeApply(start, Acquires), [Registers]) == GaugeRun(g, []) == g;
    InflightBalancedIff(g);
  }

  /** The in-flight count of a registered node equals the requests it holds, through every later sequence
      of acquires and releases, if and only if no request acquired before registration is still out. */
  lemma InflightBalancedIff(g: Gauge)
    requires g.registered && Balanced(g)
    ensures (forall steps :: Balanced(GaugeRun(g, steps))) <==> g.uncounted == 0
  {
    if g.uncounted == 0 {
      forall steps ensures Balanced(GaugeRun(g, steps)) {
        GaugeKeepsBalance(g, steps);
      }
    } else {
      var steps := [Acquires, ReleasesUncounted(0, true)];
      assert steps[1..] == [ReleasesUncounted(0, true)] && steps[1..][1..] == [];
      var g1 := GaugeApply(g, steps[0]);
      var g2 := GaugeApply(g1, steps[1]);
      assert GaugeRun(g1, steps[1..]) == GaugeRun(g2, []);
      assert !Balanced(GaugeRun(g, steps));
      assert exists t :: !Balanced(GaugeRun(g, t));
    }
  }
}
