/** Signed configuration generations on disk (gwcore/import.go): the ordered writes of a store, pruning, the
    version marker, and what a restart recovers (gwcore/agent.go, LoadStoredConfig). */
module ConfigGenerations {
  import opened Wrappers

  type Content = string

  /** config-v<N>.json for every N, config-current.json, and config-current.version. */
  datatype Disk = Disk(gens: map<int, Content>, current: Option<Content>, marker: Option<int>)

  const NOTHING_STORED := Disk(map[], None, None)

  /** Last Known Good generations kept besides the newest. */
  const LKG_KEEP := 2

  datatype Error = VersionMissing | NotVerified | WrongGateway | NotNewer

  datatype SignedConfig = SignedConfig(gatewayID: string, content: Content)

  // ---------------------------------------------------------------- versions in numeric order

  predicate Ascending(s: seq<int>) {
    forall i, j :: 0 <= i < j < |s| ==> s[i] < s[j]
  }

  predicate Distinct(s: seq<int>) {
    forall i, j :: 0 <= i < j < |s| ==> s[i] != s[j]
  }

  function Elements(s: seq<int>): set<int> {
    set x | x in s
  }

  function Insert(s: seq<int>, x: int): seq<int> {
    if s == [] then [x]
    else if x < s[|s| - 1] then Insert(s[..|s| - 1], x) + [s[|s| - 1]]
    else s + [x]
  }

  /** Go's sort.Slice on version numbers. */
  function SortVersions(s: seq<int>): seq<int> {
    if s == [] then [] else Insert(SortVersions(s[..|s| - 1]), s[|s| - 1])
  }

  lemma {:induction false} InsertAscends(s: seq<int>, x: int)
    requires Ascending(s) && x !in s
    ensures Ascending(Insert(s, x)) && forall y :: y in Insert(s, x) <==> y in s || y == x
  {
    if s != [] {
      var n := |s| - 1;
      assert s == s[..n] + [s[n]];
      if x < s[n] {
        InsertAscends(s[..n], x);
        var front := Insert(s[..n], x);
        forall i | 0 <= i < |front| ensures front[i] < s[n] {
          assert front[i] in front;
        }
      }
    }
  }

  lemma {:induction false} SortAscends(s: seq<int>)
    requires Distinct(s)
    ensures Ascending(SortVersions(s)) && Elements(SortVersions(s)) == Elements(s)
  {
    if s != [] {
      var n := |s| - 1;
      SortAscends(s[..n]);
      assert s == s[..n] + [s[n]];
      assert s[n] !in s[..n];
      assert forall y :: y in SortVersions(s[..n]) <==> y in Elements(SortVersions(s[..n]));
      InsertAscends(SortVersions(s[..n]), s[n]);
    }
  }

  lemma {:induction false} ElementsCount(s: seq<int>)
    requires Distinct(s)
    ensures |Elements(s)| == |s|
  {
    if s != [] {
      var n := |s| - 1;
      ElementsCount(s[..n]);
      assert s[n] !in s[..n];
      assert s == s[..n] + [s[n]];
      assert Elements(s) == Elements(s[..n]) + {s[n]};
    }
  }

  function Above(keys: set<int>, k: int): set<int> {
    set x | x in keys && x > k
  }

  lemma NoMembers(keys: set<int>)
    ensures (forall k :: k !in keys) ==> keys == {}
  {
    if forall k :: k !in keys {
      assert keys <= {};
    }
  }

  lemma HasMember(keys: set<int>)
    requires keys != {}
    ensures exists k :: k in keys
  {
    NoMembers(keys);
  }

  lemma AboveAt(s: seq<int>, j: nat)
    requires Ascending(s) && j < |s|
    ensures |Above(Elements(s), s[j])| == |s| - 1 - j
  {
    assert Above(Elements(s), s[j]) == Elements(s[j + 1..]) by {
      forall x ensures x in Above(Elements(s), s[j]) <==> x in s[j + 1..] {
        if x in Above(Elements(s), s[j]) {
          var i :| 0 <= i < |s| && s[i] == x;
          assert i > j;
          assert s[j + 1..][i - j - 1] == x;
        }
      }
    }
    ElementsCount(s[j + 1..]);
  }

  ghost predicate IsHighest(keys: set<int>, v: int) {
    if keys == {} then v == 0 else v in keys && forall k <- keys :: k <= v
  }

  // ---------------------------------------------------------------- one store

  /** Kept by the prune: one of the three highest, or the version just written. */
  predicate Keeps(keys: set<int>, v: int, k: int) {
    k == v || |Above(keys, k)| < LKG_KEEP + 1
  }

  function WithGeneration(d: Disk, v: int, content: Content): Disk {
    d.(gens := d.gens[v := content])
  }

  function WithCurrent(d: Disk, v: int, content: Content): Disk {
    WithGeneration(d, v, content).(current := Some(content))
  }

  function WithMarker(d: Disk, v: int, content: Content): Disk {
    WithCurrent(d, v, content).(marker := Some(v))
  }

  function Stored(d: Disk, v: int, content: Content): Disk {
    var all := d.gens[v := content];
    Disk(map k | k in all && Keeps(all.Keys, v, k) :: all[k], Some(content), Some(v))
  }

  ghost predicate SubMap(a: map<int, Content>, b: map<int, Content>) {
    forall k <- a :: k in b && a[k] == b[k]
  }

  /** What the disk may hold if the process stops during a store: nothing written; the generation; the
      current file too; the marker too, and the prune anywhere between start and end. */
  ghost predicate CrashImage(d: Disk, v: int, content: Content, image: Disk) {
    || image == d
    || image == WithGeneration(d, v, content)
    || Switched(d, v, content, image)
  }

  /** The crash images whose current file is the new one. */
  ghost predicate Switched(d: Disk, v: int, content: Content, image: Disk) {
    || image == WithCurrent(d, v, content)
    || (image.current == Some(content) && image.marker == Some(v)
        && SubMap(Stored(d, v, content).gens, image.gens) && SubMap(image.gens, d.gens[v := content]))
  }

  class DataDir {
    var gens: map<int, Content>
    var current: Option<Content>
    var marker: Option<int>

    /** The disk after every write, oldest first. */
    ghost var trail: seq<Disk>

    constructor (d: Disk)
      ensures Image() == d && trail == []
    {
      gens, current, marker, trail := d.gens, d.current, d.marker, [];
    }

    function Image(): Disk
      reads this
    {
      Disk(gens, current, marker)
    }

    method WriteGeneration(v: int, content: Content)
      modifies this
      ensures Image() == WithGeneration(old(Image()), v, content) && trail == old(trail) + [Image()]
    {
      gens := gens[v := content];
      trail := trail + [Image()];
    }

    method SwitchCurrent(content: Content)
      modifies this
      ensures Image() == old(Image()).(current := Some(content)) && trail == old(trail) + [Image()]
    {
      current := Some(content);
      trail := trail + [Image()];
    }

    method WriteMarker(v: int)
      modifies this
      ensures Image() == old(Image()).(marker := Some(v)) && trail == old(trail) + [Image()]
    {
      marker := Some(v);
      trail := trail + [Image()];
    }

    method Remove(v: int)
      modifies this
      ensures Image() == old(Image()).(gens := old(gens) - {v}) && trail == old(trail) + [Image()]
    {
      gens := gens - {v};
      trail := trail + [Image()];
    }

    method SortedGenerations() returns (versions: seq<int>)
      ensures Ascending(versions) && Elements(versions) == gens.Keys
    {
      var rest := gens.Keys;
      versions := [];
      while rest != {}
        invariant Distinct(versions)
        invariant forall k :: k in gens.Keys <==> k in rest || k in versions
        invariant forall k <- versions :: k !in rest
        decreases |rest|
      {
        HasMember(rest);
        var k :| k in rest;
        versions := versions + [k];
        rest := rest - {k};
      }
      assert forall k :: k in gens.Keys <==> k in versions;
      SortAscends(versions);
      versions := SortVersions(versions);
    }

    /** The prune loop, over the generations of the disk `was` after `v` was written. */
    method Prune(ghost was: Disk, v: int, ghost content: Content)
      requires Image() == WithMarker(was, v, content)
      modifies this
      ensures Image() == Stored(was, v, content)
      ensures old(trail) <= trail
      ensures forall i :: |old(trail)| <= i < |trail| ==> CrashImage(was, v, content, trail[i])
    {
      hide Keeps, Stored, CrashImage, Ascending;
      var versions := SortedGenerations();
      if |versions| > LKG_KEEP + 1 {
        var cut := |versions| - (LKG_KEEP + 1);
        assert gens == Pruned(was, v, content, versions, 0);
        for i := 0 to cut
          invariant current == Some(content) && marker == Some(v)
          invariant gens == Pruned(was, v, content, versions, i)
          invariant old(trail) <= trail
          invariant forall k :: |old(trail)| <= k < |trail| ==> CrashImage(was, v, content, trail[k])
        {
          PrunedStep(was, v, content, versions, i);
          if versions[i] == v {
            continue;
          }
          Remove(versions[i]);
          PartlyPruned(was, v, content, versions, i + 1);
        }
      }
      PrunedIsStored(was, v, content, versions);
      assert Stored(was, v, content).current == Some(content) && Stored(was, v, content).marker == Some(v) by {
        StoredIsPart(was, v, content);
      }
    }

    method StoreConfigGeneration(v: int, content: Content)
      modifies this
      ensures Image() == Stored(old(Image()), v, content)
      ensures old(trail) <= trail
      ensures forall i :: |old(trail)| <= i < |trail| ==> CrashImage(old(Image()), v, content, trail[i])
    {
      hide Keeps, Stored;
      ghost var was := Image();
      StoredIsPart(was, v, content);
      WriteGeneration(v, content);
      SwitchCurrent(content);
      WriteMarker(v);
      Prune(was, v, content);
    }

    method CurrentGenerationVersion() returns (v: int)
      ensures IsHighest(gens.Keys, v)
    {
      var versions := SortedGenerations();
      if |versions| == 0 {
        assert Elements(versions) == {};
        return 0;
      }
      v := versions[|versions| - 1];
      assert v in Elements(versions);
      assert forall k <- gens.Keys :: k in Elements(versions);
    }

    method CurrentAppliedVersion() returns (v: int)
      ensures Recovers(Image(), v)
    {
      if marker.Some? && marker.value > 0 {
        return marker.value;
      }
      v := CurrentGenerationVersion();
    }

    /** `verified` is the configuration, if digest, signature and staging checks all passed. */
    method ImportSignedConfig(version: int, verified: Option<SignedConfig>, gatewayID: string, force: bool)
      returns (r: Result<int, Error>)
      modifies this
      ensures version <= 0 ==> r == Failure(VersionMissing)
      ensures version > 0 && verified == None ==> r == Failure(NotVerified)
      ensures version > 0 && verified.Some? && gatewayID != "" && verified.value.gatewayID != gatewayID ==>
        r == Failure(WrongGateway)
      ensures version > 0 && verified.Some? && (gatewayID == "" || verified.value.gatewayID == gatewayID) ==>
        r == if force || Newer(old(Image()), version) then Success(version) else Failure(NotNewer)
      ensures r.Failure? ==> Image() == old(Image()) && trail == old(trail)
      ensures r.Success? ==> Image() == Stored(old(Image()), version, verified.value.content)
      ensures r.Success? ==> old(trail) <= trail
      ensures r.Success? ==> forall i :: |old(trail)| <= i < |trail| ==>
        CrashImage(old(Image()), version, verified.value.content, trail[i])
    {
      hide Stored, CrashImage;
      if version <= 0 {
        return Failure(VersionMissing);
      }
      if verified == None {
        return Failure(NotVerified);
      }
      if gatewayID != "" && verified.value.gatewayID != gatewayID {
        return Failure(WrongGateway);
      }
      var highest := CurrentGenerationVersion();
      if version <= highest && !force {
        return Failure(NotNewer);
      }
      StoreConfigGeneration(version, verified.value.content);
      return Success(version);
    }
  }

  /** The version a restart reports: the marker, or the highest generation without one. */
  ghost predicate Recovers(d: Disk, v: int) {
    if d.marker.Some? && d.marker.value > 0 then v == d.marker.value else IsHighest(d.gens.Keys, v)
  }

  /** Above 0 and every stored generation. */
  ghost predicate Newer(d: Disk, v: int) {
    v > 0 && forall k <- d.gens :: v > k
  }

  lemma StoredIsPart(d: Disk, v: int, content: Content)
    ensures SubMap(Stored(d, v, content).gens, d.gens[v := content])
    ensures Stored(d, v, content).current == Some(content) && Stored(d, v, content).marker == Some(v)
  {
  }

  lemma KeptAre(versions: seq<int>, v: int, i: nat)
    requires Ascending(versions)
    ensures i < |versions| ==>
      (Keeps(Elements(versions), v, versions[i]) <==> versions[i] == v || i + 3 >= |versions|)
  {
    if i < |versions| {
      AboveAt(versions, i);
    }
  }

  function Pruned(d: Disk, v: int, content: Content, versions: seq<int>, i: nat): map<int, Content>
    requires i <= |versions|
  {
    d.gens[v := content] - (Elements(versions[..i]) - {v})
  }

  lemma PrunedStep(d: Disk, v: int, content: Content, versions: seq<int>, i: nat)
    requires i < |versions|
    ensures Pruned(d, v, content, versions, i + 1)
      == if versions[i] == v then Pruned(d, v, content, versions, i)
         else Pruned(d, v, content, versions, i) - {versions[i]}
  {
    assert Elements(versions[..i + 1]) == Elements(versions[..i]) + {versions[i]};
  }

  lemma PartlyPruned(d: Disk, v: int, content: Content, versions: seq<int>, i: nat)
    requires Ascending(versions) && Elements(versions) == d.gens[v := content].Keys
    requires i + LKG_KEEP + 1 <= |versions|
    ensures SubMap(Stored(d, v, content).gens, Pruned(d, v, content, versions, i))
    ensures SubMap(Pruned(d, v, content, versions, i), d.gens[v := content])
    ensures CrashImage(d, v, content, Disk(Pruned(d, v, content, versions, i), Some(content), Some(v)))
  {
    hide Keeps;
    forall k | k in Stored(d, v, content).gens ensures k in Pruned(d, v, content, versions, i) {
      if k in versions[..i] {
        var j :| 0 <= j < i && versions[j] == k;
        KeptAre(versions, v, j);
      }
    }
  }

  lemma PrunedIsStored(d: Disk, v: int, content: Content, versions: seq<int>)
    requires Ascending(versions) && Elements(versions) == d.gens[v := content].Keys
    ensures |versions| > LKG_KEEP + 1 ==>
      Pruned(d, v, content, versions, |versions| - (LKG_KEEP + 1)) == Stored(d, v, content).gens
    ensures |versions| <= LKG_KEEP + 1 ==> d.gens[v := content] == Stored(d, v, content).gens
  {
    hide Keeps;
    var all := d.gens[v := content];
    var cut := if |versions| > LKG_KEEP + 1 then |versions| - (LKG_KEEP + 1) else 0;
    forall k | k in all ensures Keeps(all.Keys, v, k) <==> k == v || k !in versions[..cut] {
      assert k in Elements(versions);
      var j :| 0 <= j < |versions| && versions[j] == k;
      KeptAre(versions, v, j);
      assert j < cut ==> versions[..cut][j] == k;
      assert k in versions[..cut] ==> j < cut;
    }
  }

  // ---------------------------------------------------------------- crashes

  /** Where a store may have stopped: a generation backs the current file at every point.  Its content is the
      current one except in the window in which a version is stored again with a different content. */
  lemma CrashKeepsABackup(d: Disk, cv: int, v: int, content: Content, image: Disk)
    requires d.current.Some? && cv in d.gens && d.gens[cv] == d.current.value
    requires CrashImage(d, v, content, image)
    ensures image.current == d.current || image.current == Some(content)
    ensures image == WithGeneration(d, v, content) ==> cv in image.gens
    ensures image == WithGeneration(d, v, content) ==>
      (image.gens[cv] == image.current.value <==> v != cv || content == d.current.value)
    ensures image != d && image != WithGeneration(d, v, content) ==>
      v in image.gens && image.gens[v] == content && image.current == Some(content)
  {
    assert v in Stored(d, v, content).gens;
  }

  /** The version that a restart reports is the one its current file was stored under. */
  ghost predicate ReportsTheCurrent(d: Disk, cv: int, v: int, content: Content, image: Disk) {
    || (image.current == d.current && Recovers(image, cv))
    || (image.current == Some(content) && Recovers(image, v))
  }

  /** A store of a new version with a new content, on a disk whose restart would report its current file,
      stopped anywhere: the next restart reports a version that is stored, and it is the one of the current file
      if and only if that generation has the content of the current file. */
  lemma RestartReportsTheCurrentIff(d: Disk, cv: int, v: int, content: Content, image: Disk, r: int)
    requires Recovers(d, cv) && v > 0 && v != cv
    requires cv in d.gens && d.current == Some(d.gens[cv]) && content != d.gens[cv]
    requires CrashImage(d, v, content, image) && Recovers(image, r)
    ensures image.current.Some? && r in image.gens
    ensures ReportsTheCurrent(d, cv, v, content, image) <==> image.gens[r] == image.current.value
  {
    assert v in Stored(d, v, content).gens && v in WithGeneration(d, v, content).gens;
    RecoversOne(image, cv, r);
    RecoversOne(image, v, r);
    if image == d {
      RecoversOne(d, cv, r);
    } else if image.marker != Some(v) {
      OneMoreGeneration(d, image, cv, v, r);
    }
  }

  lemma RecoversOne(d: Disk, v: int, w: int)
    ensures Recovers(d, v) && Recovers(d, w) ==> v == w
  {
  }

  lemma OneMoreGeneration(d: Disk, image: Disk, cv: int, v: int, r: int)
    requires cv in d.gens && Recovers(d, cv) && Recovers(image, r)
    requires image.marker == d.marker && image.gens.Keys == d.gens.Keys + {v}
    ensures r == cv || r == v
  {
    assert cv in image.gens;
  }

  /** Storing the version again that the marker names cannot make a restart report a wrong one. */
  lemma RestoreKeepsTheReport(d: Disk, v: int, content: Content, image: Disk)
    requires d.marker == Some(v) && v > 0 && CrashImage(d, v, content, image)
    ensures Recovers(image, v)
  {
  }

  /** An unforced import that crashed may be repeated if and only if it had written nothing. */
  lemma RetryAfterCrashIff(d: Disk, v: int, content: Content, image: Disk)
    requires Newer(d, v) && CrashImage(d, v, content, image)
    ensures Newer(image, v) <==> image == d
  {
    assert v in Stored(d, v, content).gens;
    assert v in image.gens || image == d;
  }

  /** A disk and the version that its current file came from. */
  datatype State = State(disk: Disk, version: int)

  datatype Import = Import(version: int, content: Content, force: bool)

  ghost predicate Accepted(d: Disk, op: Import) {
    op.version > 0 && (op.force || Newer(d, op.version))
  }

  /** One import, completed or stopped anywhere. */
  ghost predicate Next(s: State, op: Import, t: State) {
    if !Accepted(s.disk, op) then t == s else
    || (t.version == s.version && (t.disk == s.disk || t.disk == WithGeneration(s.disk, op.version, op.content)))
    || (t.version == op.version && Switched(s.disk, op.version, op.content, t.disk))
  }

  ghost predicate Backed(s: State) {
    && (s.disk.current.Some? ==> s.version in s.disk.gens)
    && (s.disk.marker.Some? ==> s.disk.marker.value > 0 && s.disk.marker.value in s.disk.gens)
  }

  lemma NextKeepsBackups(s: State, op: Import, t: State)
    requires Backed(s) && Next(s, op, t)
    ensures Backed(t)
  {
    if Accepted(s.disk, op) {
      assert op.version in Stored(s.disk, op.version, op.content).gens;
    }
  }

  ghost predicate Run(states: seq<State>, ops: seq<Import>) {
    && |states| == |ops| + 1
    && states[0] == State(NOTHING_STORED, 0)
    && forall i :: 0 <= i < |ops| ==> Next(states[i], ops[i], states[i + 1])
  }

  /** Over every run of imports, forced or not, completed or stopped at any point, the versions of the
      current file and of the marker have generation files. */
  lemma {:induction false} BackupsSurviveEveryRun(states: seq<State>, ops: seq<Import>, i: nat)
    requires Run(states, ops) && i < |states|
    ensures Backed(states[i])
  {
    hide Backed, Next;
    if i == 0 {
      FirstIsBacked();
    } else {
      BackupsSurviveEveryRun(states, ops, i - 1);
      assert Next(states[i - 1], ops[i - 1], states[i - 1 + 1]);
      NextKeepsBackups(states[i - 1], ops[i - 1], states[i]);
    }
  }

  lemma FirstIsBacked()
    ensures Backed(State(NOTHING_STORED, 0))
  {
  }

  /** Every version is signed with a content of its own. */
  ghost predicate OneContentEach(name: int -> Content, ops: seq<Import>) {
    && (forall v, w :: name(v) == name(w) ==> v == w)
    && (forall op <- ops :: op.content == name(op.version))
  }

  ghost predicate Named(name: int -> Content, s: State) {
    && (forall k <- s.disk.gens :: s.disk.gens[k] == name(k))
    && (s.disk.current.Some? ==> s.disk.current.value == name(s.version))
  }

  lemma NextKeepsNames(name: int -> Content, s: State, op: Import, t: State)
    requires Named(name, s) && op.content == name(op.version) && Next(s, op, t)
    ensures Named(name, t)
  {
    hide Keeps;
  }

  lemma {:induction false} EveryRunKeepsNames(name: int -> Content, states: seq<State>, ops: seq<Import>, i: nat)
    requires Run(states, ops) && i < |states| && OneContentEach(name, ops)
    ensures Named(name, states[i])
  {
    hide Next;
    if i > 0 {
      EveryRunKeepsNames(name, states, ops, i - 1);
      assert ops[i - 1] in ops && Next(states[i - 1], ops[i - 1], states[i - 1 + 1]);
      NextKeepsNames(name, states[i - 1], ops[i - 1], states[i]);
    }
  }

  /** Over every run of imports, forced or not, each stopped anywhere: a restart reports a stored version, and it
      is the version of the current file if and only if that generation has the content of the current file. */
  lemma RestartReportsTheLoadedIff(name: int -> Content, states: seq<State>, ops: seq<Import>, i: nat, r: int)
    requires Run(states, ops) && i < |states| && OneContentEach(name, ops)
    requires states[i].disk.current.Some? && Recovers(states[i].disk, r)
    ensures var d := states[i].disk;
      r in d.gens && (r == states[i].version <==> d.gens[r] == d.current.value)
  {
    BackupsSurviveEveryRun(states, ops, i);
    EveryRunKeepsNames(name, states, ops, i);
  }

  /** The two ways in which a restart reports another version than the one in its current file: the marker was
      not written after the switch, or there is no marker yet and a newer generation was never switched to. */
  lemma RestartMisreports(a: Content, b: Content)
    ensures var first := State(Stored(NOTHING_STORED, 1, a), 1);
      var second := State(WithCurrent(first.disk, 2, b), 2);
      && Run([State(NOTHING_STORED, 0), first, second], [Import(1, a, false), Import(2, b, false)])
      && Recovers(second.disk, 1)
    ensures var first := State(WithCurrent(NOTHING_STORED, 1, a), 1);
      var second := State(WithGeneration(first.disk, 2, b), 1);
      && Run([State(NOTHING_STORED, 0), first, second], [Import(1, a, false), Import(2, b, false)])
      && Recovers(second.disk, 2)
  {
    var one, two := Import(1, a, false), Import(2, b, false);
    var stored := State(Stored(NOTHING_STORED, 1, a), 1);
    assert 1 in stored.disk.gens && stored.disk.gens.Keys <= {1};
    TwoImports(one, two, stored, State(WithCurrent(stored.disk, 2, b), 2));
    var switched := State(WithCurrent(NOTHING_STORED, 1, a), 1);
    TwoImports(one, two, switched, State(WithGeneration(switched.disk, 2, b), 1));
    assert 2 in WithGeneration(switched.disk, 2, b).gens;
  }

  lemma TwoImports(one: Import, two: Import, first: State, second: State)
    requires Next(State(NOTHING_STORED, 0), one, first) && Next(first, two, second)
    ensures Run([State(NOTHING_STORED, 0), first, second], [one, two])
  {
    hide Next;
    var states, ops := [State(NOTHING_STORED, 0), first, second], [one, two];
    assert Next(states[0], ops[0], states[0 + 1]) && Next(states[1], ops[1], states[1 + 1]);
  }

  // ---------------------------------------------------------------- completed imports

  ghost function Play(d: Disk, ops: seq<Import>): Disk
    decreases |ops|
  {
    if ops == [] then d else
    var before := Play(d, ops[..|ops| - 1]);
    var op := ops[|ops| - 1];
    if Accepted(before, op) then Stored(before, op.version, op.content) else before
  }

  /** The last import that was accepted. */
  ghost function LastAccepted(d: Disk, ops: seq<Import>): Option<Import>
    decreases |ops|
  {
    if ops == [] then None
    else if Accepted(Play(d, ops[..|ops| - 1]), ops[|ops| - 1]) then Some(ops[|ops| - 1])
    else LastAccepted(d, ops[..|ops| - 1])
  }

  ghost predicate Holds(d: Disk, op: Import) {
    && Recovers(d, op.version) && d.current == Some(op.content)
    && op.version in d.gens && d.gens[op.version] == op.content && |d.gens| <= 4
  }

  /** A restart after any run of completed imports, rollbacks included, recovers exactly the last one accepted,
      and at most four generations are kept. */
  lemma {:induction false} RestartRecoversTheLastImport(ops: seq<Import>)
    ensures var last := LastAccepted(NOTHING_STORED, ops);
      if last == None then Play(NOTHING_STORED, ops) == NOTHING_STORED
      else Holds(Play(NOTHING_STORED, ops), last.value)
    decreases |ops|
  {
    hide Stored;
    if ops != [] {
      RestartRecoversTheLastImport(ops[..|ops| - 1]);
      var before, op := Play(NOTHING_STORED, ops[..|ops| - 1]), ops[|ops| - 1];
      StoredHoldsTheImport(before, op.version, op.content);
    }
  }

  lemma {:induction false} Listed(keys: set<int>) returns (s: seq<int>)
    ensures Distinct(s) && Elements(s) == keys
  {
    s := [];
    if keys == {} {
      assert Elements(s) == {};
    } else {
      HasMember(keys);
      var k :| k in keys;
      var rest := Listed(keys - {k});
      assert k !in Elements(rest);
      s := rest + [k];
      assert Elements(s) == Elements(rest) + {k};
    }
  }

  lemma StoredHoldsTheImport(d: Disk, v: int, content: Content)
    ensures var after := Stored(d, v, content);
      && after.current == Some(content) && after.marker == Some(v)
      && v in after.gens && after.gens[v] == content && |after.gens| <= LKG_KEEP + 2
  {
    var all := d.gens[v := content];
    var listed := Listed(all.Keys);
    SortAscends(listed);
    var versions := SortVersions(listed);
    PrunedIsStored(d, v, content, versions);
    var after := Stored(d, v, content);
    assert v in after.gens;
    ElementsCount(versions);
    if |versions| > LKG_KEEP + 1 {
      var cut := |versions| - (LKG_KEEP + 1);
      ElementsCount(versions[cut..]);
      assert after.gens.Keys <= Elements(versions[cut..]) + {v} by {
        forall k | k in after.gens ensures k in Elements(versions[cut..]) + {v} {
          assert k in Elements(versions);
          var j :| 0 <= j < |versions| && versions[j] == k;
          assert j < cut ==> versions[..cut][j] == k;
          assert j >= cut ==> versions[cut..][j - cut] == k;
        }
      }
      SubsetCount(after.gens.Keys, Elements(versions[cut..]) + {v});
    }
    assert |after.gens| == |after.gens.Keys|;
  }

  /** Unforced imports strictly raise the highest stored version, and what was stored is the highest. */
  lemma UnforcedImportsRaise(d: Disk, op: Import, highest: int)
    requires !op.force && Accepted(d, op) && IsHighest(d.gens.Keys, highest)
    ensures op.version > highest
    ensures IsHighest(Stored(d, op.version, op.content).gens.Keys, op.version)
  {
    assert op.version in Stored(d, op.version, op.content).gens;
  }
}
