/** The versioned flow store (platform/workflow/store.go).

    The disk is a map of whole files: every write is temp+rename, so a file is either the old or the new
    one, and a write may fail without effect.  `images` records each disk image; a crash leaves the last
    one, so a property of all images is a property at every crash point.  Timestamps are left out. */
module FlowStores {
  import opened Wrappers

  type Json = string

  datatype FlowStatus = FlowDraft | FlowPublished | FlowSuspended | FlowRetired | FlowOther(name: string)

  datatype Meta = Meta(flowID: string, alias: string, name: string, status: FlowStatus, draftRevision: int,
                       latestVersion: nat)

  datatype Draft = Draft(revision: int, definition: Json, checksum: string)

  datatype FlowVersion = FlowVersion(version: nat, definition: Json, checksum: string)

  /** `DirPath` is the directory of a flow, which is there before any of its files. */
  datatype Path = DirPath(id: string) | MetaPath(id: string) | DraftPath(id: string)
    | VersionPath(id: string, version: nat)

  datatype File = Directory | MetaFile(meta: Meta) | DraftFile(draft: Draft) | VersionFile(v: FlowVersion)

  type Disk = map<Path, File>

  datatype StoreError =
    | FlowNotFound | AliasTaken | RevisionConflict | VersionNotFound | IsRetired | TooManyFlows
    | InvalidJSON | WriteFailed | VersionExists | ChecksumMismatch | NoPublishedVersion | NotSettable | Unreadable

  datatype OpenError = MetaMissing(dir: string) | MetaCorrupt(dir: string) | AliasDuplicate(alias: string)

  /** Canonical JSON and its digest. */
  datatype Codec = Codec(canon: Json -> Option<Json>, digest: Json -> string) {
    /** Canonicalising twice is canonicalising once. */
    ghost predicate Idempotent() {
      forall x :: canon(x).Some? ==> canon(canon(x).value) == canon(x)
    }

    function Checksum(def: Json): Option<(string, Json)> {
      match canon(def)
      case None => None
      case Some(c) => Some((digest(c), c))
    }

    predicate Verifies(v: FlowVersion) {
      Checksum(v.definition).Some? && Checksum(v.definition).value.0 == v.checksum
    }
  }

  // ---------------------------------------------------------------- what a disk image must satisfy

  ghost predicate HasMeta(disk: Disk, id: string) {
    MetaPath(id) in disk && disk[MetaPath(id)].MetaFile?
  }

  ghost predicate HasDraft(disk: Disk, id: string, atLeast: int, codec: Codec) {
    && DraftPath(id) in disk && disk[DraftPath(id)].DraftFile?
    && var d := disk[DraftPath(id)].draft;
    && d.revision >= atLeast && codec.Checksum(d.definition) == Some((d.checksum, d.definition))
  }

  /** Versions 1..n are on disk under their own numbers and verify. */
  ghost predicate HasVersions(disk: Disk, id: string, n: nat, codec: Codec) {
    forall v | 1 <= v <= n :: VersionIntact(disk, id, v, codec)
  }

  ghost predicate VersionIntact(disk: Disk, id: string, v: nat, codec: Codec) {
    && VersionPath(id, v) in disk && disk[VersionPath(id, v)].VersionFile?
    && disk[VersionPath(id, v)].v.version == v && codec.Verifies(disk[VersionPath(id, v)].v)
  }

  /** The index a restart would read from this image: every flow it names has its draft and all the
      versions it claims, and no alias is used twice. */
  ghost predicate CrashSafe(disk: Disk, codec: Codec) {
    && (forall id | MetaPath(id) in disk :: FlowSafe(disk, id, codec))
    && (forall a, b | MetaPath(a) in disk && MetaPath(b) in disk && a != b ::
          disk[MetaPath(a)].MetaFile? && disk[MetaPath(b)].MetaFile?
          ==> disk[MetaPath(a)].meta.alias != disk[MetaPath(b)].meta.alias)
  }

  ghost predicate FlowSafe(disk: Disk, id: string, codec: Codec) {
    && HasMeta(disk, id) && DirPath(id) in disk
    && var m := disk[MetaPath(id)].meta;
    && m.flowID == id && HasVersions(disk, id, m.latestVersion, codec) && HasDraft(disk, id, m.draftRevision, codec)
  }

  /** Every flow directory has its meta.json. */
  ghost predicate NoOrphans(disk: Disk) {
    forall id :: DirPath(id) in disk ==> MetaPath(id) in disk
  }

  /** What OpenFlowStore accepts: a readable meta.json in every flow directory, and no alias twice. */
  ghost predicate Openable(disk: Disk) {
    && (forall id :: DirPath(id) in disk ==> HasMeta(disk, id))
    && (forall a, b :: DirPath(a) in disk && DirPath(b) in disk && a != b ==>
          disk[MetaPath(a)].meta.alias != disk[MetaPath(b)].meta.alias)
  }

  /** No version file is changed or lost from one image to the other. */
  ghost predicate KeepsVersions(before: Disk, after: Disk) {
    forall id, v | VersionPath(id, v) in before ::
      VersionPath(id, v) in after && after[VersionPath(id, v)] == before[VersionPath(id, v)]
  }

  // ---------------------------------------------------------------- the index

  /** The alias index agrees with a scan of the metas. */
  ghost predicate IndexAgrees(metas: map<string, Meta>, alias: map<string, string>) {
    && (forall id <- metas :: metas[id].alias in alias && alias[metas[id].alias] == id)
    && (forall a <- alias :: alias[a] in metas && metas[alias[a]].alias == a)
  }

  /** Memory is never behind the disk, and both describe the same flows. */
  ghost predicate MemoryFollowsDisk(metas: map<string, Meta>, disk: Disk, codec: Codec) {
    && (forall id :: id in metas <==> MetaPath(id) in disk)
    && (forall id <- metas :: FlowFollows(metas[id], id, disk, codec))
  }

  ghost predicate FlowFollows(m: Meta, id: string, disk: Disk, codec: Codec) {
    && m.flowID == id && HasMeta(disk, id) && DirPath(id) in disk
    && var onDisk := disk[MetaPath(id)].meta;
    && onDisk.alias == m.alias && onDisk.latestVersion <= m.latestVersion && onDisk.draftRevision <= m.draftRevision
    && HasVersions(disk, id, m.latestVersion, codec) && HasDraft(disk, id, m.draftRevision, codec)
  }

  // ---------------------------------------------------------------- single writes

  ghost predicate ImagesOk(images: seq<Disk>, codec: Codec) {
    && (forall img <- images :: CrashSafe(img, codec))
    && (forall i, j | 0 <= i <= j < |images| :: KeepsVersions(images[i], images[j]))
  }

  lemma PushImage(images: seq<Disk>, img: Disk, codec: Codec)
    requires images != [] && ImagesOk(images, codec)
    requires CrashSafe(img, codec) && KeepsVersions(images[|images| - 1], img)
    ensures ImagesOk(images + [img], codec)
  {
    hide CrashSafe;
    var longer := images + [img];
    forall i, j | 0 <= i <= j < |longer| ensures KeepsVersions(longer[i], longer[j]) {
      if j == |images| && i < |images| {
        assert KeepsVersions(images[i], images[|images| - 1]);
      }
    }
  }

  lemma LastIsSafe(images: seq<Disk>, codec: Codec)
    requires images != [] && ImagesOk(images, codec)
    ensures CrashSafe(images[|images| - 1], codec)
  {
  }

  lemma CanonicalDraft(codec: Codec, def: Json)
    requires codec.Idempotent() && codec.Checksum(def).Some?
    ensures var sum := codec.Checksum(def).value; codec.Checksum(sum.1) == Some((sum.0, sum.1))
  {
    assert codec.canon(codec.canon(def).value) == codec.canon(def);
  }

  lemma OtherFlowsSafe(disk: Disk, path: Path, file: File, id: string, codec: Codec)
    requires FlowSafe(disk, id, codec) && path.id != id
    ensures FlowSafe(disk[path := file], id, codec)
  {
    var after := disk[path := file];
    var n := disk[MetaPath(id)].meta.latestVersion;
    forall v | 1 <= v <= n ensures VersionIntact(after, id, v, codec) {
      assert VersionIntact(disk, id, v, codec);
    }
  }

  /** A directory without a meta.json is no flow yet, so the image stays safe for the flows there are. */
  lemma WriteDir(disk: Disk, id: string, codec: Codec)
    requires CrashSafe(disk, codec)
    ensures CrashSafe(disk[DirPath(id) := Directory], codec)
    ensures KeepsVersions(disk, disk[DirPath(id) := Directory])
  {
    var after := disk[DirPath(id) := Directory];
    forall x | MetaPath(x) in after ensures FlowSafe(after, x, codec) {
      assert FlowSafe(disk, x, codec);
      VersionsSurvive(disk, after, x, disk[MetaPath(x)].meta.latestVersion, codec);
    }
  }

  lemma WriteDraft(disk: Disk, id: string, d: Draft, codec: Codec)
    requires CrashSafe(disk, codec) && codec.Checksum(d.definition) == Some((d.checksum, d.definition))
    requires HasMeta(disk, id) ==> d.revision >= disk[MetaPath(id)].meta.draftRevision
    ensures CrashSafe(disk[DraftPath(id) := DraftFile(d)], codec)
    ensures KeepsVersions(disk, disk[DraftPath(id) := DraftFile(d)])
  {
    var after := disk[DraftPath(id) := DraftFile(d)];
    forall x | MetaPath(x) in after ensures FlowSafe(after, x, codec) {
      if x != id {
        OtherFlowsSafe(disk, DraftPath(id), DraftFile(d), x, codec);
      } else {
        VersionsSurvive(disk, after, id, disk[MetaPath(id)].meta.latestVersion, codec);
      }
    }
  }

  lemma VersionsSurvive(disk: Disk, after: Disk, id: string, n: nat, codec: Codec)
    requires HasVersions(disk, id, n, codec) && KeepsVersions(disk, after)
    ensures HasVersions(after, id, n, codec)
  {
    forall v | 1 <= v <= n ensures VersionIntact(after, id, v, codec) {
      assert VersionIntact(disk, id, v, codec);
    }
  }

  lemma WriteVersion(disk: Disk, id: string, v: FlowVersion, codec: Codec)
    requires CrashSafe(disk, codec) && VersionPath(id, v.version) !in disk
    ensures CrashSafe(disk[VersionPath(id, v.version) := VersionFile(v)], codec)
    ensures KeepsVersions(disk, disk[VersionPath(id, v.version) := VersionFile(v)])
  {
    var after := disk[VersionPath(id, v.version) := VersionFile(v)];
    forall x | MetaPath(x) in after ensures FlowSafe(after, x, codec) {
      assert FlowSafe(disk, x, codec);
      VersionsSurvive(disk, after, x, disk[MetaPath(x)].meta.latestVersion, codec);
    }
  }

  lemma WriteMeta(disk: Disk, id: string, m: Meta, codec: Codec)
    requires CrashSafe(disk, codec) && m.flowID == id && DirPath(id) in disk
    requires HasVersions(disk, id, m.latestVersion, codec) && HasDraft(disk, id, m.draftRevision, codec)
    requires forall x | MetaPath(x) in disk && x != id :: disk[MetaPath(x)].MetaFile? ==>
      disk[MetaPath(x)].meta.alias != m.alias
    ensures CrashSafe(disk[MetaPath(id) := MetaFile(m)], codec)
    ensures KeepsVersions(disk, disk[MetaPath(id) := MetaFile(m)])
  {
    var after := disk[MetaPath(id) := MetaFile(m)];
    forall x | MetaPath(x) in after ensures FlowSafe(after, x, codec) {
      if x != id {
        OtherFlowsSafe(disk, MetaPath(id), MetaFile(m), x, codec);
      } else {
        VersionsSurvive(disk, after, id, m.latestVersion, codec);
      }
    }
  }

  lemma OthersFollow(m: Meta, x: string, disk: Disk, path: Path, file: File, codec: Codec)
    requires FlowFollows(m, x, disk, codec) && KeepsVersions(disk, disk[path := file])
    requires path.id != x || (path.VersionPath? && path !in disk)
    ensures FlowFollows(m, x, disk[path := file], codec)
  {
    VersionsSurvive(disk, disk[path := file], x, m.latestVersion, codec);
  }

  /** A flow that takes an edit or a publish under this revision. */
  predicate Editable(metas: map<string, Meta>, id: string, expectRevision: int) {
    id in metas && metas[id].status != FlowRetired && metas[id].draftRevision == expectRevision
  }

  /** Retiring is always possible; anything else needs a published version and a flow not retired. */
  function StatusResult(m: Meta, status: FlowStatus, io: bool): Result<Meta, StoreError> {
    if status !in {FlowPublished, FlowSuspended, FlowRetired} then Failure(NotSettable)
    else if status != FlowRetired && m.latestVersion == 0 then Failure(NoPublishedVersion)
    else if status != FlowRetired && m.status == FlowRetired then Failure(IsRetired)
    else if io then Success(m.(status := status)) else Failure(WriteFailed)
  }

  function PublishedMeta(m: Meta): Meta {
    m.(latestVersion := m.latestVersion + 1, status := FlowPublished)
  }

  class FlowStore {
    const codec: Codec
    const maxFlows: int
    var metas: map<string, Meta>
    var alias: map<string, string>
    var disk: Disk
    ghost var images: seq<Disk>

    ghost predicate Valid()
      reads this
    {
      && codec.Idempotent()
      && IndexAgrees(metas, alias)
      && MemoryFollowsDisk(metas, disk, codec)
      && images != [] && images[|images| - 1] == disk && ImagesOk(images, codec)
    }

    /** What no operation undoes: images are only added, versions never change, revisions and version
        numbers never fall, aliases are fixed and retirement is final. */
    twostate predicate Kept()
      reads this
    {
      && old(images) <= images
      && KeepsVersions(old(disk), disk)
      && (forall id <- old(metas) :: id in metas && FlowKept(old(metas)[id], metas[id]))
    }

    /** No operation but Create makes a disk that a restart refuses, at any point. */
    twostate predicate StaysOpenable()
      reads this
    {
      old(NoOrphans(disk)) ==> NoOrphans(disk) && forall i :: |old(images)| <= i < |images| ==> NoOrphans(images[i])
    }

    constructor Loaded(image: Disk, metas: map<string, Meta>, alias: map<string, string>, codec: Codec, maxFlows: int)
      ensures this.disk == image && this.metas == metas && this.alias == alias && images == [image]
      ensures this.codec == codec && this.maxFlows == maxFlows
    {
      this.codec, this.maxFlows, this.disk, this.images := codec, maxFlows, image, [image];
      this.metas, this.alias := metas, alias;
    }

    /** OpenFlowStore on any image of the disk. */
    static method Open(image: Disk, codec: Codec, maxFlows: int) returns (r: Result<FlowStore, OpenError>)
      requires codec.Idempotent()
      ensures r.Success? <==> Openable(image)
      ensures r.Failure? ==> Refuses(image, r.error)
      ensures r.Success? ==>
        fresh(r.value) && r.value.disk == image && r.value.codec == codec && r.value.maxFlows == maxFlows
      ensures r.Success? && CrashSafe(image, codec) ==> r.value.Valid() && IsIndexOf(r.value.metas, image)
    {
      hide CrashSafe, IndexAgrees, MemoryFollowsDisk, ImagesOk, Codec.Idempotent, Openable, Scanned, Refuses;
      var metas, alias := map[], map[];
      var todo := set p | p in image && p.DirPath? :: p.id;
      NothingScanned(image, todo, codec);
      while todo != {}
        invariant forall id <- todo :: DirPath(id) in image
        invariant Scanned(image, todo, alias)
        invariant CrashSafe(image, codec) ==> IndexAgrees(metas, alias) && IndexSoFar(metas, image, todo)
        decreases todo
      {
        var id :| id in todo;
        if MetaPath(id) !in image {
          MissingRefused(image, id);
          return Failure(MetaMissing(id));
        }
        if !image[MetaPath(id)].MetaFile? {
          CorruptRefused(image, id);
          return Failure(MetaCorrupt(id));
        }
        var m := image[MetaPath(id)].meta;
        if m.alias in alias {
          DuplicateRefused(image, todo, alias, id);
          return Failure(AliasDuplicate(m.alias));
        }
        ScanStep(image, todo, alias, id, m.flowID);
        if CrashSafe(image, codec) {
          LoadOne(metas, alias, image, todo, id, codec);
        }
        metas, alias := metas[m.flowID := m], alias[m.alias := m.flowID];
        todo := todo - {id};
      }
      AllScanned(image, todo, alias);
      if CrashSafe(image, codec) {
        ReopenFollows(metas, image, codec);
      }
      var store := new FlowStore.Loaded(image, metas, alias, codec, maxFlows);
      return Success(store);
    }

    /** One atomic write, which fails without effect when `io` is false. */
    method Write(path: Path, file: File, io: bool) returns (ok: bool)
      requires images != [] && images[|images| - 1] == disk && ImagesOk(images, codec)
      requires CrashSafe(disk[path := file], codec) && KeepsVersions(disk, disk[path := file])
      modifies `disk, `images
      ensures ok == io && images == if io then old(images) + [disk] else old(images)
      ensures images != [] && images[|images| - 1] == disk && ImagesOk(images, codec)
      ensures !path.DirPath? ==> StaysOpenable()
      ensures disk == if io then old(disk)[path := file] else old(disk)
    {
      if io {
        PushImage(images, disk[path := file], codec);
        disk := disk[path := file];
        images := images + [disk];
      }
      return io;
    }

    /** Writes the meta of a known flow whose memory record is `metas[id]`. */
    method WriteIndex(id: string, io: bool) returns (ok: bool)
      requires Valid() && id in metas
      modifies `disk, `images
      ensures Valid() && ok == io && KeepsVersions(old(disk), disk) && StaysOpenable()
      ensures images == if io then old(images) + [disk] else old(images)
      ensures disk == if io then old(disk)[MetaPath(id) := MetaFile(metas[id])] else old(disk)
    {
      hide CrashSafe, ImagesOk, HasVersions, HasDraft, IndexAgrees;
      AliasesDiffer(metas, alias, disk, id, codec);
      LastIsSafe(images, codec);
      assert FlowFollows(metas[id], id, disk, codec);
      WriteMeta(disk, id, metas[id], codec);
      ok := Write(MetaPath(id), MetaFile(metas[id]), io);
      if io {
        IndexWritten(metas, old(disk), id, codec);
      }
    }

    method UpdateDraft(id: string, expectRevision: int, def: Json, ioDraft: bool, ioMeta: bool)
      returns (r: Result<Draft, StoreError>)
      requires Valid()
      modifies this
      ensures Valid() && Kept() && StaysOpenable() && alias == old(alias)
      ensures id !in old(metas) ==> r == Failure(FlowNotFound)
      ensures id in old(metas) && old(metas)[id].status == FlowRetired ==> r == Failure(IsRetired)
      ensures id in old(metas) && old(metas)[id].status != FlowRetired
        ==> (old(metas)[id].draftRevision != expectRevision ==> r == Failure(RevisionConflict))
      ensures Editable(old(metas), id, expectRevision) ==>
        r == match codec.Checksum(def)
             case None => Failure(InvalidJSON)
             case Some(c) =>
               if ioDraft && ioMeta then Success(Draft(expectRevision + 1, c.1, c.0)) else Failure(WriteFailed)
      ensures r.Failure? && r.error != WriteFailed ==> metas == old(metas) && disk == old(disk)
      ensures r == Failure(WriteFailed) ==>
        metas == if ioDraft then old(metas)[id := old(metas)[id].(draftRevision := expectRevision + 1)] else old(metas)
      ensures r.Success? ==>
        && codec.Checksum(def) == Some((r.value.checksum, r.value.definition)) && r.value.revision == expectRevision + 1
        && metas == old(metas)[id := old(metas)[id].(draftRevision := expectRevision + 1)]
        && disk == old(disk)[DraftPath(id) := DraftFile(r.value)][MetaPath(id) := MetaFile(metas[id])]
    {
      hide CrashSafe, ImagesOk, HasVersions, IndexAgrees;
      if id !in metas {
        return Failure(FlowNotFound);
      }
      var m := metas[id];
      if m.status == FlowRetired {
        return Failure(IsRetired);
      }
      if m.draftRevision != expectRevision {
        return Failure(RevisionConflict);
      }
      var sum := codec.Checksum(def);
      if sum.None? {
        return Failure(InvalidJSON);
      }
      CanonicalDraft(codec, def);
      var d := Draft(expectRevision + 1, sum.value.1, sum.value.0);
      var ok := CommitDraft(id, d, ioDraft, ioMeta);
      if !ok {
        return Failure(WriteFailed);
      }
      return Success(d);
    }

    /** draft.json, the memory record, meta.json, in that order. */
    method CommitDraft(id: string, d: Draft, ioDraft: bool, ioMeta: bool) returns (ok: bool)
      requires Valid() && id in metas && metas[id].status != FlowRetired && d.revision > metas[id].draftRevision
      requires codec.Checksum(d.definition) == Some((d.checksum, d.definition))
      modifies `metas, `disk, `images
      ensures Valid() && old(images) <= images && StaysOpenable()
      ensures KeepsVersions(old(disk), disk) && ok == (ioDraft && ioMeta)
      ensures metas == if ioDraft then old(metas)[id := old(metas)[id].(draftRevision := d.revision)] else old(metas)
      ensures ok ==> disk == old(disk)[DraftPath(id) := DraftFile(d)][MetaPath(id) := MetaFile(metas[id])]
      ensures !ioDraft ==> disk == old(disk)
      ensures ioDraft && !ioMeta ==> disk == old(disk)[DraftPath(id) := DraftFile(d)]
    {
      hide CrashSafe, ImagesOk, HasVersions, IndexAgrees, HasDraft, Codec.Checksum, Codec.Idempotent;
      LastIsSafe(images, codec);
      assert FlowFollows(metas[id], id, disk, codec);
      WriteDraft(disk, id, d, codec);
      ok := Write(DraftPath(id), DraftFile(d), ioDraft);
      if !ok {
        return;
      }
      DraftWritten(metas, old(disk), id, d, codec);
      IndexKept(metas, alias, id, metas[id].(draftRevision := d.revision));
      metas := metas[id := metas[id].(draftRevision := d.revision)];
      ok := WriteIndex(id, ioMeta);
    }

    method Publish(id: string, expectRevision: int, ioVersion: bool, ioMeta: bool)
      returns (r: Result<FlowVersion, StoreError>)
      requires Valid()
      modifies this
      ensures Valid() && Kept() && StaysOpenable() && alias == old(alias)
      ensures id !in old(metas) ==> r == Failure(FlowNotFound)
      ensures id in old(metas) && old(metas)[id].status == FlowRetired ==> r == Failure(IsRetired)
      ensures id in old(metas) && old(metas)[id].status != FlowRetired
        ==> (old(metas)[id].draftRevision != expectRevision ==> r == Failure(RevisionConflict))
      ensures Editable(old(metas), id, expectRevision) ==>
        && (r == Failure(VersionExists) <==> VersionPath(id, old(metas)[id].latestVersion + 1) in old(disk))
        && (r.Success? <==> VersionPath(id, old(metas)[id].latestVersion + 1) !in old(disk) && ioVersion && ioMeta)
        && (r.Failure? ==> r.error in {VersionExists, WriteFailed})
      ensures r.Failure? && r.error != WriteFailed ==> metas == old(metas) && disk == old(disk)
      ensures r == Failure(WriteFailed) && !ioVersion ==> metas == old(metas) && disk == old(disk)
      ensures r == Failure(WriteFailed) && ioVersion ==>
        && VersionPath(id, old(metas)[id].latestVersion + 1) in disk
        && metas == old(metas)[id := PublishedMeta(old(metas)[id])]
      ensures r.Success? ==>
        && var ver := old(metas)[id].latestVersion + 1;
        && VersionPath(id, ver) !in old(disk) && DraftPath(id) in old(disk) && old(disk)[DraftPath(id)].DraftFile?
        && var d := old(disk)[DraftPath(id)].draft;
        && r.value == FlowVersion(ver, d.definition, d.checksum)
        && id in metas && metas[id].status == FlowPublished && metas[id].latestVersion == r.value.version
        && metas[id].alias == old(metas)[id].alias && metas[id].draftRevision == expectRevision
        && metas == old(metas)[id := PublishedMeta(old(metas)[id])]
        && disk == old(disk)[VersionPath(id, ver) := VersionFile(r.value)][MetaPath(id) := MetaFile(metas[id])]
    {
      hide CrashSafe, ImagesOk, IndexAgrees, KeepsVersions, NoOrphans;
      VersionsKeptSame(disk);
      if id !in metas {
        return Failure(FlowNotFound);
      }
      var m := metas[id];
      if m.status == FlowRetired {
        return Failure(IsRetired);
      }
      if m.draftRevision != expectRevision {
        return Failure(RevisionConflict);
      }
      assert FlowFollows(m, id, disk, codec);
      var d := disk[DraftPath(id)].draft;
      var ver := m.latestVersion + 1;
      if VersionPath(id, ver) in disk {
        return Failure(VersionExists);
      }
      var fv := FlowVersion(ver, d.definition, d.checksum);
      var ok := CommitVersion(id, fv, ioVersion, ioMeta);
      if !ok {
        return Failure(WriteFailed);
      }
      return Success(fv);
    }

    /** v<N>.json, the memory record, meta.json, in that order. */
    method CommitVersion(id: string, fv: FlowVersion, ioVersion: bool, ioMeta: bool) returns (ok: bool)
      requires Valid() && id in metas && metas[id].status != FlowRetired && fv.version == metas[id].latestVersion + 1
      requires VersionPath(id, fv.version) !in disk && codec.Verifies(fv)
      modifies `metas, `disk, `images
      ensures Valid() && old(images) <= images && StaysOpenable()
      ensures KeepsVersions(old(disk), disk) && ok == (ioVersion && ioMeta)
      ensures metas == if ioVersion then old(metas)[id := PublishedMeta(old(metas)[id])] else old(metas)
      ensures ok ==>
        disk == old(disk)[VersionPath(id, fv.version) := VersionFile(fv)][MetaPath(id) := MetaFile(metas[id])]
      ensures !ioVersion ==> disk == old(disk)
      ensures ioVersion && !ioMeta ==> disk == old(disk)[VersionPath(id, fv.version) := VersionFile(fv)]
    {
      hide CrashSafe, ImagesOk, MemoryFollowsDisk, IndexAgrees, KeepsVersions, NoOrphans;
      hide Codec.Idempotent, Codec.Verifies;
      VersionsKeptSame(disk);
      LastIsSafe(images, codec);
      WriteVersion(disk, id, fv, codec);
      ok := Write(VersionPath(id, fv.version), VersionFile(fv), ioVersion);
      if !ok {
        return;
      }
      ghost var written := disk;
      VersionWritten(metas, old(disk), id, fv, codec);
      IndexKept(metas, alias, id, PublishedMeta(metas[id]));
      metas := metas[id := PublishedMeta(metas[id])];
      ok := WriteIndex(id, ioMeta);
      VersionsKeptOn(old(disk), written, disk);
    }

    method SetStatus(id: string, status: FlowStatus, io: bool) returns (r: Result<Meta, StoreError>)
      requires Valid()
      modifies this
      ensures Valid() && Kept() && StaysOpenable() && alias == old(alias)
      ensures id !in old(metas) ==> r == Failure(FlowNotFound)
      ensures r.Failure? && r.error != WriteFailed ==> metas == old(metas) && disk == old(disk)
      ensures id in old(metas) ==> r == StatusResult(old(metas)[id], status, io)
      ensures r == Failure(WriteFailed) ==>
        metas == old(metas)[id := old(metas)[id].(status := status)] && disk == old(disk)
      ensures r.Success? ==>
        && id in old(metas) && r.value == old(metas)[id].(status := status)
        && status in {FlowPublished, FlowSuspended, FlowRetired}
        && (status != FlowRetired ==> old(metas)[id].status != FlowRetired && old(metas)[id].latestVersion > 0)
        && metas == old(metas)[id := r.value] && disk == old(disk)[MetaPath(id) := MetaFile(r.value)]
    {
      hide CrashSafe, ImagesOk, IndexAgrees, MemoryFollowsDisk, KeepsVersions, NoOrphans;
      VersionsKeptSame(disk);
      if id !in metas {
        return Failure(FlowNotFound);
      }
      var m := metas[id];
      match status {
        case FlowSuspended | FlowPublished =>
          if m.latestVersion == 0 {
            return Failure(NoPublishedVersion);
          }
          if m.status == FlowRetired {
            return Failure(IsRetired);
          }
        case FlowRetired =>
        case _ =>
          return Failure(NotSettable);
      }
      StatusChanged(metas, disk, id, status, codec);
      metas := metas[id := m.(status := status)];
      IndexKept(old(metas), alias, id, metas[id]);
      var ok := WriteIndex(id, io);
      if !ok {
        return Failure(WriteFailed);
      }
      return Success(metas[id]);
    }

    /** `ioDir`, `ioDraft` and `ioMeta` say which of the three file operations succeed. */
    method Create(def: Json, newAlias: string, name: string, freshID: string, ioDir: bool, ioDraft: bool, ioMeta: bool)
      returns (r: Result<Meta, StoreError>)
      requires Valid() && forall p <- disk :: p.id != freshID
      modifies this
      ensures Valid() && Kept()
      ensures r ==
        if maxFlows > 0 && |old(metas)| >= maxFlows then Failure(TooManyFlows)
        else if newAlias in old(alias) then Failure(AliasTaken)
        else if codec.Checksum(def).None? then Failure(InvalidJSON)
        else if ioDir && ioDraft && ioMeta then Success(Meta(freshID, newAlias, name, FlowDraft, 1, 0))
        else Failure(WriteFailed)
      ensures r.Failure? ==> metas == old(metas) && alias == old(alias)
      ensures r.Failure? && r.error != WriteFailed ==> disk == old(disk) && images == old(images)
      ensures r == Failure(WriteFailed) ==> disk == Creating(old(disk), codec.Checksum(def), freshID, ioDir, ioDraft)
      ensures r.Success? ==>
        && freshID !in old(metas)
        && metas == old(metas)[freshID := r.value] && alias == old(alias)[newAlias := freshID]
        && disk == Creating(old(disk), codec.Checksum(def), freshID, true, true)[MetaPath(freshID) := MetaFile(r.value)]
      // a restart refuses every image but the first and the last
      ensures r == Failure(WriteFailed) && ioDir ==> !NoOrphans(disk)
      ensures r.Success? ==> |images| == |old(images)| + 3 && (old(NoOrphans(disk)) ==> NoOrphans(disk))
      ensures forall i :: |old(images)| <= i < |images| && images[i] != disk ==> !NoOrphans(images[i])
    {
      hide CrashSafe, ImagesOk, MemoryFollowsDisk, IndexAgrees;
      if maxFlows > 0 && |metas| >= maxFlows {
        return Failure(TooManyFlows);
      }
      if newAlias in alias {
        return Failure(AliasTaken);
      }
      var sum := codec.Checksum(def);
      if sum.None? {
        return Failure(InvalidJSON);
      }
      var m := Meta(freshID, newAlias, name, FlowDraft, 1, 0);
      var d := Draft(1, sum.value.1, sum.value.0);
      CanonicalDraft(codec, def);
      assert DirPath(freshID).id == MetaPath(freshID).id == DraftPath(freshID).id == freshID;
      var ok := CommitFlow(m, d, ioDir, ioDraft, ioMeta);
      if !ok {
        return Failure(WriteFailed);
      }
      return Success(m);
    }

    /** The directory, draft.json, meta.json, the memory record, in that order. */
    method CommitFlow(m: Meta, d: Draft, ioDir: bool, ioDraft: bool, ioMeta: bool) returns (ok: bool)
      requires Valid() && m.alias !in alias
      requires DirPath(m.flowID) !in disk && MetaPath(m.flowID) !in disk && DraftPath(m.flowID) !in disk
      requires m.latestVersion == 0 && d.revision == m.draftRevision
      requires codec.Checksum(d.definition) == Some((d.checksum, d.definition))
      modifies `metas, `alias, `disk, `images
      ensures old(images) <= images && KeepsVersions(old(disk), disk) && ok == (ioDir && ioDraft && ioMeta)
      ensures Valid() && m.flowID !in old(metas)
      ensures ok ==> metas == old(metas)[m.flowID := m] && alias == old(alias)[m.alias := m.flowID]
      ensures !ok ==> metas == old(metas) && alias == old(alias)
      ensures disk == AfterCreate(old(disk), m, d, ioDir, ioDraft, ioMeta)
      ensures ok ==> |images| == |old(images)| + 3
      ensures forall i :: |old(images)| <= i < |images| && !(ok && i == |images| - 1) ==>
        DirPath(m.flowID) in images[i] && MetaPath(m.flowID) !in images[i]
    {
      hide CrashSafe, ImagesOk, HasVersions, HasDraft, FlowFollows, IndexAgrees, Codec.Checksum, Codec.Idempotent;
      hide KeepsVersions, NoOrphans, MemoryFollowsDisk;
      var id := m.flowID;
      NotYetKnown(metas, disk, id, codec);
      ok := CommitOrphan(id, d, ioDir, ioDraft);
      if !ok {
        return;
      }
      NewAliasDiffers(metas, alias, disk, id, m.alias, codec);
      ghost var orphan := disk;
      NewFlowReady(old(disk)[DirPath(id) := Directory], id, d, codec);
      LastIsSafe(images, codec);
      WriteMeta(disk, id, m, codec);
      VersionsKeptOn(old(disk), orphan, orphan[MetaPath(id) := MetaFile(m)]);
      ok := Write(MetaPath(id), MetaFile(m), ioMeta);
      if !ok {
        return;
      }
      FlowCreated(metas, orphan, m, codec);
      IndexGrows(metas, alias, m);
      metas := metas[id := m];
      alias := alias[m.alias := id];
    }

    /** The directory and draft.json of a flow that has no meta.json yet. */
    method CommitOrphan(id: string, d: Draft, ioDir: bool, ioDraft: bool) returns (ok: bool)
      requires Valid() && DirPath(id) !in disk && MetaPath(id) !in disk && DraftPath(id) !in disk
      requires codec.Checksum(d.definition) == Some((d.checksum, d.definition))
      modifies `disk, `images
      ensures Valid() && KeepsVersions(old(disk), disk) && ok == (ioDir && ioDraft)
      ensures disk == if !ioDir then old(disk)
                      else if !ioDraft then old(disk)[DirPath(id) := Directory]
                      else old(disk)[DirPath(id) := Directory][DraftPath(id) := DraftFile(d)]
      ensures old(images) <= images && |images| == |old(images)| + (if ioDir then if ioDraft then 2 else 1 else 0)
      ensures forall i :: |old(images)| <= i < |images| ==> DirPath(id) in images[i] && MetaPath(id) !in images[i]
    {
      hide CrashSafe, ImagesOk, HasVersions, HasDraft, FlowFollows, IndexAgrees, Codec.Checksum, Codec.Idempotent;
      hide KeepsVersions, NoOrphans, MemoryFollowsDisk;
      NotYetKnown(metas, disk, id, codec);
      LastIsSafe(images, codec);
      WriteDir(disk, id, codec);
      ok := Write(DirPath(id), Directory, ioDir);
      if !ok {
        VersionsKeptSame(disk);
        return;
      }
      OrphanWritten(metas, old(disk), DirPath(id), Directory, codec);
      ghost var bare := disk;
      LastIsSafe(images, codec);
      WriteDraft(disk, id, d, codec);
      VersionsKeptOn(old(disk), bare, bare[DraftPath(id) := DraftFile(d)]);
      ok := Write(DraftPath(id), DraftFile(d), ioDraft);
      if ok {
        OrphanWritten(metas, bare, DraftPath(id), DraftFile(d), codec);
      }
    }

    /** Only published flows resolve, to the newest version. */
    method ResolveAlias(a: string) returns (r: Option<(string, nat)>)
      requires Valid()
      ensures r.Some? <==> exists id <- metas ::
        metas[id].alias == a && metas[id].status == FlowPublished && metas[id].latestVersion > 0
      ensures r.Some? ==>
        && r.value.0 in metas && metas[r.value.0].alias == a
        && metas[r.value.0].status == FlowPublished && metas[r.value.0].latestVersion == r.value.1 > 0
    {
      hide MemoryFollowsDisk, ImagesOk;
      if a !in alias {
        return None;
      }
      var m := metas[alias[a]];
      if m.status != FlowPublished || m.latestVersion == 0 {
        return None;
      }
      return Some((alias[a], m.latestVersion));
    }

    /** A published version always loads and verifies. */
    method GetVersion(id: string, version: nat) returns (r: Result<FlowVersion, StoreError>)
      requires Valid()
      ensures id !in metas ==> r == Failure(FlowNotFound)
      ensures r.Success? ==> VersionPath(id, version) in disk && codec.Verifies(r.value)
      ensures r.Success? ==> disk[VersionPath(id, version)] == VersionFile(r.value)
      ensures id in metas && 1 <= version <= metas[id].latestVersion ==> r.Success? && r.value.version == version
      ensures id in metas && VersionPath(id, version) !in disk ==> r == Failure(VersionNotFound)
      ensures id in metas && VersionPath(id, version) in disk ==>
        && var file := disk[VersionPath(id, version)];
        && (!file.VersionFile? ==> r == Failure(Unreadable))
        && (file.VersionFile? ==>
             var canonical := codec.canon(file.v.definition);
             r == if canonical.Some? && codec.digest(canonical.value) == file.v.checksum then Success(file.v)
                  else Failure(ChecksumMismatch))
    {
      hide ImagesOk, IndexAgrees;
      if id !in metas {
        return Failure(FlowNotFound);
      }
      assert FlowFollows(metas[id], id, disk, codec);
      assert 1 <= version <= metas[id].latestVersion ==> VersionIntact(disk, id, version, codec);
      if VersionPath(id, version) !in disk {
        return Failure(VersionNotFound);
      }
      if !disk[VersionPath(id, version)].VersionFile? {
        return Failure(Unreadable);
      }
      var fv := disk[VersionPath(id, version)].v;
      if !codec.Verifies(fv) {
        return Failure(ChecksumMismatch);
      }
      return Success(fv);
    }
  }

  // ---------------------------------------------------------------- memory after a write

  lemma NewFlowReady(disk: Disk, id: string, d: Draft, codec: Codec)
    requires codec.Checksum(d.definition) == Some((d.checksum, d.definition))
    ensures HasVersions(disk[DraftPath(id) := DraftFile(d)], id, 0, codec)
    ensures HasDraft(disk[DraftPath(id) := DraftFile(d)], id, d.revision, codec)
  {
  }

  lemma IndexGrows(metas: map<string, Meta>, alias: map<string, string>, m: Meta)
    requires IndexAgrees(metas, alias) && m.flowID !in metas && m.alias !in alias
    ensures IndexAgrees(metas[m.flowID := m], alias[m.alias := m.flowID])
  {
  }

  // ---------------------------------------------------------------- opening

  /** The alias index of the directories already read. */
  ghost predicate Scanned(image: Disk, todo: set<string>, alias: map<string, string>) {
    && (forall id :: DirPath(id) in image && id !in todo ==>
          HasMeta(image, id) && image[MetaPath(id)].meta.alias in alias)
    && (forall a <- alias :: Found(image, todo, a))
    && (forall a, b :: DirPath(a) in image && DirPath(b) in image && a !in todo && b !in todo && a != b ==>
          image[MetaPath(a)].meta.alias != image[MetaPath(b)].meta.alias)
  }

  ghost predicate Found(image: Disk, todo: set<string>, a: string) {
    exists id :: id !in todo && UsesAlias(image, id, a)
  }

  ghost predicate UsesAlias(image: Disk, id: string, a: string) {
    DirPath(id) in image && HasMeta(image, id) && image[MetaPath(id)].meta.alias == a
  }

  ghost predicate ShareAlias(image: Disk, x: string, y: string, a: string) {
    UsesAlias(image, x, a) && UsesAlias(image, y, a)
  }

  /** The error names a directory that is the reason. */
  ghost predicate Refuses(image: Disk, e: OpenError) {
    match e
    case MetaMissing(id) => DirPath(id) in image && MetaPath(id) !in image
    case MetaCorrupt(id) => DirPath(id) in image && MetaPath(id) in image && !image[MetaPath(id)].MetaFile?
    case AliasDuplicate(a) =>
      exists x, y :: x != y && ShareAlias(image, x, y, a)
  }

  ghost predicate IndexSoFar(metas: map<string, Meta>, image: Disk, todo: set<string>) {
    && (forall id :: id in metas <==> DirPath(id) in image && id !in todo)
    && (forall id <- metas :: HasMeta(image, id) && metas[id] == image[MetaPath(id)].meta)
  }

  ghost predicate IsIndexOf(metas: map<string, Meta>, image: Disk) {
    && (forall id :: id in metas <==> MetaPath(id) in image)
    && (forall id <- metas :: HasMeta(image, id) && metas[id] == image[MetaPath(id)].meta)
  }

  lemma NothingScanned(image: Disk, todo: set<string>, codec: Codec)
    requires todo == set p | p in image && p.DirPath? :: p.id
    ensures Scanned(image, todo, map[]) && IndexAgrees(map[], map[]) && IndexSoFar(map[], image, todo)
    ensures forall id <- todo :: DirPath(id) in image
  {
    forall id | DirPath(id) in image ensures id in todo {
      assert DirPath(id).DirPath?;
    }
  }

  lemma MissingRefused(image: Disk, id: string)
    requires DirPath(id) in image && MetaPath(id) !in image
    ensures !Openable(image) && Refuses(image, MetaMissing(id))
  {
  }

  lemma CorruptRefused(image: Disk, id: string)
    requires DirPath(id) in image && MetaPath(id) in image && !image[MetaPath(id)].MetaFile?
    ensures !Openable(image) && Refuses(image, MetaCorrupt(id))
  {
  }

  lemma DuplicateRefused(image: Disk, todo: set<string>, alias: map<string, string>, id: string)
    requires Scanned(image, todo, alias) && id in todo && DirPath(id) in image && HasMeta(image, id)
    requires image[MetaPath(id)].meta.alias in alias
    ensures !Openable(image) && Refuses(image, AliasDuplicate(image[MetaPath(id)].meta.alias))
  {
    var a := image[MetaPath(id)].meta.alias;
    assert Found(image, todo, a) && UsesAlias(image, id, a);
    hide Openable, Scanned, UsesAlias;
    var x :| x !in todo && UsesAlias(image, x, a);
    assert ShareAlias(image, x, id, a);
    SharedAliasRefused(image, x, id, a);
  }

  lemma SharedAliasRefused(image: Disk, x: string, y: string, a: string)
    requires x != y && ShareAlias(image, x, y, a)
    ensures !Openable(image)
  {
  }

  lemma ScanStep(image: Disk, todo: set<string>, alias: map<string, string>, id: string, flowID: string)
    requires Scanned(image, todo, alias) && id in todo && DirPath(id) in image && HasMeta(image, id)
    requires image[MetaPath(id)].meta.alias !in alias
    ensures Scanned(image, todo - {id}, alias[image[MetaPath(id)].meta.alias := flowID])
  {
    var a := image[MetaPath(id)].meta.alias;
    assert UsesAlias(image, id, a) && Found(image, todo - {id}, a);
    forall b | b in alias ensures Found(image, todo - {id}, b) {
      FoundStays(image, todo, id, b);
    }
  }

  lemma FoundStays(image: Disk, todo: set<string>, id: string, a: string)
    requires Found(image, todo, a)
    ensures Found(image, todo - {id}, a)
  {
    hide UsesAlias;
  }

  lemma AllScanned(image: Disk, todo: set<string>, alias: map<string, string>)
    requires Scanned(image, todo, alias) && todo == {}
    ensures Openable(image)
  {
  }

  /** Flows of a crash-safe image sit in their own directories, so loading one more keeps the index right. */
  lemma LoadOne(metas: map<string, Meta>, alias: map<string, string>, image: Disk, todo: set<string>, id: string,
                codec: Codec)
    requires CrashSafe(image, codec) && IndexAgrees(metas, alias) && IndexSoFar(metas, image, todo)
    requires id in todo && DirPath(id) in image && HasMeta(image, id) && image[MetaPath(id)].meta.alias !in alias
    ensures var m := image[MetaPath(id)].meta;
      && m.flowID == id && IndexAgrees(metas[id := m], alias[m.alias := id])
      && IndexSoFar(metas[id := m], image, todo - {id})
  {
    assert FlowSafe(image, id, codec);
    IndexGrows(metas, alias, image[MetaPath(id)].meta);
  }

  lemma ReopenFollows(metas: map<string, Meta>, image: Disk, codec: Codec)
    requires CrashSafe(image, codec) && IndexSoFar(metas, image, {})
    ensures MemoryFollowsDisk(metas, image, codec) && ImagesOk([image], codec) && IsIndexOf(metas, image)
  {
    forall id | MetaPath(id) in image ensures id in metas {
      assert FlowSafe(image, id, codec);
    }
    forall id | id in metas ensures FlowFollows(metas[id], id, image, codec) {
      assert FlowSafe(image, id, codec);
    }
  }

  /** Among the images this store can leave, those that a restart accepts are exactly those in which every
      flow directory has its meta.json. */
  lemma OpenableIff(image: Disk, codec: Codec)
    requires CrashSafe(image, codec)
    ensures Openable(image) <==> NoOrphans(image)
  {
    if NoOrphans(image) {
      forall id | DirPath(id) in image ensures HasMeta(image, id) {
        assert FlowSafe(image, id, codec);
      }
    }
  }

  /** The disk during Create, after the directory and the draft. */
  function Creating(disk: Disk, sum: Option<(string, Json)>, id: string, dirDone: bool, draftDone: bool): Disk
    requires sum.Some?
  {
    if !dirDone then disk
    else if !draftDone then disk[DirPath(id) := Directory]
    else disk[DirPath(id) := Directory][DraftPath(id) := DraftFile(Draft(1, sum.value.1, sum.value.0))]
  }

  function AfterCreate(disk: Disk, m: Meta, d: Draft, ioDir: bool, ioDraft: bool, ioMeta: bool): Disk {
    if !ioDir then disk
    else if !ioDraft then disk[DirPath(m.flowID) := Directory]
    else if !ioMeta then disk[DirPath(m.flowID) := Directory][DraftPath(m.flowID) := DraftFile(d)]
    else disk[DirPath(m.flowID) := Directory][DraftPath(m.flowID) := DraftFile(d)][MetaPath(m.flowID) := MetaFile(m)]
  }

  /** Create stopped after its directory, or after its draft: no restart opens the store again. */
  lemma InterruptedCreateIsRefused(disk: Disk, sum: Option<(string, Json)>, id: string, draftDone: bool)
    requires sum.Some? && forall p <- disk :: p.id != id
    ensures !Openable(Creating(disk, sum, id, true, draftDone))
    ensures Refuses(Creating(disk, sum, id, true, draftDone), MetaMissing(id))
  {
    var image := Creating(disk, sum, id, true, draftDone);
    assert MetaPath(id).id == id;
    MissingRefused(image, id);
  }

  lemma StatusChanged(metas: map<string, Meta>, disk: Disk, id: string, status: FlowStatus, codec: Codec)
    requires MemoryFollowsDisk(metas, disk, codec) && id in metas
    ensures MemoryFollowsDisk(metas[id := metas[id].(status := status)], disk, codec)
  {
    hide HasVersions, HasDraft;
    assert FlowFollows(metas[id], id, disk, codec);
  }

  lemma NotYetKnown(metas: map<string, Meta>, disk: Disk, id: string, codec: Codec)
    requires MemoryFollowsDisk(metas, disk, codec) && MetaPath(id) !in disk
    ensures id !in metas
  {
  }

  lemma VersionsKeptSame(disk: Disk)
    ensures KeepsVersions(disk, disk)
  {
  }

  lemma VersionsKeptOn(a: Disk, b: Disk, c: Disk)
    requires KeepsVersions(a, b) && KeepsVersions(b, c)
    ensures KeepsVersions(a, c)
  {
  }

  lemma AliasesDiffer(metas: map<string, Meta>, alias: map<string, string>, disk: Disk, id: string, codec: Codec)
    requires IndexAgrees(metas, alias) && MemoryFollowsDisk(metas, disk, codec) && id in metas
    ensures forall x | MetaPath(x) in disk && x != id :: disk[MetaPath(x)].MetaFile? ==>
      disk[MetaPath(x)].meta.alias != metas[id].alias
  {
    hide HasVersions, HasDraft;
    forall x | MetaPath(x) in disk && x != id
      ensures disk[MetaPath(x)].MetaFile? ==> disk[MetaPath(x)].meta.alias != metas[id].alias
    {
      assert x in metas && FlowFollows(metas[x], x, disk, codec);
    }
  }

  lemma NewAliasDiffers(metas: map<string, Meta>, alias: map<string, string>, disk: Disk, id: string, newAlias: string,
                        codec: Codec)
    requires IndexAgrees(metas, alias) && MemoryFollowsDisk(metas, disk, codec) && newAlias !in alias
    ensures forall x | MetaPath(x) in disk && x != id :: disk[MetaPath(x)].MetaFile? ==>
      disk[MetaPath(x)].meta.alias != newAlias
  {
    hide HasVersions, HasDraft;
    forall x | MetaPath(x) in disk && x != id
      ensures disk[MetaPath(x)].MetaFile? ==> disk[MetaPath(x)].meta.alias != newAlias
    {
      assert x in metas && FlowFollows(metas[x], x, disk, codec);
    }
  }

  lemma IndexKept(metas: map<string, Meta>, alias: map<string, string>, id: string, m: Meta)
    requires IndexAgrees(metas, alias) && id in metas && m.alias == metas[id].alias
    ensures IndexAgrees(metas[id := m], alias)
  {
  }

  lemma IndexWritten(metas: map<string, Meta>, disk: Disk, id: string, codec: Codec)
    requires MemoryFollowsDisk(metas, disk, codec) && id in metas
    requires KeepsVersions(disk, disk[MetaPath(id) := MetaFile(metas[id])])
    ensures MemoryFollowsDisk(metas, disk[MetaPath(id) := MetaFile(metas[id])], codec)
  {
    hide HasVersions, KeepsVersions;
    var after := disk[MetaPath(id) := MetaFile(metas[id])];
    forall x | x in metas ensures FlowFollows(metas[x], x, after, codec) {
      assert FlowFollows(metas[x], x, disk, codec);
      if x == id {
        VersionsSurvive(disk, after, id, metas[id].latestVersion, codec);
      } else {
        OthersFollow(metas[x], x, disk, MetaPath(id), MetaFile(metas[id]), codec);
      }
    }
  }

  lemma DraftWritten(metas: map<string, Meta>, disk: Disk, id: string, d: Draft, codec: Codec)
    requires MemoryFollowsDisk(metas, disk, codec) && id in metas && d.revision >= metas[id].draftRevision
    requires codec.Checksum(d.definition) == Some((d.checksum, d.definition))
    ensures MemoryFollowsDisk(metas[id := metas[id].(draftRevision := d.revision)],
                              disk[DraftPath(id) := DraftFile(d)], codec)
  {
    hide HasVersions;
    var after := disk[DraftPath(id) := DraftFile(d)];
    var metas' := metas[id := metas[id].(draftRevision := d.revision)];
    forall x | x in metas' ensures FlowFollows(metas'[x], x, after, codec) {
      assert FlowFollows(metas[x], x, disk, codec);
      if x == id {
        VersionsSurvive(disk, after, id, metas[id].latestVersion, codec);
      } else {
        OthersFollow(metas[x], x, disk, DraftPath(id), DraftFile(d), codec);
      }
    }
  }

  lemma VersionWritten(metas: map<string, Meta>, disk: Disk, id: string, fv: FlowVersion, codec: Codec)
    requires MemoryFollowsDisk(metas, disk, codec) && id in metas && fv.version == metas[id].latestVersion + 1
    requires VersionPath(id, fv.version) !in disk && codec.Verifies(fv)
    ensures MemoryFollowsDisk(metas[id := PublishedMeta(metas[id])],
                              disk[VersionPath(id, fv.version) := VersionFile(fv)], codec)
  {
    var after := disk[VersionPath(id, fv.version) := VersionFile(fv)];
    var metas' := metas[id := PublishedMeta(metas[id])];
    forall x | x in metas' ensures FlowFollows(metas'[x], x, after, codec) {
      assert FlowFollows(metas[x], x, disk, codec);
      OthersFollow(metas[x], x, disk, VersionPath(id, fv.version), VersionFile(fv), codec);
      if x == id {
        assert VersionIntact(after, id, fv.version, codec);
      }
    }
  }

  lemma OrphanWritten(metas: map<string, Meta>, disk: Disk, path: Path, file: File, codec: Codec)
    requires MemoryFollowsDisk(metas, disk, codec) && path.id !in metas && (path.DraftPath? || path.DirPath?)
    ensures MemoryFollowsDisk(metas, disk[path := file], codec)
  {
    forall x | x in metas ensures FlowFollows(metas[x], x, disk[path := file], codec) {
      OthersFollow(metas[x], x, disk, path, file, codec);
    }
  }

  lemma FlowCreated(metas: map<string, Meta>, disk: Disk, m: Meta, codec: Codec)
    requires MemoryFollowsDisk(metas, disk, codec) && m.flowID !in metas && m.latestVersion == 0
    requires HasDraft(disk, m.flowID, m.draftRevision, codec) && DirPath(m.flowID) in disk
    ensures MemoryFollowsDisk(metas[m.flowID := m], disk[MetaPath(m.flowID) := MetaFile(m)], codec)
  {
    var after := disk[MetaPath(m.flowID) := MetaFile(m)];
    forall x | x in metas ensures FlowFollows(metas[x], x, after, codec) {
      OthersFollow(metas[x], x, disk, MetaPath(m.flowID), MetaFile(m), codec);
    }
  }

  ghost predicate FlowKept(before: Meta, after: Meta) {
    && after.flowID == before.flowID && after.alias == before.alias
    && before.latestVersion <= after.latestVersion && before.draftRevision <= after.draftRevision
    && (before.status == FlowRetired ==>
          && after.status == FlowRetired
          && after.draftRevision == before.draftRevision && after.latestVersion == before.latestVersion)
  }
}
