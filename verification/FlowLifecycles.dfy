/** Operations of the flow store one after another (platform/workflow/store.go): what a caller may count on
    between them.  All writes succeed here; FlowStores says what happens otherwise. */
module FlowLifecycles {
  import opened Wrappers
  import opened FlowStores

  /** A published flow is found under its alias, at the version that publishing returned. */
  method PublishAndFind(store: FlowStore, id: string, expectRevision: int)
    returns (r: Result<FlowVersion, StoreError>, found: Option<(string, nat)>, read: Result<FlowVersion, StoreError>)
    requires store.Valid()
    modifies store
    ensures store.Valid()
    ensures r.Success? ==>
      && id in old(store.metas) && r.value.version == old(store.metas)[id].latestVersion + 1
      && found == Some((id, r.value.version)) && read == r
  {
    hide FlowStore.Valid;
    r := store.Publish(id, expectRevision, true, true);
    if r.Failure? {
      return r, None, r;
    }
    found := FindByAlias(store, id);
    read := store.GetVersion(id, r.value.version);
  }

  /** The one flow that resolves under an alias is the one that has it. */
  method FindByAlias(store: FlowStore, id: string) returns (found: Option<(string, nat)>)
    requires store.Valid() && id in store.metas
    ensures found == if store.metas[id].status == FlowPublished && store.metas[id].latestVersion > 0
                     then Some((id, store.metas[id].latestVersion)) else None
  {
    hide MemoryFollowsDisk, ImagesOk, FlowStore.Valid;
    found := store.ResolveAlias(store.metas[id].alias);
    AliasesAreOwn(store, id);
  }

  lemma AliasesAreOwn(store: FlowStore, id: string)
    requires store.Valid() && id in store.metas
    ensures forall x <- store.metas :: store.metas[x].alias == store.metas[id].alias ==> x == id
  {
    hide MemoryFollowsDisk, ImagesOk;
  }

  /** A suspended flow cannot be started, and resuming it makes the same version startable again. */
  method SuspendAndResume(store: FlowStore, id: string)
    returns (suspended: Result<Meta, StoreError>, hidden: Option<(string, nat)>,
             resumed: Result<Meta, StoreError>, found: Option<(string, nat)>)
    requires store.Valid() && id in store.metas
    modifies store
    ensures store.Valid()
    ensures hidden == None || suspended.Failure?
    ensures old(store.metas)[id].latestVersion > 0 && old(store.metas)[id].status != FlowRetired ==>
      suspended.Success? && resumed.Success? && found == Some((id, old(store.metas)[id].latestVersion))
    ensures old(store.metas)[id].status == FlowRetired && old(store.metas)[id].latestVersion > 0 ==>
      suspended == resumed == Failure(IsRetired) && found == None
    ensures old(store.metas)[id].latestVersion == 0 ==>
      suspended == resumed == Failure(NoPublishedVersion) && found == None
  {
    hide FlowStore.Valid;
    suspended := store.SetStatus(id, FlowSuspended, true);
    hidden := FindByAlias(store, id);
    resumed := store.SetStatus(id, FlowPublished, true);
    found := FindByAlias(store, id);
  }

  /** Retiring ends a flow: it cannot be started, resumed, edited or published again. */
  method Retire(store: FlowStore, id: string, expectRevision: int, def: Json)
    returns (found: Option<(string, nat)>, resumed: Result<Meta, StoreError>, edited: Result<Draft, StoreError>,
             published: Result<FlowVersion, StoreError>)
    requires store.Valid() && id in store.metas
    modifies store
    ensures store.Valid()
    ensures found == None && resumed.Failure?
    ensures edited == Failure(IsRetired) && published == Failure(IsRetired)
  {
    hide FlowStore.Valid;
    var _ := store.SetStatus(id, FlowRetired, true);
    found := FindByAlias(store, id);
    resumed := store.SetStatus(id, FlowPublished, true);
    edited := store.UpdateDraft(id, expectRevision, def, true, true);
    published := store.Publish(id, expectRevision, true, true);
  }

  /** What an author last wrote is what runs: a flow that is created, edited once and published is found under
      its alias as version 1, with the canonical form and the digest of the edit. */
  method CreateEditPublish(store: FlowStore, first: Json, def: Json, newAlias: string, name: string, freshID: string)
    returns (created: Result<Meta, StoreError>, found: Option<(string, nat)>, read: Result<FlowVersion, StoreError>)
    requires store.Valid() && forall p <- store.disk :: p.id != freshID
    requires store.codec.canon(def).Some?
    modifies store
    ensures store.Valid()
    ensures created.Success? <==>
      && newAlias !in old(store.alias) && store.codec.canon(first).Some?
      && (store.maxFlows > 0 ==> |old(store.metas)| < store.maxFlows)
    ensures created.Success? ==>
      && found == Some((freshID, 1)) && read.Success?
      && read.value.definition == store.codec.canon(def).value
      && read.value.checksum == store.codec.digest(store.codec.canon(def).value)
  {
    hide FlowStore.Valid, NoOrphans, KeepsVersions;
    created := store.Create(first, newAlias, name, freshID, true, true, true);
    if created.Failure? {
      return created, None, Failure(created.error);
    }
    var edited := store.UpdateDraft(freshID, 1, def, true, true);
    var published := store.Publish(freshID, 2, true, true);
    found := FindByAlias(store, freshID);
    read := store.GetVersion(freshID, 1);
  }
}
