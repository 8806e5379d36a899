/** The admin handlers that change specifications and operations, and the rebuild that keeps the
    registry equal to the declarative view of the stored files. */
module Admin {
  import opened Text
  import opened Extractor
  import opened ToolRegistry
  import opened Catalog

  datatype Status = Ok | BadRequest | NotFound | ServerError

  /** The fields of a PUT body; `None` leaves a field as it is. */
  datatype Patch = Patch(
    name: Option<string>, upstream: Option<string>,
    passthroughAuth: Option<bool>, passthroughCookies: Option<bool>,
    passthroughHeaders: Option<seq<string>>, mtlsEnabled: Option<bool>)

  /** The files of a `JSONStore`. A write or removal that `fails` changes nothing. */
  class Store {
    var specs: map<string, SpecRecord>
    var ops: map<string, seq<OperationRecord>>

    ghost function Contents(): Files
      reads this
    {
      Files(specs, ops)
    }

    ghost predicate Valid()
      reads this
    {
      forall id :: id in specs ==> specs[id].id == id
    }

    constructor ()
      ensures Valid() && Contents() == Files(map[], map[])
    {
      specs, ops := map[], map[];
    }

    method SaveSpec(rec: SpecRecord, fails: bool) returns (ok: bool)
      requires Valid()
      modifies this
      ensures Valid()
      ensures ok == !fails && Contents() == if fails then old(Contents()) else Files(old(specs)[rec.id := rec], old(ops))
    {
      ok := !fails;
      if ok {
        specs := specs[rec.id := rec];
      }
    }

    method SaveOperations(id: string, list: seq<OperationRecord>, fails: bool) returns (ok: bool)
      requires Valid()
      modifies this
      ensures Valid()
      ensures ok == !fails && Contents() == if fails then old(Contents()) else Files(old(specs), old(ops)[id := list])
    {
      ok := !fails;
      if ok {
        ops := ops[id := list];
      }
    }

    method DeleteSpec(id: string, fails: bool) returns (ok: bool)
      requires Valid()
      modifies this
      ensures Valid()
      ensures ok == !fails && Contents() == if fails then old(Contents()) else Files(old(specs) - {id}, old(ops))
    {
      ok := !fails;
      if ok {
        specs := specs - {id};
      }
    }

    method DeleteOperations(id: string, fails: bool) returns (ok: bool)
      requires Valid()
      modifies this
      ensures Valid()
      ensures ok == !fails && Contents() == if fails then old(Contents()) else Files(old(specs), old(ops) - {id})
    {
      ok := !fails;
      if ok {
        ops := ops - {id};
      }
    }

    /** `UpdateOperation`: replace the first record with the operation's id, if there is one. */
    method UpdateOperation(id: string, op: OperationRecord, fails: bool) returns (ok: bool)
      requires Valid()
      modifies this
      ensures Valid()
      ensures ok <==> !fails && id in old(ops) && exists i :: 0 <= i < |old(ops)[id]| && old(ops)[id][i].id == op.id
      ensures ok ==> forall n ::
        FirstAt(old(ops)[id], op.id, n) ==> Contents() == Files(old(specs), old(ops)[id := old(ops)[id][n := op]])
      ensures !ok ==> Contents() == old(Contents())
    {
      if id !in ops {
        return false;
      }
      var list := ops[id];
      for i := 0 to |list|
        invariant Contents() == old(Contents())
        invariant forall j :: 0 <= j < i ==> list[j].id != op.id
      {
        if list[i].id == op.id {
          assert FirstAt(list, op.id, i);
          ok := SaveOperations(id, list[i := op], fails);
          return;
        }
      }
      ok := false;
    }

    /** `ListSpecs`: the directory comes sorted by file name. */
    method ListSpecs() returns (list: seq<SpecRecord>)
      requires Valid()
      ensures InOrder(list)
      ensures forall rec: SpecRecord :: rec in list <==> rec.id in specs && specs[rec.id] == rec
    {
      list := [];
      var todo := specs.Keys;
      while todo != {}
        invariant todo <= specs.Keys && InOrder(list)
        invariant forall rec: SpecRecord :: rec in list <==> rec.id in specs && specs[rec.id] == rec && rec.id !in todo
        invariant forall rec: SpecRecord, id :: rec in list && id in todo ==> FileLess(rec.id, id)
        decreases todo
      {
        ghost var least := LeastExists(todo);
        var id :| id in todo && forall id' :: id' in todo && id' != id ==> FileLess(id, id');
        list := list + [specs[id]];
        todo := todo - {id};
      }
    }
  }

  /** The first record with this id is at `n`. */
  predicate FirstAt(ops: seq<OperationRecord>, opId: string, n: int) {
    0 <= n < |ops| && ops[n].id == opId && forall j :: 0 <= j < n ==> ops[j].id != opId
  }

  /** Sorted by file name, which means no specification twice. */
  ghost predicate InOrder(list: seq<SpecRecord>) {
    forall i, j :: 0 <= i < j < |list| ==> FileLess(list[i].id, list[j].id)
  }

  /** The operation ids that are switched on. */
  method EnabledOps(ops: seq<OperationRecord>) returns (enabledOps: set<string>)
    ensures forall o :: o in enabledOps <==> Enabled(ops, o)
  {
    enabledOps := {};
    for i := 0 to |ops|
      invariant forall o :: o in enabledOps <==> Enabled(ops[..i], o)
    {
      EnabledNext(ops, i);
      if ops[i].enabled {
        enabledOps := enabledOps + {ops[i].operationId};
      }
    }
    assert ops[..|ops|] == ops;
  }

  /** The tools of a specification that its operation records enable. */
  method EnabledTools(rec: SpecRecord, doc: Document, ops: seq<OperationRecord>) returns (enabled: seq<ToolDefinition>)
    requires rec.document == Some(doc)
    ensures forall t :: t in enabled <==> IsToolOf(t, rec) && Enabled(ops, t.operationId)
  {
    var tools, _, _ := ExtractTools(rec, doc);
    var enabledOps := EnabledOps(ops);
    enabled := OnlyEnabled(tools, enabledOps);
  }

  /** The inner loop. */
  method OnlyEnabled(tools: seq<ToolDefinition>, enabledOps: set<string>) returns (enabled: seq<ToolDefinition>)
    ensures forall t :: t in enabled <==> t in tools && t.operationId in enabledOps
  {
    enabled := [];
    for i := 0 to |tools|
      invariant forall t :: t in enabled <==> t in tools[..i] && t.operationId in enabledOps
    {
      assert tools[..i + 1] == tools[..i] + [tools[i]];
      if tools[i].operationId in enabledOps {
        enabled := enabled + [tools[i]];
      }
    }
    assert tools[..|tools|] == tools;
  }

  lemma EnabledNext(ops: seq<OperationRecord>, i: nat)
    requires i < |ops|
    ensures forall o :: Enabled(ops[..i + 1], o) <==> Enabled(ops[..i], o) || (ops[i].enabled && ops[i].operationId == o)
  {
    forall o | Enabled(ops[..i], o) ensures Enabled(ops[..i + 1], o) {
      var j :| 0 <= j < i && ops[..i][j].enabled && ops[..i][j].operationId == o;
      assert ops[..i + 1][j] == ops[j];
    }
    forall o | Enabled(ops[..i + 1], o) ensures Enabled(ops[..i], o) || (ops[i].enabled && ops[i].operationId == o) {
      var j :| 0 <= j < i + 1 && ops[..i + 1][j].enabled && ops[..i + 1][j].operationId == o;
      if j < i {
        assert ops[..i][j] == ops[j];
      }
    }
    if ops[i].enabled {
      assert ops[..i + 1][i] == ops[i];
    }
  }

  /** The body of the loop over the specifications. */
  method OfferedTools(st: Store, rec: SpecRecord) returns (tools: seq<ToolDefinition>)
    requires st.Valid() && rec.id in st.specs && st.specs[rec.id] == rec
    ensures forall t :: t in tools <==> Offers(st.Contents(), rec.id, t)
  {
    tools := [];
    if rec.id in st.ops && rec.document.Some? {
      tools := EnabledTools(rec, rec.document.value, st.ops[rec.id]);
    }
  }

  /** The ids of the first `i` specifications. */
  ghost predicate IdsOf(list: seq<SpecRecord>, i: nat, done: set<string>)
    requires i <= |list|
  {
    && (forall j :: 0 <= j < i ==> list[j].id in done)
    && (forall id :: id in done ==> exists j :: 0 <= j < i && list[j].id == id)
  }

  lemma IdsNext(list: seq<SpecRecord>, i: nat, done: set<string>)
    requires i < |list| && InOrder(list) && IdsOf(list, i, done)
    ensures forall id :: id in done ==> FileLess(id, list[i].id)
    ensures IdsOf(list, i + 1, done + {list[i].id})
  {
    forall id | id in done + {list[i].id} ensures exists j :: 0 <= j < i + 1 && list[j].id == id {
      if id in done {
        var j :| 0 <= j < i && list[j].id == id;
      } else {
        assert list[i].id == id;
      }
    }
  }

  lemma AllIds(st: Store, list: seq<SpecRecord>, done: set<string>)
    requires st.Valid() && IdsOf(list, |list|, done)
    requires forall rec: SpecRecord :: rec in list <==> rec.id in st.specs && st.specs[rec.id] == rec
    ensures done == st.specs.Keys
  {
    forall id ensures id in done <==> id in st.specs {
      if id in done {
        var j :| 0 <= j < |list| && list[j].id == id;
        assert list[j] in list;
      }
      if id in st.specs {
        assert st.specs[id] in list;
        var j :| 0 <= j < |list| && list[j] == st.specs[id];
        assert list[j].id in done;
      }
    }
  }

  /** The loop over the specifications: the enabled tools, file by file. */
  method CollectTools(st: Store) returns (allTools: seq<ToolDefinition>)
    requires st.Valid()
    ensures exists from :: Collected(st.Contents(), st.specs.Keys, allTools, from)
  {
    var list := st.ListSpecs();
    allTools := [];
    ghost var from: seq<string> := [];
    ghost var done: set<string> := {};
    for i := 0 to |list|
      invariant IdsOf(list, i, done) && Collected(st.Contents(), done, allTools, from)
    {
      assert list[i] in list;
      var tools := OfferedTools(st, list[i]);
      ghost var more := seq(|tools|, _ => list[i].id);
      IdsNext(list, i, done);
      CollectNext(st.Contents(), done, allTools, from, list[i].id, tools, more);
      allTools, from, done := allTools + tools, from + more, done + {list[i].id};
    }
    AllIds(st, list, done);
  }

  /** `RebuildRegistryFromStore`: collect the enabled tools, then swap the map. */
  method RebuildRegistryFromStore(st: Store, reg: Registry)
    requires st.Valid() && reg.Valid()
    modifies reg`tools, reg.Subscribers()
    ensures reg.Valid() && reg.Subscribers() == old(reg.Subscribers())
    ensures IsView(st.Contents(), reg.tools)
    ensures forall c :: c in reg.Subscribers() ==> c.full
  {
    ghost var f := st.Contents();
    var allTools := CollectTools(st);
    assert IsView(f, LastWins(allTools)) by {
      var from :| Collected(f, f.specs.Keys, allTools, from);
      CollectedIsView(f, allTools, from);
    }
    reg.RebuildAll(allTools);
    assert st.Contents() == f;
  }

  /** The search loop of the handler: where the first record with this id is, or -1. */
  method Search(ops: seq<OperationRecord>, opId: string) returns (n: int)
    ensures n == -1 || FirstAt(ops, opId, n)
    ensures n == -1 <==> forall i :: 0 <= i < |ops| ==> ops[i].id != opId
  {
    n := 0;
    while n < |ops| && ops[n].id != opId
      invariant 0 <= n <= |ops| && forall j :: 0 <= j < n ==> ops[j].id != opId
    {
      n := n + 1;
    }
    if n == |ops| {
      n := -1;
    }
  }

  /** The operation ids of a specification's records are distinct. */
  ghost predicate DistinctOperations(ops: seq<OperationRecord>) {
    forall i, j :: 0 <= i < j < |ops| ==> ops[i].operationId != ops[j].operationId
  }

  /** One admin request, with the writes that will fail. A `Create` whose id is taken is passed over:
      `uuid.New` does not give it. */
  datatype Command =
    | Create(rec: SpecRecord, specFails: bool, opsFails: bool)
    | Change(id: string, patch: Patch, fails: bool)
    | Remove(id: string, specFails: bool, opsFails: bool)
    | Toggle(specId: string, opId: string, enabled: Option<bool>, fails: bool)

  /** The records of a new specification; its tools are dropped. */
  method RecordsOf(rec: SpecRecord, doc: Document) returns (list: seq<OperationRecord>)
    ensures OneRecordEach(rec, doc, list)
  {
    var _, records, sites := ExtractTools(rec, doc);
    list := records;
  }

  /** What the body has is set, what it lacks stays. */
  method Applied(was: SpecRecord, patch: Patch) returns (rec: SpecRecord)
    ensures
      && rec.id == was.id && rec.document == was.document
      && rec.name == (if patch.name.Some? then patch.name.value else was.name)
      && rec.upstream == (if patch.upstream.Some? then patch.upstream.value else was.upstream)
      && rec.passthroughAuth == (if patch.passthroughAuth.Some? then patch.passthroughAuth.value else was.passthroughAuth)
      && rec.passthroughCookies ==
        (if patch.passthroughCookies.Some? then patch.passthroughCookies.value else was.passthroughCookies)
      && rec.passthroughHeaders ==
        (if patch.passthroughHeaders.Some? then patch.passthroughHeaders.value else was.passthroughHeaders)
      && rec.mtlsEnabled == (if patch.mtlsEnabled.Some? then patch.mtlsEnabled.value else was.mtlsEnabled)
  {
    var name, upstream := was.name, was.upstream;
    if patch.name.Some? {
      name := patch.name.value;
    }
    if patch.upstream.Some? {
      upstream := patch.upstream.value;
    }
    var auth, cookies, headers := was.passthroughAuth, was.passthroughCookies, was.passthroughHeaders;
    if patch.passthroughAuth.Some? {
      auth := patch.passthroughAuth.value;
    }
    if patch.passthroughCookies.Some? {
      cookies := patch.passthroughCookies.value;
    }
    if patch.passthroughHeaders.Some? {
      headers := patch.passthroughHeaders.value;
    }
    var mtls := was.mtlsEnabled;
    if patch.mtlsEnabled.Some? {
      mtls := patch.mtlsEnabled.value;
    }
    rec := SpecRecord(was.id, name, upstream, was.document, auth, cookies, headers, mtls);
  }

  class Gateway {
    const store: Store
    const registry: Registry

    /** The registry holds the view of the stored files. */
    ghost predicate Valid()
      reads this, store, registry, registry.slots
    {
      store.Valid() && registry.Valid() && IsView(store.Contents(), registry.tools)
    }

    /** Starting up: the files that an earlier process left are read into a new registry. */
    constructor (files: Store)
      requires files.Valid()
      ensures Valid() && store == files && fresh(registry)
    {
      store := files;
      registry := new Registry();
      new;
      RebuildRegistryFromStore(store, registry);
    }

    /** `createFromRaw`, with the fresh id that `uuid.New` gives. */
    method CreateFromRaw(rec: SpecRecord, specFails: bool, opsFails: bool) returns (status: Status)
      requires Valid() && rec.id !in store.specs && rec.id !in store.ops
      modifies store, registry`tools, registry.Subscribers()
      ensures Valid() && registry.Subscribers() == old(registry.Subscribers())
      ensures status == if rec.document.None? then BadRequest else if specFails || opsFails then ServerError else Ok
      ensures store.specs == if rec.document.None? || specFails then old(store.specs) else old(store.specs)[rec.id := rec]
      ensures status != Ok ==> store.ops == old(store.ops) && registry.tools == old(registry.tools)
      ensures status == Ok ==> rec.id in store.ops && store.ops == old(store.ops)[rec.id := store.ops[rec.id]]
      ensures status == Ok ==> OneRecordEach(rec, rec.document.value, store.ops[rec.id])
      ensures status == Ok ==> AllRegistered(store.Contents(), rec, registry.tools)
    {
      if rec.document.None? {
        return BadRequest;
      }
      var list := RecordsOf(rec, rec.document.value);
      status := SaveNew(rec, list, specFails, opsFails);
      if status == Ok {
        NewTools(store.Contents(), registry.tools, rec, list);
      }
    }

    /** Its second half: save the record, then its operations, then rebuild. */
    method SaveNew(rec: SpecRecord, list: seq<OperationRecord>, specFails: bool, opsFails: bool) returns (status: Status)
      requires Valid() && rec.id !in store.specs && rec.id !in store.ops
      modifies store, registry`tools, registry.Subscribers()
      ensures Valid() && registry.Subscribers() == old(registry.Subscribers())
      ensures status == if specFails || opsFails then ServerError else Ok
      ensures store.specs == if specFails then old(store.specs) else old(store.specs)[rec.id := rec]
      ensures store.ops == if status == Ok then old(store.ops)[rec.id := list] else old(store.ops)
      ensures status != Ok ==> registry.tools == old(registry.tools)
    {
      ghost var before := store.Contents();
      var ok := store.SaveSpec(rec, specFails);
      if !ok {
        return ServerError;
      }
      SpecAlone(before, rec, registry.tools);
      ok := store.SaveOperations(rec.id, list, opsFails);
      if !ok {
        return ServerError;
      }
      RebuildRegistryFromStore(store, registry);
      status := Ok;
    }

    /** `Update`: what the body has is set, what it lacks stays. */
    method Update(id: string, patch: Patch, fails: bool) returns (status: Status)
      requires Valid()
      modifies store, registry`tools, registry.Subscribers()
      ensures Valid() && registry.Subscribers() == old(registry.Subscribers())
      ensures status == if id !in old(store.specs) then NotFound else if fails then ServerError else Ok
      ensures status != Ok ==> store.Contents() == old(store.Contents()) && registry.tools == old(registry.tools)
      ensures status == Ok ==> id in store.specs
      ensures status == Ok ==> store.Contents() == Files(old(store.specs)[id := store.specs[id]], old(store.ops))
      ensures status == Ok ==> var rec, was := store.specs[id], old(store.specs)[id];
        && rec.id == id && rec.document == was.document
        && rec.name == (if patch.name.Some? then patch.name.value else was.name)
        && rec.upstream == (if patch.upstream.Some? then patch.upstream.value else was.upstream)
        && rec.passthroughAuth == (if patch.passthroughAuth.Some? then patch.passthroughAuth.value else was.passthroughAuth)
        && rec.passthroughCookies ==
          (if patch.passthroughCookies.Some? then patch.passthroughCookies.value else was.passthroughCookies)
        && rec.passthroughHeaders ==
          (if patch.passthroughHeaders.Some? then patch.passthroughHeaders.value else was.passthroughHeaders)
        && rec.mtlsEnabled == (if patch.mtlsEnabled.Some? then patch.mtlsEnabled.value else was.mtlsEnabled)
      ensures status == Ok ==> forall name :: name in registry.tools && registry.tools[name].specId == id ==>
        Carries(registry.tools[name], store.specs[id])
    {
      if id !in store.specs {
        return NotFound;
      }
      var rec := Applied(store.specs[id], patch);
      var ok := store.SaveSpec(rec, fails);
      if !ok {
        return ServerError;
      }
      RebuildRegistryFromStore(store, registry);
      ViewCarries(store.Contents(), registry.tools);
      status := Ok;
    }

    /** The results of the deletions are ignored, so either file may survive; the registry follows. */
    method Delete(id: string, specFails: bool, opsFails: bool) returns (status: Status)
      requires Valid()
      modifies store, registry`tools, registry.Subscribers()
      ensures Valid() && registry.Subscribers() == old(registry.Subscribers())
      ensures status == if id in old(store.specs) then Ok else NotFound
      ensures store.specs == if specFails then old(store.specs) else old(store.specs) - {id}
      ensures store.ops == if status != Ok || opsFails then old(store.ops) else old(store.ops) - {id}
      ensures status != Ok ==> registry.tools == old(registry.tools)
    {
      if id !in store.specs {
        return NotFound;
      }
      var _ := store.DeleteSpec(id, specFails);
      var _ := store.DeleteOperations(id, opsFails);
      RebuildRegistryFromStore(store, registry);
      status := Ok;
    }

    /** `UpdateOperation`: find the record, set its flag if the body has one, write it back, rebuild. */
    method UpdateOperation(specId: string, opId: string, enabled: Option<bool>, fails: bool) returns (status: Status, ghost n: int)
      requires Valid()
      modifies store, registry`tools, registry.Subscribers()
      ensures Valid() && registry.Subscribers() == old(registry.Subscribers())
      ensures status == NotFound <==>
        specId !in old(store.ops) || forall i :: 0 <= i < |old(store.ops)[specId]| ==> old(store.ops)[specId][i].id != opId
      ensures status != NotFound ==> status == if fails then ServerError else Ok
      ensures status != Ok ==> store.Contents() == old(store.Contents()) && registry.tools == old(registry.tools)
      ensures status == Ok ==> specId in old(store.ops) && var was := old(store.ops)[specId];
        0 <= n < |was| && was[n].id == opId && forall j :: 0 <= j < n ==> was[j].id != opId
      ensures status == Ok ==> var was := old(store.ops)[specId];
        store.Contents() == Files(old(store.specs), old(store.ops)[specId := was[n := was[n].(
          enabled := if enabled.Some? then enabled.value else was[n].enabled)]])
      ensures status == Ok && DistinctOperations(old(store.ops)[specId]) ==> var was := old(store.ops)[specId][n];
        Decides(old(store.Contents()), store.Contents(), specId, was.operationId,
          if enabled.Some? then enabled.value else was.enabled)
    {
      if specId !in store.ops {
        return NotFound, -1;
      }
      var ops := store.ops[specId];
      var i := Search(ops, opId);
      n := i;
      if i == -1 {
        return NotFound, n;
      }
      var target := ops[i];
      if enabled.Some? {
        target := target.(enabled := enabled.value);
      }
      var ok := store.UpdateOperation(specId, target, fails);
      if !ok {
        return ServerError, n;
      }
      if DistinctOperations(ops) {
        ToggledOffers(old(store.Contents()), specId, n, target.enabled);
      }
      RebuildRegistryFromStore(store, registry);
      status := Ok;
    }

    /** Any finite run of admin operations, some of which may fail, keeps the registry equal to the view. */
    method Run(commands: seq<Command>)
      requires Valid()
      modifies store, registry`tools, registry.Subscribers()
      ensures Valid()
    {
      for i := 0 to |commands|
        invariant Valid() && registry.Subscribers() == old(registry.Subscribers())
      {
        match commands[i]
        case Create(rec, specFails, opsFails) =>
          if rec.id !in store.specs && rec.id !in store.ops {
            var _ := CreateFromRaw(rec, specFails, opsFails);
          }
        case Change(id, patch, fails) => var _ := Update(id, patch, fails);
        case Remove(id, specFails, opsFails) => var _ := Delete(id, specFails, opsFails);
        case Toggle(specId, opId, enabled, fails) => var _, _ := UpdateOperation(specId, opId, enabled, fails);
      }
    }
  }

  /** What a new specification adds to what is offered and registered. */
  lemma NewTools(f: Files, tools: map<string, ToolDefinition>, rec: SpecRecord, list: seq<OperationRecord>)
    requires rec.id in f.specs && f.specs[rec.id] == rec && rec.document.Some? && rec.id in f.ops && f.ops[rec.id] == list
    requires OneRecordEach(rec, rec.document.value, list) && IsView(f, tools)
    ensures AllRegistered(f, rec, tools)
  {
    var sites :| RecordsFor(rec, rec.document.value, sites, list) && forall s :: s in sites <==> IsSite(rec.document.value, s);
    forall t | IsToolOf(t, rec)
      ensures Offers(f, rec.id, t) && t.name in tools
      ensures DistinctTools(rec.document.value) && LastToOffer(f, rec.id, t.name) ==> tools[t.name] == t
    {
      NewOffers(f, rec, sites, t);
      if DistinctTools(rec.document.value) && LastToOffer(f, rec.id, t.name) {
        LastOfferStands(f, tools, rec.id, t);
      }
    }
  }

  /** Operation ids being distinct, setting a flag decides about exactly one operation. */
  lemma ToggleExactly(ops: seq<OperationRecord>, n: nat, on: bool, operationId: string)
    requires n < |ops| && DistinctOperations(ops)
    ensures Enabled(ops[n := ops[n].(enabled := on)], operationId) <==>
      if operationId == ops[n].operationId then on else Enabled(ops, operationId)
  {
    var after := ops[n := ops[n].(enabled := on)];
    if Enabled(ops, operationId) && operationId != ops[n].operationId {
      var i :| 0 <= i < |ops| && ops[i].enabled && ops[i].operationId == operationId;
      assert after[i] == ops[i];
    }
    if Enabled(after, operationId) {
      var i :| 0 <= i < |after| && after[i].enabled && after[i].operationId == operationId;
      assert i != n ==> ops[i] == after[i];
    }
    if operationId == ops[n].operationId && on {
      assert after[n].enabled && after[n].operationId == operationId;
    }
  }

  /** So the specification offers the tools of that operation or not, and all others as before. */
  lemma ToggledOffers(f: Files, specId: string, n: nat, on: bool)
    requires specId in f.ops && n < |f.ops[specId]| && DistinctOperations(f.ops[specId])
    ensures var ops := f.ops[specId];
      Decides(f, Files(f.specs, f.ops[specId := ops[n := ops[n].(enabled := on)]]), specId, ops[n].operationId, on)
  {
    var ops := f.ops[specId];
    var g := Files(f.specs, f.ops[specId := ops[n := ops[n].(enabled := on)]]);
    forall t
      ensures Offers(g, specId, t) <==>
        if t.operationId == ops[n].operationId then on && specId in g.specs && IsToolOf(t, g.specs[specId])
        else Offers(f, specId, t)
    {
      ToggleExactly(ops, n, on, t.operationId);
    }
  }
}
