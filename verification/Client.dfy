/** The client as an object: it acts step by step on its state store and on the world, and every method refines the
    function of the same name in `Session`. */
module Client {
  import opened Basics
  import opened Tree
  import opened Errors
  import opened Protocol
  import opened State
  import S = Session
  import Decimal
  import Decoding
  import Encoding

  // ---- Reading replies ----------------------------------------------------

  method StatusOf(root: Element) returns (status: Decimal.int64)
    ensures status == TopStatus(root.children)
  {
    for i := 0 to |root.children|
      invariant TopStatus(root.children) == TopStatus(root.children[i..])
    {
      var c := root.children[i];
      if c.Elem? && c.e.name == "Status" {
        var text := CollectText(c.e);
        status := Decimal.ParseInt(text);
        return;
      }
    }
    return 0;
  }

  /** The text of an element that may be missing. */
  method TextIn(e: Option<Element>) returns (text: Option<Bytes>)
    ensures text == TextOf(e)
  {
    if e.None? {
      return None;
    }
    var t := CollectText(e.value);
    return Some(t);
  }

  /** The status checks of a Sync reply. */
  method CheckSync(req: Request, root: Element) returns (error: Option<Error>)
    requires req.Sync?
    ensures error == Refusal(req, root)
  {
    var top := StatusOf(root);
    if top != 0 && top != STATUS_OK {
      return Some(StatusError("Sync", top));
    }
    var c := Find(root, "Collection");
    if c.None? {
      return None;
    }
    var status := TextIn(Near(c.value, "Status"));
    if status.None? {
      return None;
    }
    var code := Decimal.ParseInt(status.value);
    return if code != 0 && code != STATUS_OK then Some(StatusError("Sync", code)) else None;
  }

  /** The commands of an email or calendar collection, sorted into three lists. */
  method CollectBatch(cmds: seq<Node>) returns (batch: Batch)
    ensures batch == DeliveredBy(cmds)
  {
    var added, changed, deleted := [], [], [];
    for i := 0 to |cmds|
      invariant DeliveredBy(cmds) == Join(Batch(added, changed, deleted), DeliveredBy(cmds[i..]))
    {
      assert cmds[i..][0] == cmds[i] && cmds[i..][1..] == cmds[i + 1..];
      JoinAssociative(Batch(added, changed, deleted), Delivered(cmds[i]), DeliveredBy(cmds[i + 1..]));
      if cmds[i].Elem? {
        var el := cmds[i].e;
        if el.name == "Add" {
          added := added + [Item(IdOf(el), Find(el, "ApplicationData"))];
        } else if el.name == "Change" {
          changed := changed + [Item(IdOf(el), Find(el, "ApplicationData"))];
        } else if el.name == "Delete" || el.name == "SoftDelete" {
          if Find(el, "ServerId").Some? {
            deleted := deleted + [IdOf(el)];
          }
        }
      }
    }
    batch := Batch(added, changed, deleted);
  }

  lemma JoinAssociative(a: Batch, b: Batch, c: Batch)
    ensures Join(Join(a, b), c) == Join(a, Join(b, c)) && Join(a, EMPTY) == a
  {
  }

  /** The same for the other classes, where an item needs data and a deletion no id. */
  method CollectGeneric(cmds: seq<Node>) returns (batch: Batch)
    ensures batch == GenericDeliveredBy(cmds)
  {
    var added, changed, deleted := [], [], [];
    for i := 0 to |cmds|
      invariant GenericDeliveredBy(cmds) == Join(Batch(added, changed, deleted), GenericDeliveredBy(cmds[i..]))
    {
      assert cmds[i..][0] == cmds[i] && cmds[i..][1..] == cmds[i + 1..];
      JoinAssociative(Batch(added, changed, deleted), GenericDelivered(cmds[i]), GenericDeliveredBy(cmds[i + 1..]));
      if cmds[i].Elem? {
        var el := cmds[i].e;
        var id, app := IdOf(el), Find(el, "ApplicationData");
        if el.name == "Add" {
          if app.Some? {
            added := added + [Item(id, app)];
          }
        } else if el.name == "Change" {
          if app.Some? {
            changed := changed + [Item(id, app)];
          }
        } else if el.name == "Delete" || el.name == "SoftDelete" {
          deleted := deleted + [id];
        }
      }
    }
    batch := Batch(added, changed, deleted);
  }

  /** The three lists of a FolderSync reply. */
  method CollectFolders(nodes: seq<Node>) returns (h: Hierarchy)
    ensures h == HierarchyOf(nodes)
  {
    var added, updated, deleted := [], [], [];
    for i := 0 to |nodes|
      invariant var rest := HierarchyOf(nodes[i..]);
                HierarchyOf(nodes) == Hierarchy(added + rest.added, updated + rest.updated, deleted + rest.deleted)
    {
      assert nodes[i..][0] == nodes[i] && nodes[i..][1..] == nodes[i + 1..];
      if nodes[i].Elem? {
        var el := nodes[i].e;
        if el.name == "Add" {
          added := added + [el];
        } else if el.name == "Update" {
          updated := updated + [el];
        } else if el.name == "Delete" && Find(el, "ServerId").Some? {
          deleted := deleted + [IdOf(el)];
        }
      }
    }
    h := Hierarchy(added, updated, deleted);
  }

  /** The fields one change sets. */
  method BuildFields(ch: EmailChange) returns (app: seq<Node>)
    ensures app == FieldNodes(ch)
  {
    app := [];
    if ch.read.Some? {
      var text := Decimal.FormatInt(if ch.read.value then 1 else 0);
      app := app + [TextLeaf(EMAIL, "Read", text)];
    }
    if ch.flagStatus.Some? || ch.flagged.Some? {
      var code: Decimal.int64 := 0;
      if ch.flagStatus.Some? {
        code := ch.flagStatus.value;
      } else if ch.flagged.value {
        code := 2;
      }
      var text := Decimal.FormatInt(code);
      app := app + [E(EMAIL, "Flag", [TextLeaf(EMAIL, "FlagStatus", text)])];
    }
  }

  /** The command for one change: none if it names no item or changes nothing. */
  method BuildChange(ch: EmailChange) returns (cmd: seq<Node>)
    ensures cmd == ChangeNodes(ch)
  {
    if ch.serverId == [] {
      return [];
    }
    if ch.delete {
      return [E(AIR_SYNC, "Delete", [TextLeaf(AIR_SYNC, "ServerId", ch.serverId)])];
    }
    var app := BuildFields(ch);
    if app == [] {
      return [];
    }
    return [E(AIR_SYNC, "Change", [TextLeaf(AIR_SYNC, "ServerId", ch.serverId), E(AIR_SYNC, "ApplicationData", app)])];
  }

  method BuildCommands(changes: seq<EmailChange>) returns (cmds: Element)
    ensures cmds == Element(AIR_SYNC, "Commands", AllChangeNodes(changes))
  {
    hide ChangeNodes;
    var children := [];
    for i := 0 to |changes|
      invariant AllChangeNodes(changes) == children + AllChangeNodes(changes[i..])
    {
      assert changes[i..][0] == changes[i] && changes[i..][1..] == changes[i + 1..];
      var cmd := BuildChange(changes[i]);
      children := children + cmd;
    }
    cmds := Element(AIR_SYNC, "Commands", children);
  }

  method CollectResults(nodes: seq<Node>) returns (out: seq<ChangeResult>)
    ensures out == ChangeResults(nodes)
  {
    out := [];
    for i := 0 to |nodes|
      invariant ChangeResults(nodes) == out + ChangeResults(nodes[i..])
    {
      assert nodes[i..][0] == nodes[i] && nodes[i..][1..] == nodes[i + 1..];
      if nodes[i].Elem? {
        var status: Decimal.int64 := 0;
        var text := TextIn(Find(nodes[i].e, "Status"));
        if text.Some? {
          status := Decimal.ParseInt(text.value);
        }
        out := out + [ChangeResult(IdOf(nodes[i].e), status)];
      }
    }
  }

  method FindAssigned(root: Option<Element>, clientId: Bytes) returns (id: Bytes)
    ensures id == AssignedId(root, clientId)
  {
    if root.None? {
      return clientId;
    }
    var nodes := ResponsesIn(root.value);
    for i := 0 to |nodes|
      invariant AssignedIn(nodes, clientId) == AssignedIn(nodes[i..], clientId)
    {
      assert nodes[i..][0] == nodes[i] && nodes[i..][1..] == nodes[i + 1..];
      if nodes[i].Elem? && nodes[i].e.name == "Add" {
        var cid := TextIn(Find(nodes[i].e, "ClientId"));
        if cid == Some(clientId) {
          var sid := TextIn(Find(nodes[i].e, "ServerId"));
          if sid.Some? {
            return sid.value;
          }
        }
      }
    }
    return clientId;
  }

  // ---- The client ---------------------------------------------------------

  /** `env` stands for everything outside: which local steps fail, and what the server answers. `trace` is what happened. */
  class HttpClient {
    const env: S.Env
    const state: MemoryState
    var trace: S.History

    constructor (env: S.Env, state: MemoryState)
      ensures this.env == env && this.state == state && World() == S.World(state.Contents(), S.Start)
    {
      this.env, this.state, trace := env, state, S.Start;
    }

    function World(): S.World
      reads this, state
    {
      S.World(state.Contents(), trace)
    }

    // ---- The store, which may fail ----------------------------------------

    method ReadKey(folder: Bytes) returns (r: Result<Key, Error>)
      modifies this`trace
      ensures S.Outcome(World(), r) == S.ReadKey(env, old(World()), folder)
    {
      var ok := !env.fails(trace);
      trace := S.Then(trace, S.KeyRead(folder, ok));
      if !ok {
        return Failure(Plain("read sync key"));
      }
      var key := state.SyncKey(folder);
      return Success(key);
    }

    method WriteKey(folder: Bytes, key: Key) returns (r: Result<(), Error>)
      modifies this`trace, state
      ensures S.Outcome(World(), r) == S.WriteKey(env, old(World()), folder, key)
    {
      var ok := !env.fails(trace);
      trace := S.Then(trace, S.KeyWrite(folder, key, ok));
      if !ok {
        return Failure(Plain("persist sync key"));
      }
      state.SetSyncKey(folder, key);
      return Success(());
    }

    method WritePolicy(key: Key) returns (r: Result<(), Error>)
      modifies this`trace, state
      ensures S.Outcome(World(), r) == S.WritePolicy(env, old(World()), key)
    {
      var ok := !env.fails(trace);
      trace := S.Then(trace, S.PolicyWrite(key, ok));
      if !ok {
        return Failure(Plain("persist policy key"));
      }
      state.SetPolicyKey(key);
      return Success(());
    }

    // ---- Posting ----------------------------------------------------------

    method PostRawOnce(req: Request, body: Bytes) returns (r: Result<Bytes, Error>)
      modifies this`trace
      ensures S.Outcome(World(), r) == S.PostRawOnce(env, old(World()), req, body)
    {
      var built := !env.fails(trace);
      trace := S.Then(trace, S.RequestBuilt(built));
      if !built {
        return Failure(Plain("build request"));
      }
      var read := !env.fails(trace);
      trace := S.Then(trace, S.PolicyRead(read));
      if !read {
        return Failure(Wrapped("read policy key", Plain("store")));
      }
      var pk := state.PolicyKey();
      var reply := env.answer(trace, Command(req), pk, body);
      trace := S.Then(trace, S.Exchange(req, body, pk, reply));
      if reply.NoReply? {
        return Failure(Wrapped("transport", Plain("no reply")));
      }
      if reply.status < 200 || reply.status >= 300 {
        return Failure(HttpError(reply.status));
      }
      return Success(reply.body);
    }

    method PostRaw(req: Request, body: Bytes) returns (r: Result<Bytes, Error>)
      requires env.reg.WellFormed()
      modifies this`trace, state
      ensures S.Outcome(World(), r) == S.PostRaw(env, old(World()), req, body)
      decreases S.Rank(req), 1
    {
      hide S.PostRawOnce, S.ProvisionAll;
      r := PostRawOnce(req, body);
      if r.Failure? {
        var unauthorized := IsHTTPStatus(r.error, HTTP_UNAUTHORIZED);
        var retryWith := IsHTTPStatus(r.error, HTTP_RETRY_WITH);
        if env.retryOn401 && unauthorized {
          r := PostRawOnce(req, body);
        } else if retryWith && !req.Provision? {
          var p := Provision();
          if p.Failure? {
            return Failure(Wrapped("re-provision after 449", p.error));
          }
          r := PostRawOnce(req, body);
        }
      }
    }

    method Post(req: Request) returns (r: Result<Option<Element>, Error>)
      requires env.reg.WellFormed()
      modifies this`trace, state
      ensures S.Outcome(World(), r) == S.Post(env, old(World()), req)
      decreases S.Rank(req), 2
    {
      hide S.PostRaw, RootOf;
      trace := S.Then(trace, S.Posted(req));
      var body := Encoding.Marshal(DocumentOf(RootOf(req)), env.reg);
      if body.Failure? {
        return Failure(Wrapped("marshal", Plain("codec")));
      }
      var reply := PostRaw(req, body.value);
      if reply.Failure? {
        return Failure(reply.error);
      }
      if reply.value == [] {
        return Success(None);
      }
      var doc := Decoding.Unmarshal(reply.value, env.reg);
      if doc.Failure? {
        return Failure(Wrapped("decode response", Plain("codec")));
      }
      return Success(doc.value.root);
    }

    // ---- Provisioning -----------------------------------------------------

    method ProvisionPhase(key: Key, ack: bool) returns (r: Result<Key, Error>)
      requires env.reg.WellFormed()
      modifies this`trace, state
      ensures S.Outcome(World(), r) == S.ProvisionPhase(env, old(World()), key, ack)
      decreases 0, 3
    {
      hide S.Post, RootOf;
      var o := Post(Protocol.Provision(key, ack));
      if o.Failure? {
        return Failure(o.error);
      }
      if o.value.None? {
        return Failure(Plain("empty response"));
      }
      var root := o.value.value;
      var top := StatusOf(root);
      if top != 0 && top != STATUS_OK {
        return Failure(StatusError("Provision", top));
      }
      var policy := Find(root, "Policy");
      if policy.None? {
        return Failure(Plain("response missing Policy"));
      }
      var status := TextIn(Find(policy.value, "Status"));
      if status.Some? {
        var code := Decimal.ParseInt(status.value);
        if code != 0 && code != STATUS_OK {
          return Failure(StatusError("Provision/Policy", code));
        }
      }
      var sent := TextIn(Find(policy.value, "PolicyKey"));
      return Success(if sent.Some? then sent.value else []);
    }

    method Provision() returns (r: Result<(), Error>)
      requires env.reg.WellFormed()
      modifies this`trace, state
      ensures S.Outcome(World(), r) == S.ProvisionAll(env, old(World()))
      decreases 0, 4
    {
      hide S.ProvisionPhase, S.WritePolicy;
      var temp := ProvisionPhase(NO_KEY, false);
      if temp.Failure? {
        return Failure(Wrapped("phase 1", temp.error));
      }
      if temp.value == [] {
        return Failure(Plain("no temporary policy key"));
      }
      var saved := WritePolicy(temp.value);
      if saved.Failure? {
        return Failure(Wrapped("persist temp key", saved.error));
      }
      var final := ProvisionPhase(temp.value, true);
      if final.Failure? {
        return Failure(Wrapped("phase 2", final.error));
      }
      if final.value == [] {
        return Failure(Plain("no final policy key"));
      }
      var kept := WritePolicy(final.value);
      if kept.Failure? {
        return Failure(Wrapped("persist final key", kept.error));
      }
      return Success(());
    }

    // ---- Fetching ---------------------------------------------------------

    method ParseSync(folder: Bytes, req: Request, root: Element) returns (r: Result<S.SyncResult, Error>)
      requires req.Sync?
      modifies this`trace, state
      ensures S.Outcome(World(), r) == S.ParseSync(env, old(World()), folder, req, root)
    {
      hide S.WriteKey, Refusal, Find, Near, DeliveredBy;
      var refusal := CheckSync(req, root);
      if refusal.Some? {
        return Failure(refusal.value);
      }
      var c := Find(root, "Collection");
      if c.None? {
        return Failure(Plain("response missing Collection"));
      }
      var key := TextIn(Near(c.value, "SyncKey"));
      var more := Near(c.value, "MoreAvailable").Some?;
      var batch := CollectBatch(CommandsIn(c.value));
      if key.None? || key.value == [] {
        return Failure(Plain("response missing SyncKey"));
      }
      var kept := WriteKey(folder, key.value);
      if kept.Failure? {
        return Failure(Wrapped("persist key", kept.error));
      }
      return Success(S.SyncResult(key.value, more, batch));
    }

    method SyncOnce(folder: Bytes, payload: Payload) returns (r: Result<S.SyncResult, Error>)
      requires env.reg.WellFormed()
      modifies this`trace, state
      ensures S.Outcome(World(), r) == S.SyncOnce(env, old(World()), folder, payload)
    {
      hide S.Post, S.ParseSync, S.ReadKey;
      var key := ReadKey(folder);
      if key.Failure? {
        return Failure(Wrapped("read key", key.error));
      }
      var req := Sync(folder, key.value, payload);
      var o := Post(req);
      if o.Failure? {
        return Failure(o.error);
      }
      if o.value.None? {
        return Success(S.SyncResult(key.value, false, EMPTY));
      }
      r := ParseSync(folder, req, o.value.value);
    }

    /** The common body of SyncEmail and SyncCalendar. */
    method SyncFolder(folder: Bytes, payload: Payload, noBootstrap: bool) returns (r: Result<S.SyncResult, Error>)
      requires env.reg.WellFormed()
      modifies this`trace, state
      ensures S.Outcome(World(), r) == S.SyncFolder(env, old(World()), folder, payload, noBootstrap)
    {
      hide S.SyncOnce, S.ReadKey, S.WriteKey;
      r := SyncOnce(folder, payload);
      if r.Failure? {
        var invalid := IsStatusCode(r.error, STATUS_INVALID_SYNC_KEY);
        if invalid {
          var reset := WriteKey(folder, NO_KEY);
          if reset.Failure? {
            return Failure(Wrapped("reset key", reset.error));
          }
          r := SyncOnce(folder, payload);
        }
      }
      if r.Failure? {
        return;
      }
      if !noBootstrap && r.value.batch.added == [] && r.value.batch.changed == [] && r.value.batch.deleted == [] {
        var stored := ReadKey(folder);
        if stored.Success? && stored.value != NO_KEY && stored.value != [] {
          var second := SyncOnce(folder, payload);
          if second.Success? {
            return second;
          }
        }
      }
    }

    method SyncEmail(folder: Bytes, options: EmailOptions) returns (r: Result<S.SyncResult, Error>)
      requires env.reg.WellFormed()
      modifies this`trace, state
      ensures S.Outcome(World(), r) == S.SyncEmail(env, old(World()), folder, options)
    {
      hide S.SyncFolder;
      if folder == [] {
        return Failure(Plain("folderID is required"));
      }
      var opts := options;
      if opts.windowSize <= 0 {
        opts := opts.(windowSize := 50);
      }
      if opts.bodyType == 0 {
        opts := opts.(bodyType := 1);
      }
      if opts.bodyTruncationSize <= 0 {
        opts := opts.(bodyTruncationSize := 32768);
      }
      if opts.dateFilter == 0 {
        opts := opts.(dateFilter := 4);
      }
      r := SyncFolder(folder, Email(opts), opts.noBootstrap);
    }

    method SyncCalendar(folder: Bytes, windowSize: Decimal.int64, dateFilter: Decimal.int64, noBootstrap: bool)
      returns (r: Result<S.SyncResult, Error>)
      requires env.reg.WellFormed()
      modifies this`trace, state
      ensures S.Outcome(World(), r) == S.SyncCalendar(env, old(World()), folder, windowSize, dateFilter, noBootstrap)
    {
      hide S.SyncFolder;
      if folder == [] {
        return Failure(Plain("folderID is required"));
      }
      var window, filter := windowSize, dateFilter;
      if window <= 0 {
        window := 100;
      }
      if filter == 0 {
        filter := 4;
      }
      r := SyncFolder(folder, Calendar(window, filter), noBootstrap);
    }

    method GenericSync(folder: Bytes) returns (r: Result<S.SyncResult, Error>)
      requires env.reg.WellFormed()
      modifies this`trace, state
      ensures S.Outcome(World(), r) == S.GenericSync(env, old(World()), folder)
    {
      hide S.Post, S.ReadKey, S.WriteKey, Refusal, Find, Near, GenericDeliveredBy;
      var key := ReadKey(folder);
      if key.Failure? {
        return Failure(Wrapped("read key", key.error));
      }
      var req := Sync(folder, key.value, Generic);
      var o := Post(req);
      if o.Failure? {
        return Failure(o.error);
      }
      if o.value.None? {
        return Success(S.SyncResult(key.value, false, EMPTY));
      }
      var refusal := CheckSync(req, o.value.value);
      if refusal.Some? {
        return Failure(refusal.value);
      }
      var c := Find(o.value.value, "Collection");
      if c.None? {
        return Failure(Plain("missing Collection"));
      }
      var newKey := key.value;
      var sent := TextIn(Near(c.value, "SyncKey"));
      if sent.Some? {
        newKey := sent.value;
      }
      var more := Near(c.value, "MoreAvailable").Some?;
      var batch := CollectGeneric(CommandsIn(c.value));
      if newKey == [] {
        return Failure(Plain("missing SyncKey"));
      }
      var kept := WriteKey(folder, newKey);
      if kept.Failure? {
        return Failure(Wrapped("persist", kept.error));
      }
      return Success(S.SyncResult(newKey, more, batch));
    }

    // ---- Mutating ---------------------------------------------------------

    method EnsureSynced(folder: Bytes) returns (r: Result<(), Error>)
      requires env.reg.WellFormed()
      modifies this`trace, state
      ensures S.Outcome(World(), r) == S.EnsureSynced(env, old(World()), folder)
    {
      hide S.SyncEmail, S.ReadKey;
      var key := ReadKey(folder);
      if key.Failure? {
        return Failure(Wrapped("read sync key", key.error));
      }
      if key.value != [] && key.value != NO_KEY {
        return Success(());
      }
      var o := SyncEmail(folder, BOOTSTRAP);
      if o.Failure? {
        return Failure(Wrapped("bootstrap sync", o.error));
      }
      return Success(());
    }

    method SendSyncCommands(folder: Bytes, cmds: Element) returns (r: Result<S.MutationReply, Error>)
      requires env.reg.WellFormed()
      modifies this`trace, state
      ensures S.Outcome(World(), r) == S.MutateOnce(env, old(World()), folder, S.Send(cmds))
    {
      hide S.Post, S.ReadKey, S.WriteKey, Refusal, Find, Near;
      var key := ReadKey(folder);
      if key.Failure? {
        return Failure(Wrapped("read sync key", key.error));
      }
      var req := Sync(folder, key.value, Commands(cmds));
      var o := Post(req);
      if o.Failure? {
        return Failure(o.error);
      }
      if o.value.None? {
        return Success(S.Root(None));
      }
      var root := o.value.value;
      var refusal := CheckSync(req, root);
      if refusal.Some? {
        return Failure(refusal.value);
      }
      var c := Find(root, "Collection");
      if c.Some? {
        var newKey := TextIn(Near(c.value, "SyncKey"));
        if newKey.Some? {
          var kept := WriteKey(folder, newKey.value);
          if kept.Failure? {
            return Failure(Wrapped("persist key", kept.error));
          }
        }
      }
      return Success(S.Root(Some(root)));
    }

    method ApplyChangesOnce(folder: Bytes, changes: seq<EmailChange>) returns (r: Result<S.MutationReply, Error>)
      requires env.reg.WellFormed()
      modifies this`trace, state
      ensures S.Outcome(World(), r) == S.MutateOnce(env, old(World()), folder, S.Apply(changes))
    {
      hide S.Post, S.ReadKey, S.WriteKey, Refusal, Find, Near, AllChangeNodes, ChangeResults, ResponsesIn;
      var key := ReadKey(folder);
      if key.Failure? {
        return Failure(Wrapped("read sync key", key.error));
      }
      var cmds := BuildCommands(changes);
      if cmds.children == [] {
        return Failure(Plain("no effective changes"));
      }
      var req := Sync(folder, key.value, Changes(cmds));
      var o := Post(req);
      if o.Failure? {
        return Failure(o.error);
      }
      if o.value.None? {
        return Success(S.Statuses([]));
      }
      var root := o.value.value;
      var refusal := CheckSync(req, root);
      if refusal.Some? {
        return Failure(refusal.value);
      }
      var c := Find(root, "Collection");
      if c.None? {
        return Failure(Plain("response missing Collection"));
      }
      var newKey := TextIn(Near(c.value, "SyncKey"));
      if newKey.Some? {
        var kept := WriteKey(folder, newKey.value);
        if kept.Failure? {
          return Failure(Wrapped("persist key", kept.error));
        }
      }
      var out := CollectResults(ResponsesIn(root));
      return Success(S.Statuses(out));
    }

    /** One attempt at a mutation. */
    method MutateOnce(folder: Bytes, m: S.Mutation) returns (r: Result<S.MutationReply, Error>)
      requires env.reg.WellFormed()
      modifies this`trace, state
      ensures S.Outcome(World(), r) == S.MutateOnce(env, old(World()), folder, m)
    {
      hide S.MutateOnce;
      match m
      case Send(cmds) => r := SendSyncCommands(folder, cmds);
      case Apply(changes) => r := ApplyChangesOnce(folder, changes);
    }

    /** The common body of sendSyncCommandsWithReset and ApplyEmailChanges. */
    method MutateWithReset(folder: Bytes, m: S.Mutation) returns (r: Result<S.MutationReply, Error>)
      requires env.reg.WellFormed()
      modifies this`trace, state
      ensures S.Outcome(World(), r) == S.MutateWithReset(env, old(World()), folder, m)
    {
      hide S.EnsureSynced, S.MutateOnce, S.WriteKey;
      var ready := EnsureSynced(folder);
      if ready.Failure? {
        return Failure(ready.error);
      }
      r := MutateOnce(folder, m);
      if r.Failure? {
        var invalid := IsStatusCode(r.error, STATUS_INVALID_SYNC_KEY);
        if invalid {
          var reset := WriteKey(folder, NO_KEY);
          if reset.Failure? {
            return Failure(Wrapped("reset sync key", reset.error));
          }
          var again := EnsureSynced(folder);
          if again.Failure? {
            return Failure(again.error);
          }
          r := MutateOnce(folder, m);
        }
      }
    }

    method ApplyEmailChanges(folder: Bytes, changes: seq<EmailChange>) returns (r: Result<S.MutationReply, Error>)
      requires env.reg.WellFormed()
      modifies this`trace, state
      ensures S.Outcome(World(), r) == S.ApplyEmailChanges(env, old(World()), folder, changes)
    {
      hide S.MutateWithReset;
      if folder == [] {
        return Failure(Plain("folderID is required"));
      }
      if changes == [] {
        return Failure(Plain("at least one change is required"));
      }
      r := MutateWithReset(folder, S.Apply(changes));
    }

    method AddItem(folder: Bytes, clientId: Bytes, app: Element) returns (r: Result<Bytes, Error>)
      requires env.reg.WellFormed()
      modifies this`trace, state
      ensures S.Outcome(World(), r) == S.AddItem(env, old(World()), folder, clientId, app)
    {
      hide S.MutateWithReset, AssignedId;
      if folder == [] {
        return Failure(Plain("folderID is required"));
      }
      var o := MutateWithReset(folder, S.Send(AddCommand(clientId, app)));
      if o.Failure? {
        return Failure(o.error);
      }
      if o.value.Statuses? {
        return Success(clientId);
      }
      var id := FindAssigned(o.value.root, clientId);
      return Success(id);
    }

    /** CreateEvent, UpdateEvent and DeleteEvent after their arguments are checked. */
    method MutateCalendar(folder: Bytes, cmds: Element) returns (r: Result<S.MutationReply, Error>)
      requires env.reg.WellFormed()
      modifies this`trace, state
      ensures S.Outcome(World(), r) == S.MutateCalendar(env, old(World()), folder, cmds)
    {
      hide S.EnsureSynced, S.MutateOnce;
      var ready := EnsureSynced(folder);
      if ready.Failure? {
        return Failure(ready.error);
      }
      r := SendSyncCommands(folder, cmds);
    }

    // ---- The folder hierarchy ---------------------------------------------

    method FolderSyncOnce() returns (r: Result<S.FolderResult, Error>)
      requires env.reg.WellFormed()
      modifies this`trace, state
      ensures S.Outcome(World(), r) == S.FolderSyncOnce(env, old(World()))
    {
      hide S.Post, S.ReadKey, S.WriteKey, Find, HierarchyOf, Ascii;
      var key := ReadKey(ROOT_FOLDER);
      if key.Failure? {
        return Failure(Wrapped("read sync key", key.error));
      }
      var o := Post(Protocol.FolderSync(key.value));
      if o.Failure? {
        return Failure(o.error);
      }
      if o.value.None? {
        return Failure(Plain("empty response"));
      }
      var root := o.value.value;
      var top := StatusOf(root);
      if top != 0 && top != STATUS_OK {
        return Failure(StatusError("FolderSync", top));
      }
      var newKey := TextIn(Find(root, "SyncKey"));
      if newKey.None? {
        return Failure(Plain("response missing SyncKey"));
      }
      var changes := Find(root, "Changes");
      var hierarchy := CollectFolders(if changes.Some? then changes.value.children else []);
      var kept := WriteKey(ROOT_FOLDER, newKey.value);
      if kept.Failure? {
        return Failure(Wrapped("persist sync key", kept.error));
      }
      return Success(S.FolderResult(newKey.value, hierarchy));
    }

    method FolderSync() returns (r: Result<S.FolderResult, Error>)
      requires env.reg.WellFormed()
      modifies this`trace, state
      ensures S.Outcome(World(), r) == S.FolderSync(env, old(World()))
    {
      hide S.FolderSyncOnce, S.WriteKey;
      r := FolderSyncOnce();
      if r.Failure? {
        var invalid := IsStatusCode(r.error, STATUS_INVALID_SYNC_KEY);
        if invalid {
          var reset := WriteKey(ROOT_FOLDER, NO_KEY);
          if reset.Failure? {
            return Failure(Wrapped("reset sync key", reset.error));
          }
          r := FolderSyncOnce();
        }
      }
    }
  }
}
