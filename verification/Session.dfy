/** The client as transitions of a world: its persisted state, and the history of everything it did and was answered.

    The environment is adversarial: it decides from the history so far whether the next local step fails and how the
    server answers. Nothing else is nondeterministic, so a statement about every environment is one about every run. */
module Session {
  import opened Basics
  import opened Tree
  import opened Registry
  import opened Errors
  import opened Protocol
  import Codec
  import Decimal

  // ---- State --------------------------------------------------------------

  datatype Store = Store(policyKey: Key, syncKeys: map<Bytes, Key>) {
    function KeyOf(folder: Bytes): Key {
      if folder in syncKeys then syncKeys[folder] else NO_KEY
    }
  }

  /** NoReply: the request was sent but no usable answer came back. */
  datatype Reply = NoReply | Answer(status: int, body: Bytes)

  datatype Event =
    | Posted(req: Request)
    | RequestBuilt(ok: bool)
    | PolicyRead(ok: bool)
    | PolicyWrite(key: Key, ok: bool)
    | KeyRead(folder: Bytes, ok: bool)
    | KeyWrite(folder: Bytes, key: Key, ok: bool)
    | Exchange(req: Request, body: Bytes, policyKey: Key, reply: Reply)

  datatype History = Start | Then(past: History, last: Event)

  /** The registry and the retry-on-401 setting are the client's; the two functions are the world's. */
  datatype Env = Env(reg: Pages, retryOn401: bool, fails: History -> bool, answer: (History, string, Key, Bytes) -> Reply)

  datatype World = World(store: Store, history: History)

  datatype Outcome<+T> = Outcome(w: World, r: Result<T, Error>)

  function Log(w: World, e: Event): World {
    w.(history := Then(w.history, e))
  }

  // ---- The state store ----------------------------------------------------

  /** A failed write leaves the stored value as it was. */
  function ReadKey(env: Env, w: World, folder: Bytes): Outcome<Key> {
    var ok := !env.fails(w.history);
    Outcome(Log(w, KeyRead(folder, ok)), if ok then Success(w.store.KeyOf(folder)) else Failure(Plain("read sync key")))
  }

  function WriteKey(env: Env, w: World, folder: Bytes, key: Key): Outcome<()> {
    var ok := !env.fails(w.history);
    var store := if ok then w.store.(syncKeys := w.store.syncKeys[folder := key]) else w.store;
    Outcome(World(store, Then(w.history, KeyWrite(folder, key, ok))), if ok then Success(()) else Failure(Plain("persist sync key")))
  }

  function WritePolicy(env: Env, w: World, key: Key): Outcome<()> {
    var ok := !env.fails(w.history);
    var store := if ok then w.store.(policyKey := key) else w.store;
    Outcome(World(store, Then(w.history, PolicyWrite(key, ok))), if ok then Success(()) else Failure(Plain("persist policy key")))
  }

  // ---- Posting ------------------------------------------------------------

  /** One HTTP request: build it, read the policy key for its header, send it. */
  function PostRawOnce(env: Env, w: World, req: Request, body: Bytes): Outcome<Bytes> {
    var built := !env.fails(w.history);
    var w1 := Log(w, RequestBuilt(built));
    if !built then Outcome(w1, Failure(Plain("build request")))
    else
      var read := !env.fails(w1.history);
      var w2 := Log(w1, PolicyRead(read));
      if !read then Outcome(w2, Failure(Wrapped("read policy key", Plain("store"))))
      else
        var reply := env.answer(w2.history, Command(req), w.store.policyKey, body);
        var w3 := Log(w2, Exchange(req, body, w.store.policyKey, reply));
        match reply
        case NoReply => Outcome(w3, Failure(Wrapped("transport", Plain("no reply"))))
        case Answer(status, bytes) =>
          Outcome(w3, if 200 <= status < 300 then Success(bytes) else Failure(HttpError(status)))
  }

  /** 0 for Provision, whose posts never re-provision. */
  function Rank(req: Request): nat {
    if req.Provision? then 0 else 1
  }

  /** Two transparent retries: once after 401, and once after re-provisioning on 449. */
  function PostRaw(env: Env, w: World, req: Request, body: Bytes): Outcome<Bytes>
    decreases Rank(req), 1
  {
    var first := PostRawOnce(env, w, req, body);
    if first.r.Success? then first
    else if env.retryOn401 && FirstHttp(first.r.error) == Some(HTTP_UNAUTHORIZED) then PostRawOnce(env, first.w, req, body)
    else if FirstHttp(first.r.error) == Some(HTTP_RETRY_WITH) && !req.Provision? then
      var p := ProvisionAll(env, first.w);
      if p.r.Failure? then Outcome(p.w, Failure(Wrapped("re-provision after 449", p.r.error)))
      else PostRawOnce(env, p.w, req, body)
    else first
  }

  /** One post: the root of the reply document, or None for an empty body. */
  function Post(env: Env, w: World, req: Request): Outcome<Option<Element>>
    decreases Rank(req), 2
  {
    var begun := Log(w, Posted(req));
    match Codec.Marshal(env.reg, DocumentOf(RootOf(req)))
    case Failure(_) => Outcome(begun, Failure(Wrapped("marshal", Plain("codec"))))
    case Success(body) =>
      var o := PostRaw(env, begun, req, body);
      if o.r.Failure? then Outcome(o.w, Failure(o.r.error))
      else if o.r.value == [] then Outcome(o.w, Success(None))
      else
        match Codec.Unmarshal(env.reg, o.r.value)
        case Failure(_) => Outcome(o.w, Failure(Wrapped("decode response", Plain("codec"))))
        case Success(d) => Outcome(o.w, Success(d.root))
  }

  // ---- Provisioning -------------------------------------------------------

  /** The policy key in the reply, empty if there is none. */
  function ProvisionPhase(env: Env, w: World, key: Key, ack: bool): Outcome<Key>
    decreases 0, 3
  {
    var req := Provision(key, ack);
    var o := Post(env, w, req);
    if o.r.Failure? then Outcome(o.w, Failure(o.r.error))
    else
      match o.r.value
      case None => Outcome(o.w, Failure(Plain("empty response")))
      case Some(root) =>
        if Refusal(req, root).Some? then Outcome(o.w, Failure(Refusal(req, root).value))
        else if Find(root, "Policy").None? then Outcome(o.w, Failure(Plain("response missing Policy")))
        else Outcome(o.w, Success(match SentKey(req, root) case Some(k) => k case None => []))
  }

  function ProvisionAll(env: Env, w: World): Outcome<()>
    decreases 0, 4
  {
    var temp := ProvisionPhase(env, w, NO_KEY, false);
    if temp.r.Failure? then Outcome(temp.w, Failure(Wrapped("phase 1", temp.r.error)))
    else if temp.r.value == [] then Outcome(temp.w, Failure(Plain("no temporary policy key")))
    else
      var saved := WritePolicy(env, temp.w, temp.r.value);
      if saved.r.Failure? then Outcome(saved.w, Failure(Wrapped("persist temp key", saved.r.error)))
      else
        var final := ProvisionPhase(env, saved.w, temp.r.value, true);
        if final.r.Failure? then Outcome(final.w, Failure(Wrapped("phase 2", final.r.error)))
        else if final.r.value == [] then Outcome(final.w, Failure(Plain("no final policy key")))
        else
          var kept := WritePolicy(env, final.w, final.r.value);
          if kept.r.Failure? then Outcome(kept.w, Failure(Wrapped("persist final key", kept.r.error)))
          else Outcome(kept.w, Success(()))
  }

  // ---- Fetching -----------------------------------------------------------

  datatype SyncResult = SyncResult(key: Key, more: bool, batch: Batch)

  /** Reads an email or calendar reply and, last of all, persists its key. */
  function ParseSync(env: Env, w: World, folder: Bytes, req: Request, root: Element): Outcome<SyncResult> {
    if Refusal(req, root).Some? then Outcome(w, Failure(Refusal(req, root).value))
    else
      match Find(root, "Collection")
      case None => Outcome(w, Failure(Plain("response missing Collection")))
      case Some(c) =>
        var key := match SentKey(req, root) case Some(k) => k case None => [];
        if key == [] then Outcome(w, Failure(Plain("response missing SyncKey")))
        else
          var kept := WriteKey(env, w, folder, key);
          Outcome(kept.w,
                  if kept.r.Failure? then Failure(Wrapped("persist key", kept.r.error))
                  else Success(SyncResult(key, Near(c, "MoreAvailable").Some?, DeliveredBy(CommandsIn(c)))))
  }

  function SyncOnce(env: Env, w: World, folder: Bytes, payload: Payload): Outcome<SyncResult> {
    var k := ReadKey(env, w, folder);
    if k.r.Failure? then Outcome(k.w, Failure(Wrapped("read key", k.r.error)))
    else
      var req := Sync(folder, k.r.value, payload);
      var o := Post(env, k.w, req);
      if o.r.Failure? then Outcome(o.w, Failure(o.r.error))
      else
        match o.r.value
        case None => Outcome(o.w, Success(SyncResult(k.r.value, false, EMPTY)))
        case Some(root) => ParseSync(env, o.w, folder, req, root)
  }

  predicate IsInvalidKey<T>(r: Result<T, Error>) {
    r.Failure? && FirstStatus(r.error) == Some(STATUS_INVALID_SYNC_KEY)
  }

  /** Sync, and once more from key "0" if the server calls the key invalid. */
  function SyncWithReset(env: Env, w: World, folder: Bytes, payload: Payload): Outcome<SyncResult> {
    var first := SyncOnce(env, w, folder, payload);
    if !IsInvalidKey(first.r) then first
    else
      var reset := WriteKey(env, first.w, folder, NO_KEY);
      if reset.r.Failure? then Outcome(reset.w, Failure(Wrapped("reset key", reset.r.error)))
      else SyncOnce(env, reset.w, folder, payload)
  }

  /** A second call after a batch without items, whose result is returned if it succeeds. */
  function SyncFolder(env: Env, w: World, folder: Bytes, payload: Payload, noBootstrap: bool): Outcome<SyncResult> {
    var o := SyncWithReset(env, w, folder, payload);
    if o.r.Failure? || noBootstrap || o.r.value.batch != EMPTY then o
    else
      var stored := ReadKey(env, o.w, folder);
      if stored.r.Failure? || stored.r.value == NO_KEY || stored.r.value == [] then Outcome(stored.w, o.r)
      else
        var second := SyncOnce(env, stored.w, folder, payload);
        if second.r.Success? then second else Outcome(second.w, o.r)
  }

  function SyncEmail(env: Env, w: World, folder: Bytes, options: EmailOptions): Outcome<SyncResult> {
    if folder == [] then Outcome(w, Failure(Plain("folderID is required")))
    else SyncFolder(env, w, folder, Email(EmailDefaults(options)), options.noBootstrap)
  }

  function SyncCalendar(env: Env, w: World, folder: Bytes, window: Decimal.int64, filter: Decimal.int64, noBootstrap: bool)
    : Outcome<SyncResult>
  {
    if folder == [] then Outcome(w, Failure(Plain("folderID is required")))
    else SyncFolder(env, w, folder, Calendar(if window <= 0 then 100 else window, if filter == 0 then 4 else filter), noBootstrap)
  }

  /** The other classes: no reset, no second call, and a reply without a key keeps the one that was sent. */
  function GenericSync(env: Env, w: World, folder: Bytes): Outcome<SyncResult> {
    var k := ReadKey(env, w, folder);
    if k.r.Failure? then Outcome(k.w, Failure(Wrapped("read key", k.r.error)))
    else
      var req := Sync(folder, k.r.value, Generic);
      var o := Post(env, k.w, req);
      if o.r.Failure? then Outcome(o.w, Failure(o.r.error))
      else if o.r.value.None? then Outcome(o.w, Success(SyncResult(k.r.value, false, EMPTY)))
      else
        var root := o.r.value.value;
        if Refusal(req, root).Some? then Outcome(o.w, Failure(Refusal(req, root).value))
        else
          match Find(root, "Collection")
          case None => Outcome(o.w, Failure(Plain("missing Collection")))
          case Some(c) =>
            var key := match SentKey(req, root) case Some(x) => x case None => k.r.value;
            if key == [] then Outcome(o.w, Failure(Plain("missing SyncKey")))
            else
              var kept := WriteKey(env, o.w, folder, key);
              Outcome(kept.w,
                      if kept.r.Failure? then Failure(Wrapped("persist", kept.r.error))
                      else Success(SyncResult(key, Near(c, "MoreAvailable").Some?, GenericDeliveredBy(CommandsIn(c)))))
  }

  // ---- Mutating -----------------------------------------------------------

  /** What one call sends: a ready-made Commands subtree, or email changes still to be turned into one. */
  datatype Mutation = Send(cmds: Element) | Apply(changes: seq<EmailChange>)

  datatype MutationReply = Root(root: Option<Element>) | Statuses(results: seq<ChangeResult>)

  function EnsureSynced(env: Env, w: World, folder: Bytes): Outcome<()> {
    var k := ReadKey(env, w, folder);
    if k.r.Failure? then Outcome(k.w, Failure(Wrapped("read sync key", k.r.error)))
    else if k.r.value != [] && k.r.value != NO_KEY then Outcome(k.w, Success(()))
    else
      var o := SyncEmail(env, k.w, folder, BOOTSTRAP);
      Outcome(o.w, if o.r.Failure? then Failure(Wrapped("bootstrap sync", o.r.error)) else Success(()))
  }

  function PayloadOf(m: Mutation): Payload {
    match m
    case Send(cmds) => Commands(cmds)
    case Apply(changes) => Changes(Element(AIR_SYNC, "Commands", AllChangeNodes(changes)))
  }

  /** Sends the mutation once under the stored key, and persists the key of an accepted reply. */
  function MutateOnce(env: Env, w: World, folder: Bytes, m: Mutation): Outcome<MutationReply> {
    var k := ReadKey(env, w, folder);
    if k.r.Failure? then Outcome(k.w, Failure(Wrapped("read sync key", k.r.error)))
    else if m.Apply? && AllChangeNodes(m.changes) == [] then Outcome(k.w, Failure(Plain("no effective changes")))
    else
      var req := Sync(folder, k.r.value, PayloadOf(m));
      var o := Post(env, k.w, req);
      if o.r.Failure? then Outcome(o.w, Failure(o.r.error))
      else if o.r.value.None? then Outcome(o.w, Success(if m.Send? then Root(None) else Statuses([])))
      else
        var root := o.r.value.value;
        if Refusal(req, root).Some? then Outcome(o.w, Failure(Refusal(req, root).value))
        else if m.Apply? && Find(root, "Collection").None? then Outcome(o.w, Failure(Plain("response missing Collection")))
        else
          match SentKey(req, root)
          case None => Outcome(o.w, Success(MutationAnswer(m, root)))
          case Some(key) =>
            var kept := WriteKey(env, o.w, folder, key);
            Outcome(kept.w,
                    if kept.r.Failure? then Failure(Wrapped("persist key", kept.r.error)) else Success(MutationAnswer(m, root)))
  }

  function MutationAnswer(m: Mutation, root: Element): MutationReply {
    if m.Send? then Root(Some(root)) else Statuses(ChangeResults(ResponsesIn(root)))
  }

  /** Bootstrap if needed, send, and on an invalid key reset, bootstrap and send once more. */
  function MutateWithReset(env: Env, w: World, folder: Bytes, m: Mutation): Outcome<MutationReply> {
    var ready := EnsureSynced(env, w, folder);
    if ready.r.Failure? then Outcome(ready.w, Failure(ready.r.error))
    else
      var first := MutateOnce(env, ready.w, folder, m);
      if !IsInvalidKey(first.r) then first
      else
        var reset := WriteKey(env, first.w, folder, NO_KEY);
        if reset.r.Failure? then Outcome(reset.w, Failure(Wrapped("reset sync key", reset.r.error)))
        else
          var again := EnsureSynced(env, reset.w, folder);
          if again.r.Failure? then Outcome(again.w, Failure(again.r.error))
          else MutateOnce(env, again.w, folder, m)
  }

  function ApplyEmailChanges(env: Env, w: World, folder: Bytes, changes: seq<EmailChange>): Outcome<MutationReply> {
    if folder == [] then Outcome(w, Failure(Plain("folderID is required")))
    else if changes == [] then Outcome(w, Failure(Plain("at least one change is required")))
    else MutateWithReset(env, w, folder, Apply(changes))
  }

  /** Adds an item under a client id and returns the server's id for it. */
  function AddItem(env: Env, w: World, folder: Bytes, clientId: Bytes, app: Element): Outcome<Bytes> {
    if folder == [] then Outcome(w, Failure(Plain("folderID is required")))
    else
      var o := MutateWithReset(env, w, folder, Send(AddCommand(clientId, app)));
      Outcome(o.w,
              match o.r
              case Failure(e) => Failure(e)
              case Success(Root(root)) => Success(AssignedId(root, clientId))
              case Success(Statuses(_)) => Success(clientId))
  }

  /** CreateEvent, UpdateEvent and DeleteEvent: bootstrap and send, without the reset. */
  function MutateCalendar(env: Env, w: World, folder: Bytes, cmds: Element): Outcome<MutationReply> {
    var ready := EnsureSynced(env, w, folder);
    if ready.r.Failure? then Outcome(ready.w, Failure(ready.r.error))
    else MutateOnce(env, ready.w, folder, Send(cmds))
  }

  // ---- The folder hierarchy -----------------------------------------------

  datatype FolderResult = FolderResult(key: Key, hierarchy: Hierarchy)

  function FolderSyncOnce(env: Env, w: World): Outcome<FolderResult> {
    var k := ReadKey(env, w, ROOT_FOLDER);
    if k.r.Failure? then Outcome(k.w, Failure(Wrapped("read sync key", k.r.error)))
    else
      var req := Protocol.FolderSync(k.r.value);
      var o := Post(env, k.w, req);
      if o.r.Failure? then Outcome(o.w, Failure(o.r.error))
      else if o.r.value.None? then Outcome(o.w, Failure(Plain("empty response")))
      else
        var root := o.r.value.value;
        if Refusal(req, root).Some? then Outcome(o.w, Failure(Refusal(req, root).value))
        else
          match SentKey(req, root)
          case None => Outcome(o.w, Failure(Plain("response missing SyncKey")))
          case Some(key) =>
            var changes := match Find(root, "Changes") case Some(c) => c.children case None => [];
            var kept := WriteKey(env, o.w, ROOT_FOLDER, key);
            Outcome(kept.w,
                    if kept.r.Failure? then Failure(Wrapped("persist sync key", kept.r.error))
                    else Success(FolderResult(key, HierarchyOf(changes))))
  }

  function FolderSync(env: Env, w: World): Outcome<FolderResult> {
    var first := FolderSyncOnce(env, w);
    if !IsInvalidKey(first.r) then first
    else
      var reset := WriteKey(env, first.w, ROOT_FOLDER, NO_KEY);
      if reset.r.Failure? then Outcome(reset.w, Failure(Wrapped("reset sync key", reset.r.error)))
      else FolderSyncOnce(env, reset.w)
  }

  // ---- Runs ---------------------------------------------------------------

  datatype Op =
    | DoProvision
    | DoFolderSync
    | DoSyncEmail(folder: Bytes, options: EmailOptions)
    | DoSyncCalendar(folder: Bytes, window: Decimal.int64, filter: Decimal.int64, noBootstrap: bool)
    | DoGenericSync(folder: Bytes)
    | DoApply(folder: Bytes, changes: seq<EmailChange>)
    | DoSend(folder: Bytes, cmds: Element)
    | DoCalendarSend(folder: Bytes, cmds: Element)

  function Do(env: Env, w: World, op: Op): World {
    match op
    case DoProvision => ProvisionAll(env, w).w
    case DoFolderSync => FolderSync(env, w).w
    case DoSyncEmail(folder, options) => SyncEmail(env, w, folder, options).w
    case DoSyncCalendar(folder, window, filter, noBootstrap) => SyncCalendar(env, w, folder, window, filter, noBootstrap).w
    case DoGenericSync(folder) => GenericSync(env, w, folder).w
    case DoApply(folder, changes) => ApplyEmailChanges(env, w, folder, changes).w
    case DoSend(folder, cmds) => MutateWithReset(env, w, folder, Send(cmds)).w
    case DoCalendarSend(folder, cmds) => MutateCalendar(env, w, folder, cmds).w
  }

  function Run(env: Env, w: World, ops: seq<Op>): World
    decreases ops
  {
    if ops == [] then w else Run(env, Do(env, w, ops[0]), ops[1..])
  }
}
