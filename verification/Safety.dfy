/** What every operation keeps: an invariant that justifies each request and each store write by what came just before. */
module Safety {
  import opened Basics
  import opened Tree
  import opened Errors
  import opened Protocol
  import opened Session
  import Codec
  import Decimal

  // ---- Reading a history --------------------------------------------------

  /** The store that the successful writes of a history leave. */
  function Replay(init: Store, h: History): Store {
    match h
    case Start => init
    case Then(past, e) =>
      match e
      case PolicyWrite(key, true) => Replay(init, past).(policyKey := key)
      case KeyWrite(folder, key, true) => Replay(init, past).(syncKeys := Replay(init, past).syncKeys[folder := key])
      case _ => Replay(init, past)
  }

  /** The number of HTTP requests sent. */
  function Requests(h: History): nat {
    match h
    case Start => 0
    case Then(past, e) => Requests(past) + if e.Exchange? then 1 else 0
  }

  /** The number of posts begun, not counting those of Provision. */
  function Posts(h: History): nat {
    match h
    case Start => 0
    case Then(past, e) => Posts(past) + if e.Posted? && !e.req.Provision? then 1 else 0
  }

  /** What one post of this request adds to that number. */
  function Cost(req: Request): nat {
    if req.Provision? then 0 else 1
  }

  /** The policy keys stored so far, each with whether an acknowledgement's reply sent it (final) or not (temporary). */
  function Trail(h: History): seq<(Key, bool)> {
    match h
    case Start => []
    case Then(past, e) =>
      Trail(past)
      + if e.PolicyWrite? && e.ok then [(e.key, past.Then? && past.last.Exchange? && past.last.req.Provision? && past.last.req.ack)]
        else []
  }

  /** The document in an answer the client takes as a success. */
  function ReplyRoot(env: Env, e: Event): Option<Element> {
    if e.Exchange? && e.reply.Answer? && 200 <= e.reply.status < 300 && e.reply.body != [] then
      match Codec.Unmarshal(env.reg, e.reply.body) case Success(d) => d.root case Failure(_) => None
    else None
  }

  function FolderOf(req: Request): Option<Bytes> {
    match req
    case Sync(folder, _, _) => Some(folder)
    case FolderSync(_) => Some(ROOT_FOLDER)
    case Provision(_, _) => None
  }

  /** The exchange's reply refuses the request with this status. */
  predicate Refuses(env: Env, e: Event, code: int) {
    e.Exchange? &&
    match ReplyRoot(env, e)
    case None => false
    case Some(root) => Refusal(e.req, root).Some? && FirstStatus(Refusal(e.req, root).value) == Some(code)
  }

  /** The exchange's reply accepts the request. */
  predicate Accepts(env: Env, e: Event) {
    e.Exchange? && ReplyRoot(env, e).Some? && Refusal(e.req, ReplyRoot(env, e).value).None?
  }

  // ---- The invariant ------------------------------------------------------

  /** A request carries the keys stored when it is sent; an acknowledgement, the temporary key stored last. */
  predicate Current(h: History, s: Store, req: Request) {
    match req
    case Sync(folder, key, _) => key == s.KeyOf(folder)
    case FolderSync(key) => key == s.KeyOf(ROOT_FOLDER)
    case Provision(key, ack) =>
      if ack then key == s.policyKey && Trail(h) != [] && Trail(h)[|Trail(h)| - 1] == (key, false) else key == NO_KEY
  }

  /** A folder's key is written directly after an exchange: the key an accepting reply sent for that folder (or the
      stored one, when it sent none), or "0" when the reply, to that folder's request or to a Provision, says status 3. */
  predicate KeyJustified(env: Env, past: History, s: Store, folder: Bytes, key: Key) {
    past.Then? && past.last.Exchange? &&
    var e := past.last;
    || (key == NO_KEY && Refuses(env, e, STATUS_INVALID_SYNC_KEY) && (FolderOf(e.req) == Some(folder) || e.req.Provision?))
    || (Accepts(env, e) && FolderOf(e.req) == Some(folder)
        && match SentKey(e.req, ReplyRoot(env, e).value) case Some(k) => key == k case None => key == s.KeyOf(folder))
  }

  /** A policy key is written directly after the Provision reply that sent it. */
  predicate PolicyJustified(env: Env, past: History, key: Key) {
    past.Then? && past.last.Exchange? &&
    var e := past.last;
    e.req.Provision? && Accepts(env, e) && SentKey(e.req, ReplyRoot(env, e).value) == Some(key) && key != []
  }

  /** The exchange is the environment's answer to the request's own bytes. */
  predicate Genuine(env: Env, past: History, e: Event) {
    e.Exchange? && Codec.Marshal(env.reg, DocumentOf(RootOf(e.req))) == Success(e.body)
    && e.reply == env.answer(past, Command(e.req), e.policyKey, e.body)
  }

  predicate EventSound(env: Env, init: Store, past: History, e: Event) {
    var s := Replay(init, past);
    match e
    case Exchange(req, _, policyKey, _) => Genuine(env, past, e) && policyKey == s.policyKey && Current(past, s, req)
    case KeyWrite(folder, key, _) => KeyJustified(env, past, s, folder, key)
    case PolicyWrite(key, _) => PolicyJustified(env, past, key)
    case _ => true
  }

  predicate Sound(env: Env, init: Store, h: History) {
    match h
    case Start => true
    case Then(past, e) => Sound(env, init, past) && EventSound(env, init, past, e)
  }

  /** The store is what the history wrote, and every event of the history is justified. */
  predicate Inv(env: Env, init: Store, w: World) {
    w.store == Replay(init, w.history) && Sound(env, init, w.history)
  }

  // ---- Posting ------------------------------------------------------------

  predicate LastAnswer(h: History, req: Request, bytes: Bytes) {
    h.Then? && h.last.Exchange? && h.last.req == req && h.last.reply.Answer?
    && 200 <= h.last.reply.status < 300 && h.last.reply.body == bytes
  }

  /** An error that carries a status comes from the reply that ends the history. */
  predicate StatusFromLast<T>(env: Env, h: History, req: Request, r: Result<T, Error>) {
    r.Failure? && FirstStatus(r.error).Some? ==>
      h.Then? && Refuses(env, h.last, FirstStatus(r.error).value) && (h.last.req == req || h.last.req.Provision?)
  }

  /** A local step that touches neither the store nor the wire. */
  lemma LocalStepSafe(env: Env, init: Store, w: World, e: Event)
    requires Inv(env, init, w) && (e.Posted? || e.RequestBuilt? || e.PolicyRead?)
    ensures var w' := Log(w, e);
            && Inv(env, init, w') && Requests(w'.history) == Requests(w.history) && Trail(w'.history) == Trail(w.history)
            && Posts(w'.history) == Posts(w.history) + (if e.Posted? then Cost(e.req) else 0)
  {
    hide Genuine, Current, KeyJustified, PolicyJustified;
  }

  lemma ExchangeSafe(env: Env, init: Store, w: World, e: Event)
    requires Inv(env, init, w) && Genuine(env, w.history, e) && e.policyKey == w.store.policyKey && Current(w.history, w.store, e.req)
    ensures var w' := Log(w, e);
            && Inv(env, init, w') && Requests(w'.history) == Requests(w.history) + 1 && Trail(w'.history) == Trail(w.history)
            && Posts(w'.history) == Posts(w.history)
  {
    hide Current, KeyJustified, PolicyJustified, Command, RootOf;
  }

  lemma PostRawOnceSafe(env: Env, init: Store, w: World, req: Request, body: Bytes)
    requires Inv(env, init, w) && Current(w.history, w.store, req)
    requires Codec.Marshal(env.reg, DocumentOf(RootOf(req))) == Success(body)
    ensures var o := PostRawOnce(env, w, req, body);
            && Inv(env, init, o.w) && o.w.store == w.store
            && Requests(o.w.history) <= Requests(w.history) + 1 && Trail(o.w.history) == Trail(w.history)
            && Posts(o.w.history) == Posts(w.history)
            && (o.r.Success? ==> LastAnswer(o.w.history, req, o.r.value))
            && (o.r.Failure? ==> FirstStatus(o.r.error) == None)
  {
    hide RootOf, Command, Inv, Trail, Requests, Posts;
    var built := !env.fails(w.history);
    LocalStepSafe(env, init, w, RequestBuilt(built));
    var w1 := Log(w, RequestBuilt(built));
    var read := !env.fails(w1.history);
    LocalStepSafe(env, init, w1, PolicyRead(read));
    var w2 := Log(w1, PolicyRead(read));
    var pk := w.store.policyKey;
    ExchangeSafe(env, init, w2, Exchange(req, body, pk, env.answer(w2.history, Command(req), pk, body)));
  }

  lemma {:induction false} PostRawSafe(env: Env, init: Store, w: World, req: Request, body: Bytes)
    requires Inv(env, init, w) && Current(w.history, w.store, req)
    requires Codec.Marshal(env.reg, DocumentOf(RootOf(req))) == Success(body)
    ensures var o := PostRaw(env, w, req, body);
            && Inv(env, init, o.w) && o.w.store.syncKeys == w.store.syncKeys
            && (req.Provision? ==> o.w.store == w.store && Trail(o.w.history) == Trail(w.history))
            && Requests(o.w.history) <= Requests(w.history) + (if req.Provision? then 2 else 6)
            && Posts(o.w.history) == Posts(w.history)
            && (o.r.Success? ==> LastAnswer(o.w.history, req, o.r.value))
            && StatusFromLast(env, o.w.history, req, o.r)
    decreases Rank(req), 1
  {
    hide PostRawOnce, ProvisionAll, Inv, RootOf, Refuses;
    PostRawOnceSafe(env, init, w, req, body);
    var first := PostRawOnce(env, w, req, body);
    if first.r.Failure? {
      if env.retryOn401 && FirstHttp(first.r.error) == Some(HTTP_UNAUTHORIZED) {
        PostRawOnceSafe(env, init, first.w, req, body);
      } else if FirstHttp(first.r.error) == Some(HTTP_RETRY_WITH) && !req.Provision? {
        ProvisionSafe(env, init, first.w);
        var p := ProvisionAll(env, first.w);
        if p.r.Success? { PostRawOnceSafe(env, init, p.w, req, body); }
      }
    }
  }

  lemma {:induction false} PostSafe(env: Env, init: Store, w: World, req: Request)
    requires Inv(env, init, w) && Current(w.history, w.store, req)
    ensures var o := Post(env, w, req);
            && Inv(env, init, o.w) && o.w.store.syncKeys == w.store.syncKeys
            && (req.Provision? ==> o.w.store == w.store && Trail(o.w.history) == Trail(w.history))
            && Requests(o.w.history) <= Requests(w.history) + (if req.Provision? then 2 else 6)
            && Posts(o.w.history) == Posts(w.history) + Cost(req)
            && (o.r.Success? && o.r.value.Some? ==>
                  o.w.history.Then? && o.w.history.last.Exchange? && o.w.history.last.req == req
                  && ReplyRoot(env, o.w.history.last) == o.r.value)
            && StatusFromLast(env, o.w.history, req, o.r)
    decreases Rank(req), 2
  {
    hide PostRaw, Inv, RootOf, Refuses;
    LocalStepSafe(env, init, w, Posted(req));
    var m := Codec.Marshal(env.reg, DocumentOf(RootOf(req)));
    if m.Success? {
      PostRawSafe(env, init, Log(w, Posted(req)), req, m.value);
    }
  }

  // ---- Provisioning -------------------------------------------------------

  /** The exchange that ends the history is this Provision, accepted with this policy key. */
  predicate SentPolicy(env: Env, h: History, ack: bool, key: Key) {
    PolicyJustified(env, h, key) && h.last.req.ack == ack
  }

  lemma {:induction false} ProvisionPhaseSafe(env: Env, init: Store, w: World, key: Key, ack: bool)
    requires Inv(env, init, w) && Current(w.history, w.store, Provision(key, ack))
    ensures var o := ProvisionPhase(env, w, key, ack);
            && Inv(env, init, o.w) && o.w.store == w.store && Trail(o.w.history) == Trail(w.history)
            && Requests(o.w.history) <= Requests(w.history) + 2 && Posts(o.w.history) == Posts(w.history)
            && (o.r.Success? && o.r.value != [] ==> SentPolicy(env, o.w.history, ack, o.r.value))
            && StatusFromLast(env, o.w.history, Provision(key, ack), o.r)
    decreases 0, 3
  {
    hide Post, Refusal, SentKey, RootOf, ReplyRoot, Inv, Find;
    PostSafe(env, init, w, Provision(key, ack));
  }

  lemma WritePolicySafe(env: Env, init: Store, w: World, ack: bool, key: Key)
    requires Inv(env, init, w) && SentPolicy(env, w.history, ack, key)
    ensures var o := WritePolicy(env, w, key);
            && Inv(env, init, o.w) && o.w.store.syncKeys == w.store.syncKeys
            && Requests(o.w.history) == Requests(w.history) && Posts(o.w.history) == Posts(w.history)
            && o.w.store.policyKey == (if o.r.Success? then key else w.store.policyKey)
            && Trail(o.w.history) == Trail(w.history) + (if o.r.Success? then [(key, ack)] else [])
            && (o.r.Failure? ==> FirstStatus(o.r.error).None?)
  {
    hide Genuine, Current, KeyJustified, Accepts, Refusal, SentKey, ReplyRoot, RootOf;
  }

  /** The stored policy key goes from what it was to a temporary and then to a final key, and success means it is final. */
  predicate Handshake(w: World, o: Outcome<()>) {
    var was, now := Trail(w.history), Trail(o.w.history);
    && |was| <= |now| <= |was| + 2 && now[..|was|] == was
    && (|now| > |was| ==> !now[|was|].1)
    && (|now| > |was| + 1 ==> now[|was| + 1].1)
    && (o.r.Success? <==> |now| == |was| + 2)
    && o.w.store.policyKey == if |now| == |was| then w.store.policyKey else now[|now| - 1].0
  }

  lemma {:induction false} ProvisionSafe(env: Env, init: Store, w: World)
    requires Inv(env, init, w)
    ensures var o := ProvisionAll(env, w);
            && Inv(env, init, o.w) && o.w.store.syncKeys == w.store.syncKeys
            && Requests(o.w.history) <= Requests(w.history) + 4 && Posts(o.w.history) == Posts(w.history)
            && StatusFromLast(env, o.w.history, Provision(NO_KEY, false), o.r)
            && Handshake(w, o)
    decreases 0, 4
  {
    hide ProvisionPhase, WritePolicy, Inv, SentPolicy;
    ProvisionPhaseSafe(env, init, w, NO_KEY, false);
    var temp := ProvisionPhase(env, w, NO_KEY, false);
    if temp.r.Success? && temp.r.value != [] {
      WritePolicySafe(env, init, temp.w, false, temp.r.value);
      var saved := WritePolicy(env, temp.w, temp.r.value);
      if saved.r.Success? {
        ProvisionPhaseSafe(env, init, saved.w, temp.r.value, true);
        var final := ProvisionPhase(env, saved.w, temp.r.value, true);
        if final.r.Success? && final.r.value != [] {
          WritePolicySafe(env, init, final.w, true, final.r.value);
        }
      }
    }
  }

  // ---- Every operation keeps the invariant --------------------------------

  /** The invariant holds on, no other folder's key changes, and at most `n` posts were made, of at most 6 requests each. */
  ghost predicate Keeps(env: Env, init: Store, w: World, w': World, folder: Bytes, n: nat) {
    && Inv(env, init, w')
    && (forall other | other != folder :: w'.store.KeyOf(other) == w.store.KeyOf(other))
    && Posts(w'.history) <= Posts(w.history) + n
    && Requests(w'.history) <= Requests(w.history) + 6 * n
  }

  /** A nil error means the result's key is the stored one. */
  predicate ReportsStoredKey(o: Outcome<SyncResult>, folder: Bytes) {
    o.r.Success? ==> o.r.value.key == o.w.store.KeyOf(folder)
  }

  lemma ReadKeySafe(env: Env, init: Store, w: World, folder: Bytes)
    requires Inv(env, init, w)
    ensures var o := ReadKey(env, w, folder);
            && Inv(env, init, o.w) && o.w.store == w.store
            && Requests(o.w.history) == Requests(w.history) && Posts(o.w.history) == Posts(w.history)
            && (o.r.Success? ==> o.r.value == w.store.KeyOf(folder))
            && (o.r.Failure? ==> FirstStatus(o.r.error).None?)
  {
  }

  /** The history ends with this request's exchange, answered with this document. */
  predicate Answered(env: Env, h: History, req: Request, root: Element) {
    h.Then? && h.last.Exchange? && h.last.req == req && ReplyRoot(env, h.last) == Some(root)
  }

  /** Persisting the key of an accepting reply, or the stored key when the reply sent none. */
  lemma WriteKeySafe(env: Env, init: Store, w: World, folder: Bytes, req: Request, root: Element, key: Key)
    requires Inv(env, init, w) && Answered(env, w.history, req, root)
    requires FolderOf(req) == Some(folder) && Refusal(req, root).None?
    requires SentKey(req, root) == Some(key) || (SentKey(req, root).None? && key == w.store.KeyOf(folder))
    ensures var o := WriteKey(env, w, folder, key);
            && Keeps(env, init, w, o.w, folder, 0)
            && o.w.store.KeyOf(folder) == (if o.r.Success? then key else w.store.KeyOf(folder))
            && (o.r.Failure? ==> FirstStatus(o.r.error).None?)
  {
    hide Genuine, Refusal, SentKey, ReplyRoot, Current, PolicyJustified;
  }

  lemma RefusalIsFromLast<T>(env: Env, h: History, req: Request, root: Element, r: Result<T, Error>)
    requires Answered(env, h, req, root) && Refusal(req, root).Some? && r == Failure(Refusal(req, root).value)
    ensures StatusFromLast(env, h, req, r)
  {
  }

  lemma ParseSyncSafe(env: Env, init: Store, w: World, folder: Bytes, req: Request, root: Element)
    requires Inv(env, init, w) && Answered(env, w.history, req, root) && req.Sync? && req.folder == folder
    ensures var o := ParseSync(env, w, folder, req, root);
            && Keeps(env, init, w, o.w, folder, 0) && ReportsStoredKey(o, folder)
            && (o.r.Failure? ==> o.w.store.KeyOf(folder) == w.store.KeyOf(folder))
            && StatusFromLast(env, o.w.history, req, o.r)
  {
    hide Refusal, SentKey, Inv, Find, CommandsIn, DeliveredBy, Near, WriteKey, Answered;
    var refusal, sent := Refusal(req, root), SentKey(req, root);
    if refusal.Some? {
      RefusalIsFromLast(env, w.history, req, root, ParseSync(env, w, folder, req, root).r);
    } else if Find(root, "Collection").Some? && sent.Some? && sent.value != [] {
      WriteKeySafe(env, init, w, folder, req, root, sent.value);
    }
  }

  lemma SyncOnceSafe(env: Env, init: Store, w: World, folder: Bytes, payload: Payload)
    requires Inv(env, init, w)
    ensures var o := SyncOnce(env, w, folder, payload);
            && Keeps(env, init, w, o.w, folder, 1) && ReportsStoredKey(o, folder)
            && (o.r.Failure? ==> o.w.store.KeyOf(folder) == w.store.KeyOf(folder))
            && StatusFromLast(env, o.w.history, Sync(folder, w.store.KeyOf(folder), payload), o.r)
  {
    hide ParseSync, Post, Refusal, SentKey, Inv, ReplyRoot, RootOf;
    ReadKeySafe(env, init, w, folder);
    var k := ReadKey(env, w, folder);
    if k.r.Success? {
      var req := Sync(folder, k.r.value, payload);
      PostSafe(env, init, k.w, req);
      var o := Post(env, k.w, req);
      if o.r.Success? && o.r.value.Some? {
        ParseSyncSafe(env, init, o.w, folder, req, o.r.value.value);
      }
    }
  }

  lemma ResetSafe(env: Env, init: Store, w: World, folder: Bytes)
    requires Inv(env, init, w) && w.history.Then? && Refuses(env, w.history.last, STATUS_INVALID_SYNC_KEY)
    requires FolderOf(w.history.last.req) == Some(folder) || w.history.last.req.Provision?
    ensures Keeps(env, init, w, WriteKey(env, w, folder, NO_KEY).w, folder, 0)
  {
    hide Genuine, Refusal, SentKey, ReplyRoot, Current, PolicyJustified;
  }

  lemma SyncFolderSafe(env: Env, init: Store, w: World, folder: Bytes, payload: Payload, noBootstrap: bool)
    requires Inv(env, init, w)
    ensures var o := SyncFolder(env, w, folder, payload, noBootstrap);
            && Keeps(env, init, w, o.w, folder, if noBootstrap then 2 else 3) && ReportsStoredKey(o, folder)
  {
    hide SyncOnce, SyncWithReset, Inv;
    SyncWithResetSafe(env, init, w, folder, payload);
    var o := SyncWithReset(env, w, folder, payload);
    if o.r.Success? && !noBootstrap && o.r.value.batch == EMPTY {
      var stored := ReadKey(env, o.w, folder);
      ReadKeySafe(env, init, o.w, folder);
      SyncOnceSafe(env, init, stored.w, folder, payload);
    }
  }

  lemma SyncWithResetSafe(env: Env, init: Store, w: World, folder: Bytes, payload: Payload)
    requires Inv(env, init, w)
    ensures var o := SyncWithReset(env, w, folder, payload);
            Keeps(env, init, w, o.w, folder, 2) && ReportsStoredKey(o, folder)
  {
    hide SyncOnce, Inv, Refuses;
    SyncOnceSafe(env, init, w, folder, payload);
    var first := SyncOnce(env, w, folder, payload);
    if IsInvalidKey(first.r) {
      ResetSafe(env, init, first.w, folder);
      var reset := WriteKey(env, first.w, folder, NO_KEY);
      if reset.r.Success? { SyncOnceSafe(env, init, reset.w, folder, payload); }
    }
  }

  lemma GenericSyncSafe(env: Env, init: Store, w: World, folder: Bytes)
    requires Inv(env, init, w)
    ensures var o := GenericSync(env, w, folder);
            && Keeps(env, init, w, o.w, folder, 1) && ReportsStoredKey(o, folder)
            && (o.r.Failure? ==> o.w.store.KeyOf(folder) == w.store.KeyOf(folder))
  {
    hide Post, Refusal, SentKey, RootOf, ReplyRoot, Inv, Find, CommandsIn, GenericDeliveredBy, Near, WriteKey;
    ReadKeySafe(env, init, w, folder);
    var k := ReadKey(env, w, folder);
    if k.r.Success? {
      var req := Sync(folder, k.r.value, Generic);
      PostSafe(env, init, k.w, req);
      var o := Post(env, k.w, req);
      if o.r.Success? && o.r.value.Some? && Refusal(req, o.r.value.value).None? {
        var root := o.r.value.value;
        var key := match SentKey(req, root) case Some(x) => x case None => k.r.value;
        WriteKeySafe(env, init, o.w, folder, req, root, key);
      }
    }
  }

  lemma EnsureSyncedSafe(env: Env, init: Store, w: World, folder: Bytes)
    requires Inv(env, init, w)
    ensures Keeps(env, init, w, EnsureSynced(env, w, folder).w, folder, 2)
  {
    hide SyncFolder, Inv;
    ReadKeySafe(env, init, w, folder);
    var k := ReadKey(env, w, folder);
    SyncFolderSafe(env, init, k.w, folder, Email(EmailDefaults(BOOTSTRAP)), true);
  }

  lemma MutateOnceSafe(env: Env, init: Store, w: World, folder: Bytes, m: Mutation)
    requires Inv(env, init, w)
    ensures var o := MutateOnce(env, w, folder, m);
            && Keeps(env, init, w, o.w, folder, 1)
            && StatusFromLast(env, o.w.history, Sync(folder, w.store.KeyOf(folder), PayloadOf(m)), o.r)
  {
    hide Post, Refusal, SentKey, RootOf, ReplyRoot, Inv, Find, PayloadOf, AllChangeNodes, MutationAnswer, WriteKey;
    ReadKeySafe(env, init, w, folder);
    var k := ReadKey(env, w, folder);
    if k.r.Success? {
      var req := Sync(folder, k.r.value, PayloadOf(m));
      PostSafe(env, init, k.w, req);
      var o := Post(env, k.w, req);
      if o.r.Success? && o.r.value.Some? {
        var root := o.r.value.value;
        if Refusal(req, root).Some? {
          RefusalIsFromLast<MutationReply>(env, o.w.history, req, root, Failure(Refusal(req, root).value));
        } else if SentKey(req, root).Some? {
          WriteKeySafe(env, init, o.w, folder, req, root, SentKey(req, root).value);
        }
      }
    }
  }

  lemma MutateWithResetSafe(env: Env, init: Store, w: World, folder: Bytes, m: Mutation)
    requires Inv(env, init, w)
    ensures Keeps(env, init, w, MutateWithReset(env, w, folder, m).w, folder, 6)
  {
    hide MutateOnce, EnsureSynced, WriteKey, Inv, Refuses;
    EnsureSyncedSafe(env, init, w, folder);
    var ready := EnsureSynced(env, w, folder);
    if ready.r.Success? {
      MutateOnceSafe(env, init, ready.w, folder, m);
      var first := MutateOnce(env, ready.w, folder, m);
      if IsInvalidKey(first.r) {
        ResetSafe(env, init, first.w, folder);
        var reset := WriteKey(env, first.w, folder, NO_KEY);
        EnsureSyncedSafe(env, init, reset.w, folder);
        MutateOnceSafe(env, init, EnsureSynced(env, reset.w, folder).w, folder, m);
      }
    }
  }

  lemma MutateCalendarSafe(env: Env, init: Store, w: World, folder: Bytes, cmds: Element)
    requires Inv(env, init, w)
    ensures Keeps(env, init, w, MutateCalendar(env, w, folder, cmds).w, folder, 3)
  {
    hide MutateOnce, EnsureSynced, Inv;
    EnsureSyncedSafe(env, init, w, folder);
    MutateOnceSafe(env, init, EnsureSynced(env, w, folder).w, folder, Send(cmds));
  }

  lemma FolderSyncOnceSafe(env: Env, init: Store, w: World)
    requires Inv(env, init, w)
    ensures var o := FolderSyncOnce(env, w);
            && Keeps(env, init, w, o.w, ROOT_FOLDER, 1)
            && (o.r.Success? ==> o.r.value.key == o.w.store.KeyOf(ROOT_FOLDER))
            && StatusFromLast(env, o.w.history, Protocol.FolderSync(w.store.KeyOf(ROOT_FOLDER)), o.r)
  {
    hide Post, Refusal, SentKey, RootOf, ReplyRoot, Inv, Find, HierarchyOf, WriteKey, Ascii;
    ReadKeySafe(env, init, w, ROOT_FOLDER);
    var k := ReadKey(env, w, ROOT_FOLDER);
    if k.r.Success? {
      var req := Protocol.FolderSync(k.r.value);
      PostSafe(env, init, k.w, req);
      var o := Post(env, k.w, req);
      if o.r.Success? && o.r.value.Some? {
        var root := o.r.value.value;
        if Refusal(req, root).Some? {
          RefusalIsFromLast<FolderResult>(env, o.w.history, req, root, Failure(Refusal(req, root).value));
        } else if SentKey(req, root).Some? {
          WriteKeySafe(env, init, o.w, ROOT_FOLDER, req, root, SentKey(req, root).value);
        }
      }
    }
  }

  lemma FolderSyncSafe(env: Env, init: Store, w: World)
    requires Inv(env, init, w)
    ensures var o := Session.FolderSync(env, w);
            && Keeps(env, init, w, o.w, ROOT_FOLDER, 2)
            && (o.r.Success? ==> o.r.value.key == o.w.store.KeyOf(ROOT_FOLDER))
  {
    hide FolderSyncOnce, Inv, Refuses;
    FolderSyncOnceSafe(env, init, w);
    var first := FolderSyncOnce(env, w);
    if IsInvalidKey(first.r) {
      ResetSafe(env, init, first.w, ROOT_FOLDER);
      var reset := WriteKey(env, first.w, ROOT_FOLDER, NO_KEY);
      if reset.r.Success? { FolderSyncOnceSafe(env, init, reset.w); }
    }
  }

  // ---- Whole runs ---------------------------------------------------------

  /** The folder whose key an operation may change. */
  function Touches(op: Op): Option<Bytes> {
    match op
    case DoProvision => None
    case DoFolderSync => Some(ROOT_FOLDER)
    case DoSyncEmail(folder, _) => Some(folder)
    case DoSyncCalendar(folder, _, _, _) => Some(folder)
    case DoGenericSync(folder) => Some(folder)
    case DoApply(folder, _) => Some(folder)
    case DoSend(folder, _) => Some(folder)
    case DoCalendarSend(folder, _) => Some(folder)
  }

  /** Every operation keeps the invariant, leaves every other folder's key alone, and makes at most 6 posts and 36 requests. */
  lemma OperationSafe(env: Env, init: Store, w: World, op: Op)
    requires Inv(env, init, w)
    ensures var w' := Do(env, w, op);
            && Inv(env, init, w')
            && (forall folder | Touches(op) != Some(folder) :: w'.store.KeyOf(folder) == w.store.KeyOf(folder))
            && Posts(w'.history) <= Posts(w.history) + 6 && Requests(w'.history) <= Requests(w.history) + 36
  {
    hide Inv, ProvisionAll, Session.FolderSync, SyncFolder, GenericSync, MutateWithReset, MutateCalendar,
         EmailDefaults, Handshake;
    match op
    case DoProvision => ProvisionSafe(env, init, w);
    case DoFolderSync => FolderSyncSafe(env, init, w);
    case DoSyncEmail(folder, options) => SyncFolderSafe(env, init, w, folder, Email(EmailDefaults(options)), options.noBootstrap);
    case DoSyncCalendar(folder, window, filter, noBootstrap) =>
      var payload := Calendar(if window <= 0 then 100 else window, if filter == 0 then 4 else filter);
      SyncFolderSafe(env, init, w, folder, payload, noBootstrap);
    case DoGenericSync(folder) => GenericSyncSafe(env, init, w, folder);
    case DoApply(folder, changes) => MutateWithResetSafe(env, init, w, folder, Apply(changes));
    case DoSend(folder, cmds) => MutateWithResetSafe(env, init, w, folder, Send(cmds));
    case DoCalendarSend(folder, cmds) => MutateCalendarSafe(env, init, w, folder, cmds);
  }

  /** Over any run against any environment, from any initial store. */
  lemma {:induction false} RunSafe(env: Env, init: Store, w: World, ops: seq<Op>)
    requires Inv(env, init, w)
    ensures Inv(env, init, Run(env, w, ops))
    ensures forall folder | (forall op | op in ops :: Touches(op) != Some(folder)) ::
              Run(env, w, ops).store.KeyOf(folder) == w.store.KeyOf(folder)
    ensures Posts(Run(env, w, ops).history) <= Posts(w.history) + 6 * |ops|
    ensures Requests(Run(env, w, ops).history) <= Requests(w.history) + 36 * |ops|
    decreases ops
  {
    hide Inv, Do, Touches;
    if ops != [] {
      OperationSafe(env, init, w, ops[0]);
      RunSafe(env, init, Do(env, w, ops[0]), ops[1..]);
    }
  }

  /** On a nil error, the key an operation returns is the one it left stored. */
  lemma ResultsReportStoredKeys(env: Env, init: Store, w: World, folder: Bytes, options: EmailOptions,
                                window: Decimal.int64, filter: Decimal.int64, noBootstrap: bool)
    requires Inv(env, init, w)
    ensures ReportsStoredKey(SyncEmail(env, w, folder, options), folder)
    ensures ReportsStoredKey(SyncCalendar(env, w, folder, window, filter, noBootstrap), folder)
    ensures ReportsStoredKey(GenericSync(env, w, folder), folder)
    ensures var o := Session.FolderSync(env, w); o.r.Success? ==> o.r.value.key == o.w.store.KeyOf(ROOT_FOLDER)
  {
    hide Inv, Session.FolderSync, SyncFolder, GenericSync, EmailDefaults;
    SyncFolderSafe(env, init, w, folder, Email(EmailDefaults(options)), options.noBootstrap);
    var payload := Calendar(if window <= 0 then 100 else window, if filter == 0 then 4 else filter);
    SyncFolderSafe(env, init, w, folder, payload, noBootstrap);
    GenericSyncSafe(env, init, w, folder);
    FolderSyncSafe(env, init, w);
  }

  lemma StartIsSafe(env: Env, init: Store)
    ensures Inv(env, init, World(init, Start))
  {
  }

  /** `e` happened in the history, just after `past`. */
  predicate Occurs(h: History, past: History, e: Event) {
    h.Then? && (h == Then(past, e) || Occurs(h.past, past, e))
  }

  lemma {:induction false} EventsAreSound(env: Env, init: Store, h: History, past: History, e: Event)
    requires Sound(env, init, h) && Occurs(h, past, e)
    ensures EventSound(env, init, past, e)
  {
    if h != Then(past, e) { EventsAreSound(env, init, h.past, past, e); }
  }

  /** A reply accepted as OK for this folder sent this key. */
  predicate WasSent(env: Env, h: History, folder: Bytes, key: Key) {
    h.Then? &&
    (|| (Accepts(env, h.last) && FolderOf(h.last.req) == Some(folder)
         && SentKey(h.last.req, ReplyRoot(env, h.last).value) == Some(key))
     || WasSent(env, h.past, folder, key))
  }

  /** Each folder's stored key is its initial one, "0", or a key the server sent in a response accepted for that folder. */
  lemma {:induction false} KeyProvenance(env: Env, init: Store, h: History, folder: Bytes)
    requires Sound(env, init, h)
    ensures var key := Replay(init, h).KeyOf(folder);
            key == init.KeyOf(folder) || key == NO_KEY || WasSent(env, h, folder, key)
  {
    hide Refusal, SentKey, ReplyRoot, RootOf;
    if h.Then? {
      KeyProvenance(env, init, h.past, folder);
    }
  }

  /** The stored policy key is the initial one or the last on the trail of keys accepted Provision replies sent. */
  lemma {:induction false} PolicyProvenance(env: Env, init: Store, h: History)
    requires Sound(env, init, h)
    ensures var t := Trail(h); Replay(init, h).policyKey == if t == [] then init.policyKey else t[|t| - 1].0
    ensures forall i | 0 <= i < |Trail(h)| :: Trail(h)[i].0 != []
  {
    hide Refusal, SentKey, ReplyRoot, RootOf;
    if h.Then? {
      PolicyProvenance(env, init, h.past);
    }
  }

  /** In any run, "0" is stored for a folder only as a key the server sent or kept, or right after a status 3. */
  lemma {:induction false} ResetsAreProvoked(env: Env, init: Store, w: World, ops: seq<Op>, past: History,
                                             folder: Bytes, ok: bool)
    requires Inv(env, init, w) && Occurs(Run(env, w, ops).history, past, KeyWrite(folder, NO_KEY, ok))
    ensures past.Then? && past.last.Exchange?
    ensures (Refuses(env, past.last, STATUS_INVALID_SYNC_KEY)
             && (FolderOf(past.last.req) == Some(folder) || past.last.req.Provision?))
         || (Accepts(env, past.last) && FolderOf(past.last.req) == Some(folder)
             && (SentKey(past.last.req, ReplyRoot(env, past.last).value) == Some(NO_KEY)
                 || Replay(init, past).KeyOf(folder) == NO_KEY))
  {
    RunSafe(env, init, w, ops);
    EventsAreSound(env, init, Run(env, w, ops).history, past, KeyWrite(folder, NO_KEY, ok));
  }

  /** Every request of a run carries the policy key and the folder key stored when it is sent; a provisioning
      acknowledgement carries the temporary key, stored last, both in its header and in its body. */
  lemma {:induction false} RequestsAreCurrent(env: Env, init: Store, w: World, ops: seq<Op>, past: History,
                                              req: Request, body: Bytes, pk: Key, reply: Reply)
    requires Inv(env, init, w) && Occurs(Run(env, w, ops).history, past, Exchange(req, body, pk, reply))
    ensures pk == Replay(init, past).policyKey
    ensures req.Sync? ==> req.key == Replay(init, past).KeyOf(req.folder)
    ensures req.Provision? && req.ack ==> req.key == pk && Trail(past) != [] && Trail(past)[|Trail(past)| - 1] == (pk, false)
    ensures Codec.Marshal(env.reg, DocumentOf(RootOf(req))) == Success(body)
  {
    hide Run, Occurs, Sound, Refusal, ReplyRoot, RootOf, Command, KeyJustified, PolicyJustified;
    RunSafe(env, init, w, ops);
    EventsAreSound(env, init, Run(env, w, ops).history, past, Exchange(req, body, pk, reply));
  }

  /** A request repeated after 449 and a successful re-provisioning is sent with the final policy key. */
  lemma {:induction false} RetryCarriesFinalKey(env: Env, init: Store, w: World, req: Request, body: Bytes)
    requires Inv(env, init, w) && Current(w.history, w.store, req) && !req.Provision?
    requires Codec.Marshal(env.reg, DocumentOf(RootOf(req))) == Success(body)
    requires PostRawOnce(env, w, req, body).r == Failure(HttpError(HTTP_RETRY_WITH))
    requires ProvisionAll(env, PostRawOnce(env, w, req, body).w).r.Success?
    ensures var o, trail := PostRaw(env, w, req, body), Trail(PostRaw(env, w, req, body).w.history);
            && trail != [] && trail[|trail| - 1].1 && o.w.store.policyKey == trail[|trail| - 1].0 != []
            && o.w.history.Then?
            && (o.r.Success? || FirstHttp(o.r.error).Some? ==> o.w.history.last.Exchange?)
            && (o.w.history.last.Exchange? ==>
                  o.w.history.last.req == req && o.w.history.last.body == body
                  && o.w.history.last.policyKey == o.w.store.policyKey)
  {
    hide RootOf, Inv, ProvisionAll, PostRawOnce, LastAnswer;
    PostRawOnceSafe(env, init, w, req, body);
    var first := PostRawOnce(env, w, req, body);
    ProvisionSafe(env, init, first.w);
    var p := ProvisionAll(env, first.w);
    PostRawOnceSafe(env, init, p.w, req, body);
    InvHasPolicy(env, init, p.w);
    SentWithStoredPolicy(env, p.w, req, body);
  }

  lemma SentWithStoredPolicy(env: Env, w: World, req: Request, body: Bytes)
    ensures var o := PostRawOnce(env, w, req, body);
            && o.w.history.Then?
            && (o.r.Success? || FirstHttp(o.r.error).Some? ==> o.w.history.last.Exchange?)
            && (o.w.history.last.Exchange? ==>
                  o.w.history.last.req == req && o.w.history.last.body == body && o.w.history.last.policyKey == w.store.policyKey)
  {
    hide Command;
  }

  lemma InvHasPolicy(env: Env, init: Store, w: World)
    requires Inv(env, init, w)
    ensures forall i | 0 <= i < |Trail(w.history)| :: Trail(w.history)[i].0 != []
  {
    PolicyProvenance(env, init, w.history);
  }
}
