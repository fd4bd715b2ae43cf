/** What a bootstrap is for: no mutation goes out under a key the server could not know. */
module Bootstrap {
  import opened Basics
  import opened Tree
  import opened Registry
  import opened Errors
  import opened Protocol
  import opened Session
  import opened Safety
  import opened AtMostOnce
  import opened Delivery
  import Codec

  predicate Usable(key: Key) { key != [] && key != NO_KEY }

  /** The client takes the reply as a success, but gets no new key from it: it has no document, or sends the key "0". */
  predicate Keyless(env: Env, e: Event) {
    e.Exchange? && e.reply.Answer? && 200 <= e.reply.status < 300
    && (ReplyRoot(env, e).None? || (Accepts(env, e) && SentKey(e.req, ReplyRoot(env, e).value) == Some(NO_KEY)))
  }

  /** The latest request of a history, with its reply. */
  function LastExchange(h: History): (r: Option<Event>)
    ensures r.Some? ==> r.value.Exchange?
  {
    match h
    case Start => None
    case Then(past, e) => if e.Exchange? then Some(e) else LastExchange(past)
  }

  lemma {:induction false} LastExchangeIsGenuine(env: Env, init: Store, h: History) returns (past: History)
    requires Sound(env, init, h) && LastExchange(h).Some?
    ensures Genuine(env, past, LastExchange(h).value)
    decreases h
  {
    hide Genuine, Replay, Current, KeyJustified, PolicyJustified;
    if h.last.Exchange? {
      past := h.past;
    } else {
      past := LastExchangeIsGenuine(env, init, h.past);
    }
  }

  // ---- One Sync -----------------------------------------------------------

  lemma {:induction false} EmptyReply(env: Env, init: Store, w: World, req: Request)
    requires Inv(env, init, w) && Current(w.history, w.store, req) && Post(env, w, req).r == Success(None)
    ensures var h := Post(env, w, req).w.history; h.Then? && h.last.Exchange? && h.last.req == req && Keyless(env, h.last)
  {
    hide PostRaw, RootOf, Inv, Accepts;
    LocalStepSafe(env, init, w, Posted(req));
    PostRawSafe(env, init, Log(w, Posted(req)), req, Codec.Marshal(env.reg, DocumentOf(RootOf(req))).value);
  }

  lemma RootMeansAnswer(env: Env, e: Event)
    requires ReplyRoot(env, e).Some?
    ensures e.Exchange? && e.reply.Answer? && 200 <= e.reply.status < 300
  {
  }

  /** The latest request is this folder's fetch, and its reply decides whether the stored key is usable. */
  predicate ReplyDecides(env: Env, w: World, folder: Bytes, payload: Payload) {
    var last := LastExchange(w.history);
    && last.Some? && last.value.req.Sync? && last.value.req.folder == folder && last.value.req.payload == payload
    && (Usable(w.store.KeyOf(folder)) <==> !Keyless(env, last.value))
  }

  lemma ParseSyncDecides(env: Env, w: World, folder: Bytes, req: Request, root: Element)
    requires req.Sync? && req.folder == folder && Answered(env, w.history, req, root)
    ensures var o := ParseSync(env, w, folder, req, root);
            o.r.Success? ==> ReplyDecides(env, o.w, folder, req.payload)
  {
    hide ReplyRoot, Refusal, Find, Near, SentKey, CommandsIn, DeliveredBy;
    RootMeansAnswer(env, w.history.last);
    assert LastExchange(w.history) == Some(w.history.last);
    var sent := SentKey(req, root);
    if sent.Some? {
      var kept := WriteKey(env, w, folder, sent.value);
      assert LastExchange(kept.w.history) == LastExchange(w.history);
    }
  }

  lemma SyncOnceDecides(env: Env, init: Store, w: World, folder: Bytes, payload: Payload)
    requires Inv(env, init, w) && !Usable(w.store.KeyOf(folder))
    ensures var o := SyncOnce(env, w, folder, payload);
            o.r.Success? ==> ReplyDecides(env, o.w, folder, payload)
  {
    hide Post, ParseSync, Refusal, SentKey, RootOf, ReplyRoot, Inv, Keyless, Answered;
    ReadKeySafe(env, init, w, folder);
    var k := ReadKey(env, w, folder);
    if k.r.Success? {
      var req := Sync(folder, k.r.value, payload);
      PostSafe(env, init, k.w, req);
      var o := Post(env, k.w, req);
      if o.r == Success(None) {
        EmptyReply(env, init, k.w, req);
        assert LastExchange(o.w.history) == Some(o.w.history.last);
      } else if o.r.Success? {
        assert Answered(env, o.w.history, req, o.r.value.value) by { AnsweredIs(env, o.w.history, req, o.r.value.value); }
        ParseSyncDecides(env, o.w, folder, req, o.r.value.value);
      }
    }
  }

  lemma AnsweredIs(env: Env, h: History, req: Request, root: Element)
    requires h.Then? && h.last.Exchange? && h.last.req == req && ReplyRoot(env, h.last) == Some(root)
    ensures Answered(env, h, req, root)
  {
  }

  // ---- The bootstrap ------------------------------------------------------

  lemma BootstrapDecides(env: Env, init: Store, w: World, folder: Bytes)
    requires Inv(env, init, w) && !Usable(w.store.KeyOf(folder))
    ensures var o := EnsureSynced(env, w, folder);
            o.r.Success? ==> ReplyDecides(env, o.w, folder, Email(EmailDefaults(BOOTSTRAP)))
  {
    hide SyncOnce, Inv, EmailDefaults, ReplyDecides;
    ReadKeySafe(env, init, w, folder);
    var k := ReadKey(env, w, folder);
    var payload := Email(EmailDefaults(BOOTSTRAP));
    SyncOnceSafe(env, init, k.w, folder, payload);
    SyncOnceDecides(env, init, k.w, folder, payload);
    var first := SyncOnce(env, k.w, folder, payload);
    if IsInvalidKey(first.r) {
      ResetSafe(env, init, first.w, folder);
      var reset := WriteKey(env, first.w, folder, NO_KEY);
      if reset.r.Success? { SyncOnceDecides(env, init, reset.w, folder, payload); }
    }
  }

  /** A bootstrap that succeeds leaves a usable key exactly when there was one before, or the reply to its own last
      request gives one: it has a document, and does not send "0". */
  lemma BootstrapYieldsKey(env: Env, init: Store, w: World, folder: Bytes)
    requires Inv(env, init, w)
    ensures var o := EnsureSynced(env, w, folder);
            o.r.Success? ==>
              (Usable(o.w.store.KeyOf(folder)) <==>
               || Usable(w.store.KeyOf(folder))
               || (LastExchange(o.w.history).Some? && !Keyless(env, LastExchange(o.w.history).value)))
  {
    hide SyncEmail, Inv, Keyless;
    if !Usable(w.store.KeyOf(folder)) { BootstrapDecides(env, init, w, folder); }
  }

  // ---- Where it fails -----------------------------------------------------

  /** A server that acknowledges every request with an empty 200, as some do. */
  function Silent(reg: Pages): Env {
    Env(reg, false, _ => false, (h: History, command: string, policyKey: Key, body: Bytes) => Answer(200, []))
  }

  /** Against it a first bootstrap succeeds without a key: ensureSynced does not make sure of a non-zero one. */
  lemma SilentBootstrapYieldsNoKey(reg: Pages, w: World, folder: Bytes)
    requires folder != [] && !Usable(w.store.KeyOf(folder))
    requires Codec.Marshal(reg, DocumentOf(RootOf(Sync(folder, w.store.KeyOf(folder), Email(EmailDefaults(BOOTSTRAP)))))).Success?
    ensures var o := EnsureSynced(Silent(reg), w, folder);
            o.r.Success? && o.w.store == w.store && !Usable(o.w.store.KeyOf(folder))
  {
    hide RootOf, Codec.Marshal, EmailDefaults, Command;
    var env, key := Silent(reg), w.store.KeyOf(folder);
    var k := ReadKey(env, w, folder);
    var k2 := ReadKey(env, k.w, folder);
    SilentPost(reg, k2.w, Sync(folder, key, Email(EmailDefaults(BOOTSTRAP))));
  }

  lemma {:induction false} SilentPost(reg: Pages, w: World, req: Request)
    requires Codec.Marshal(reg, DocumentOf(RootOf(req))).Success?
    ensures var o := Post(Silent(reg), w, req); o.r == Success(None) && o.w.store == w.store
  {
    hide RootOf, Codec.Marshal, Command;
  }

  // ---- Mutations are keyed ------------------------------------------------

  /** The server answers the folder's fetches with a document that does not send the key "0". */
  ghost predicate GivesKeys(env: Env, folder: Bytes) {
    forall past, e :: Genuine(env, past, e) && Fetches(e, folder) ==> !Keyless(env, e)
  }

  /** A mutation sent under a key the server never gave. */
  predicate IsUnkeyed(past: History, e: Event) {
    e.Exchange? && IsMutation(e.req) && !Usable(e.req.key)
  }

  const UNKEYED: Ledger := IsUnkeyed

  lemma MutateOnceIsKeyed(env: Env, init: Store, w: World, folder: Bytes, m: Mutation)
    requires Inv(env, init, w) && Usable(w.store.KeyOf(folder))
    ensures Quiet(UNKEYED, w, MutateOnce(env, w, folder, m).w)
  {
    hide Post, Refusal, SentKey, RootOf, ReplyRoot, Find, AllChangeNodes, NeverAppliesRejected, Applied, WriteKey,
         Answered, Inv;
    ReadKeySafe(env, init, w, folder);
    StoreIsQuiet(env, UNKEYED, w, folder, NO_KEY);
    var k := ReadKey(env, w, folder);
    if k.r.Success? {
      var req := Sync(folder, k.r.value, PayloadOf(m));
      PostApplies(env, UNKEYED, k.w, req);
      var o := Post(env, k.w, req);
      if o.r.Success? && o.r.value.Some? && SentKey(req, o.r.value.value).Some? {
        StoreIsQuiet(env, UNKEYED, o.w, folder, SentKey(req, o.r.value.value).value);
      }
    }
  }

  lemma ReadyAfterBootstrap(env: Env, init: Store, w: World, folder: Bytes)
    requires Inv(env, init, w) && GivesKeys(env, folder)
    ensures var o := EnsureSynced(env, w, folder);
            && Inv(env, init, o.w) && Quiet(UNKEYED, w, o.w) && (o.r.Success? ==> Usable(o.w.store.KeyOf(folder)))
  {
    hide EnsureSynced, Sound, Replay, Genuine, Keyless, Applied;
    EnsureSyncedSafe(env, init, w, folder);
    EnsureSyncedIsQuiet(env, UNKEYED, w, folder);
    BootstrapYieldsKey(env, init, w, folder);
    var o := EnsureSynced(env, w, folder);
    if o.r.Success? && !Usable(w.store.KeyOf(folder)) {
      BootstrapDecides(env, init, w, folder);
      var past := LastExchangeIsGenuine(env, init, o.w.history);
    }
  }

  /** Against a server that gives keys, neither the first attempt nor the replay after a reset is sent without one: the
      replay carries the key the second bootstrap was given. */
  lemma MutationIsKeyed(env: Env, init: Store, w: World, folder: Bytes, m: Mutation)
    requires Inv(env, init, w) && GivesKeys(env, folder)
    ensures Quiet(UNKEYED, w, MutateWithReset(env, w, folder, m).w)
  {
    hide EnsureSynced, MutateOnce, WriteKey, Inv, Applied, GivesKeys, Refuses;
    ReadyAfterBootstrap(env, init, w, folder);
    var ready := EnsureSynced(env, w, folder);
    if ready.r.Success? {
      MutateOnceIsKeyed(env, init, ready.w, folder, m);
      MutateOnceSafe(env, init, ready.w, folder, m);
      var first := MutateOnce(env, ready.w, folder, m);
      if IsInvalidKey(first.r) {
        ResetSafe(env, init, first.w, folder);
        StoreIsQuiet(env, UNKEYED, first.w, folder, NO_KEY);
        var reset := WriteKey(env, first.w, folder, NO_KEY);
        ReadyAfterBootstrap(env, init, reset.w, folder);
        var again := EnsureSynced(env, reset.w, folder);
        if again.r.Success? { MutateOnceIsKeyed(env, init, again.w, folder, m); }
      }
    }
  }

  lemma CalendarMutationIsKeyed(env: Env, init: Store, w: World, folder: Bytes, cmds: Element)
    requires Inv(env, init, w) && GivesKeys(env, folder)
    ensures Quiet(UNKEYED, w, MutateCalendar(env, w, folder, cmds).w)
  {
    hide EnsureSynced, MutateOnce, Inv, Applied, GivesKeys;
    ReadyAfterBootstrap(env, init, w, folder);
    var ready := EnsureSynced(env, w, folder);
    if ready.r.Success? { MutateOnceIsKeyed(env, init, ready.w, folder, Send(cmds)); }
  }

  /** Over any run against servers that give keys, no mutation is ever sent without one. */
  lemma {:induction false} RunIsKeyed(env: Env, init: Store, w: World, ops: seq<Op>)
    requires Inv(env, init, w) && forall folder :: GivesKeys(env, folder)
    ensures Quiet(UNKEYED, w, Run(env, w, ops))
    decreases ops
  {
    hide Inv, Applied, GivesKeys, Do;
    if ops != [] {
      OperationSafe(env, init, w, ops[0]);
      OperationIsKeyed(env, init, w, ops[0]);
      RunIsKeyed(env, init, Do(env, w, ops[0]), ops[1..]);
    }
  }

  lemma OperationIsKeyed(env: Env, init: Store, w: World, op: Op)
    requires Inv(env, init, w) && forall folder :: GivesKeys(env, folder)
    ensures Quiet(UNKEYED, w, Do(env, w, op))
  {
    hide Inv, Applied, GivesKeys, MutateWithReset, MutateCalendar, ProvisionAll, Session.FolderSync, SyncFolder,
         GenericSync, EmailDefaults;
    match op
    case DoApply(folder, changes) => MutationIsKeyed(env, init, w, folder, Apply(changes));
    case DoSend(folder, cmds) => MutationIsKeyed(env, init, w, folder, Send(cmds));
    case DoCalendarSend(folder, cmds) => CalendarMutationIsKeyed(env, init, w, folder, cmds);
    case _ => OtherOperationsAreQuiet(env, UNKEYED, w, op);
  }
}
