/** The sync operations in conversation with a server that answers: what is asked, in what order, and what is returned. */
module Conversations {
  import opened Basics
  import opened Tree
  import opened Errors
  import opened Protocol
  import opened Session
  import opened Replies
  import opened Dialogue
  import Decimal

  /** The server answers a fetch or mutation of the folder, under the key stored, with this collection. */
  predicate Hears(env: Env, w: World, folder: Bytes, payload: Payload, top: Option<Decimal.int64>, c: Collection) {
    Answers(env, Read(w, folder), Asked(w, folder, payload), SyncReply(top, c))
  }

  function Asked(w: World, folder: Bytes, payload: Payload): Request { Sync(folder, w.store.KeyOf(folder), payload) }

  /** The world in which its reply has come in. */
  function Heard(env: Env, w: World, folder: Bytes, payload: Payload): World {
    After(env, Read(w, folder), Asked(w, folder, payload))
  }

  /** The world in which the reply's key is stored. */
  function Kept(env: Env, w: World, folder: Bytes, payload: Payload, key: Key): World {
    Wrote(Heard(env, w, folder, payload), folder, key)
  }

  // ---- Fetching -----------------------------------------------------------

  /** One email or calendar Sync against any collection a server can write. */
  lemma SyncOnceHears(env: Env, w: World, folder: Bytes, payload: Payload, top: Option<Decimal.int64>, c: Collection)
    requires Reliable(env) && Hears(env, w, folder, payload, top, c)
    ensures var o := SyncOnce(env, w, folder, payload);
            match FailingCode(top, c.status)
            case Some(code) => o == Outcome(Heard(env, w, folder, payload), Failure(StatusError("Sync", code)))
            case None =>
              if c.key.None? || c.key.value == [] then
                o.w == Heard(env, w, folder, payload) && o.r.Failure? && FirstStatus(o.r.error).None?
              else
                o == Outcome(Kept(env, w, folder, payload, c.key.value),
                             Success(SyncResult(c.key.value, c.more, DeliveredBy(c.cmds))))
  {
    hide Post, Answers, After, SyncReply, CollectionElement, Refusal, SentKey, Find, Near, CommandsIn,
      DeliveredBy, ReadKey, WriteKey;
    var req := Asked(w, folder, payload);
    StoreAnswers(env, w, folder, []);
    PostAnswered(env, Read(w, folder), req, SyncReply(top, c));
    SyncReplyIsRead(req, top, c);
    if c.key.Some? { StoreAnswers(env, Heard(env, w, folder, payload), folder, c.key.value); }
  }

  /** An empty reply is an empty batch under the old key. */
  lemma SyncOnceHearsNothing(env: Env, w: World, folder: Bytes, payload: Payload)
    requires Reliable(env) && SaysNothing(env, Read(w, folder), Asked(w, folder, payload))
    ensures var nothing := Outcome(Heard(env, w, folder, payload),
                                   Success(SyncResult(w.store.KeyOf(folder), false, Batch([], [], []))));
            && SyncOnce(env, w, folder, payload) == nothing
            && (payload.Generic? ==> GenericSync(env, w, folder) == nothing)
  {
    hide Post, After, ReadKey, SaysNothing;
    StoreAnswers(env, w, folder, []);
    PostUnanswered(env, Read(w, folder), Asked(w, folder, payload));
  }

  /** The payloads of the two public fetches, defaults filled in; an empty folder id is refused before anything is asked. */
  lemma PublicFetches(env: Env, w: World, folder: Bytes, o: EmailOptions, window: Decimal.int64, filter: Decimal.int64, no: bool)
    ensures folder != [] ==> SyncEmail(env, w, folder, o) == SyncFolder(env, w, folder, Email(EmailDefaults(o)), o.noBootstrap)
    ensures folder != [] ==>
              SyncCalendar(env, w, folder, window, filter, no)
              == SyncFolder(env, w, folder, Calendar(if window >= 1 then window else 100, if filter != 0 then filter else 4), no)
    ensures SyncEmail(env, w, [], o).w == SyncCalendar(env, w, [], window, filter, no).w == w
    ensures SyncEmail(env, w, [], o).r.Failure? && SyncCalendar(env, w, [], window, filter, no).r.Failure?
  {
    hide SyncFolder, EmailDefaults;
  }

  /** Told that the key is invalid, at the top or in the collection, a fetch stores "0" and asks once more under it; what
      comes of that is its outcome. */
  lemma FetchStartsOver(env: Env, w: World, folder: Bytes, payload: Payload, top: Option<Decimal.int64>, c: Collection)
    requires Reliable(env) && Hears(env, w, folder, payload, top, c) && FailingCode(top, c.status) == Some(3)
    ensures var reset := Wrote(Heard(env, w, folder, payload), folder, [0x30]);
            && Asked(reset, folder, payload) == Sync(folder, [0x30], payload)
            && SyncWithReset(env, w, folder, payload) == SyncOnce(env, reset, folder, payload)
  {
    hide Reliable, Hears, SyncOnce, WriteKey, Heard, DeliveredBy;
    SyncOnceHears(env, w, folder, payload, top, c);
    StoreAnswers(env, Heard(env, w, folder, payload), folder, [0x30]);
  }

  /** SyncEmail against a server that calls the stored key invalid and then answers: "0" is stored and sent, and the second
      answer is returned, with its key stored. */
  lemma SyncEmailRecovers(env: Env, w: World, folder: Bytes, o: EmailOptions, top: Option<Decimal.int64>, c: Collection,
                          top': Option<Decimal.int64>, c': Collection)
    requires Reliable(env) && folder != []
    requires var payload := Email(EmailDefaults(o));
             && Hears(env, w, folder, payload, top, c) && FailingCode(top, c.status) == Some(3)
             && Hears(env, Wrote(Heard(env, w, folder, payload), folder, [0x30]), folder, payload, top', c')
    requires FailingCode(top', c'.status).None? && c'.key.Some? && c'.key.value != []
    requires o.noBootstrap || DeliveredBy(c'.cmds) != Batch([], [], [])
    ensures var payload := Email(EmailDefaults(o));
            var reset := Wrote(Heard(env, w, folder, payload), folder, [0x30]);
            SyncEmail(env, w, folder, o)
            == Outcome(Kept(env, reset, folder, payload, c'.key.value),
                       Success(SyncResult(c'.key.value, c'.more, DeliveredBy(c'.cmds))))
  {
    hide Reliable, Hears, SyncOnce, SyncWithReset, Heard, DeliveredBy, EmailDefaults;
    var payload := Email(EmailDefaults(o));
    FetchStartsOver(env, w, folder, payload, top, c);
    SyncOnceHears(env, Wrote(Heard(env, w, folder, payload), folder, [0x30]), folder, payload, top', c');
  }

  /** Any other outcome of the first Sync stands. */
  lemma FetchStands(env: Env, w: World, folder: Bytes, payload: Payload, top: Option<Decimal.int64>, c: Collection)
    requires Reliable(env) && Hears(env, w, folder, payload, top, c) && FailingCode(top, c.status) != Some(3)
    ensures SyncWithReset(env, w, folder, payload) == SyncOnce(env, w, folder, payload)
  {
    hide Reliable, Hears, SyncOnce, Heard, DeliveredBy;
    SyncOnceHears(env, w, folder, payload, top, c);
  }

  /** A batch with items is returned as it is, and so is any batch if the caller wants no second call. */
  lemma FetchReturnsItems(env: Env, w: World, folder: Bytes, payload: Payload, noBootstrap: bool)
    ensures var o := SyncWithReset(env, w, folder, payload);
            o.r.Failure? || noBootstrap || o.r.value.batch != Batch([], [], []) ==>
              SyncFolder(env, w, folder, payload, noBootstrap) == o
  {
    hide SyncWithReset;
  }

  /** After a first batch without items a second Sync is made under the key just stored. If it succeeds, its result is
      returned; if it fails, the first result is, and the world is the one the second Sync left. */
  lemma FetchCallsAgain(env: Env, w: World, folder: Bytes, payload: Payload, top: Option<Decimal.int64>, c: Collection)
    requires Reliable(env)
    requires var o := SyncWithReset(env, w, folder, payload);
             && o.r.Success? && o.r.value.batch == Batch([], [], [])
             && o.w.store.KeyOf(folder) != [0x30] && o.w.store.KeyOf(folder) != []
             && Hears(env, Read(o.w, folder), folder, payload, top, c) && c.key.Some? && c.key.value != []
    ensures var o := SyncWithReset(env, w, folder, payload);
            SyncFolder(env, w, folder, payload, false)
            == if FailingCode(top, c.status).Some? then Outcome(Heard(env, Read(o.w, folder), folder, payload), o.r)
               else Outcome(Kept(env, Read(o.w, folder), folder, payload, c.key.value),
                            Success(SyncResult(c.key.value, c.more, DeliveredBy(c.cmds))))
  {
    hide Reliable, Hears, SyncWithReset, SyncOnce, ReadKey, Heard, DeliveredBy;
    var o := SyncWithReset(env, w, folder, payload);
    StoreAnswers(env, o.w, folder, []);
    SyncOnceHears(env, Read(o.w, folder), folder, payload, top, c);
  }

  /** With the key still "0" or empty there is nothing to call again for. */
  lemma FetchStopsWithoutKey(env: Env, w: World, folder: Bytes, payload: Payload)
    requires Reliable(env)
    requires var o := SyncWithReset(env, w, folder, payload);
             && o.r.Success? && o.r.value.batch == Batch([], [], [])
             && (o.w.store.KeyOf(folder) == [0x30] || o.w.store.KeyOf(folder) == [])
    ensures var o := SyncWithReset(env, w, folder, payload);
            SyncFolder(env, w, folder, payload, false) == Outcome(Read(o.w, folder), o.r)
  {
    hide Reliable, SyncWithReset, SyncOnce, ReadKey;
    var o := SyncWithReset(env, w, folder, payload);
    StoreAnswers(env, o.w, folder, []);
  }

  /** Contacts, tasks and notes: one Sync, whose reply may leave the key out. */
  lemma GenericSyncHears(env: Env, w: World, folder: Bytes, top: Option<Decimal.int64>, c: Collection)
    requires Reliable(env) && Hears(env, w, folder, Generic, top, c)
    ensures var o := GenericSync(env, w, folder);
            var key := match c.key case Some(k) => k case None => w.store.KeyOf(folder);
            match FailingCode(top, c.status)
            case Some(code) => o == Outcome(Heard(env, w, folder, Generic), Failure(StatusError("Sync", code)))
            case None =>
              if key == [] then o.w == Heard(env, w, folder, Generic) && o.r.Failure? && FirstStatus(o.r.error).None?
              else
                o == Outcome(Kept(env, w, folder, Generic, key), Success(SyncResult(key, c.more, GenericDeliveredBy(c.cmds))))
  {
    hide Post, Answers, After, SyncReply, CollectionElement, Refusal, SentKey, Find, Near, CommandsIn,
      GenericDeliveredBy, ReadKey, WriteKey;
    var req := Asked(w, folder, Generic);
    StoreAnswers(env, w, folder, []);
    PostAnswered(env, Read(w, folder), req, SyncReply(top, c));
    SyncReplyIsRead(req, top, c);
    StoreAnswers(env, Heard(env, w, folder, Generic), folder, match c.key case Some(k) => k case None => w.store.KeyOf(folder));
  }

  /** Without a collection a fetch fails and nothing is stored. */
  lemma {:induction false} NoCollection(env: Env, w: World, folder: Bytes, payload: Payload, root: Element)
    requires Reliable(env) && Answers(env, Read(w, folder), Asked(w, folder, payload), root)
    requires Find(root, "Collection").None? && Children(root.children, "Status") == []
    ensures var o := SyncOnce(env, w, folder, payload); o.w == Heard(env, w, folder, payload) && o.r.Failure?
    ensures payload.Generic? ==>
              GenericSync(env, w, folder).w == Heard(env, w, folder, payload) && GenericSync(env, w, folder).r.Failure?
  {
    hide Post, Answers, After, ReadKey, Find;
    StoreAnswers(env, w, folder, []);
    PostAnswered(env, Read(w, folder), Asked(w, folder, payload), root);
    TopStatusIsFirst(root.children);
  }

  // ---- Mutating -----------------------------------------------------------

  /** A bootstrap asks nothing under a usable key, and otherwise is one email fetch with the default options. */
  lemma EnsureSyncedHears(env: Env, w: World, folder: Bytes, top: Option<Decimal.int64>, c: Collection)
    requires Reliable(env) && folder != []
    ensures w.store.KeyOf(folder) != [0x30] && w.store.KeyOf(folder) != [] ==>
              EnsureSynced(env, w, folder) == Outcome(Read(w, folder), Success(()))
    ensures var payload := Email(EmailDefaults(EmailOptions(0, 0, 0, 0, true, 0, 0, false, false, 0, 0, 0)));
            (w.store.KeyOf(folder) == [0x30] || w.store.KeyOf(folder) == [])
            && Hears(env, Read(w, folder), folder, payload, top, c) && FailingCode(top, c.status).None?
            && c.key.Some? && c.key.value != [] ==>
              EnsureSynced(env, w, folder) == Outcome(Kept(env, Read(w, folder), folder, payload, c.key.value), Success(()))
  {
    hide Reliable, Hears, SyncOnce, ReadKey, Heard, DeliveredBy, EmailDefaults;
    StoreAnswers(env, w, folder, []);
    var payload := Email(EmailDefaults(EmailOptions(0, 0, 0, 0, true, 0, 0, false, false, 0, 0, 0)));
    if Hears(env, Read(w, folder), folder, payload, top, c) { SyncOnceHears(env, Read(w, folder), folder, payload, top, c); }
  }

  /** The payload of a mutation: the commands as they are, or those of the changes. */
  function Mutating(m: Mutation): Payload {
    match m
    case Send(cmds) => Commands(cmds)
    case Apply(changes) => Changes(Element(0, "Commands", AllChangeNodes(changes)))
  }

  /** What a mutation returns of an accepting reply: the document, or the statuses of its responses. */
  function Returned(m: Mutation, top: Option<Decimal.int64>, c: Collection): MutationReply {
    match m
    case Send(_) => Root(Some(SyncReply(top, c)))
    case Apply(_) => Statuses(ChangeResults(c.responses))
  }

  predicate HasEffect(m: Mutation) { m.Apply? ==> AllChangeNodes(m.changes) != [] }

  /** One attempt against any collection a server can write: a key in the reply is stored, whatever it is. */
  lemma MutateOnceHears(env: Env, w: World, folder: Bytes, m: Mutation, top: Option<Decimal.int64>, c: Collection)
    requires Reliable(env) && HasEffect(m) && Hears(env, w, folder, Mutating(m), top, c)
    ensures MutateOnce(env, w, folder, m)
         == match FailingCode(top, c.status)
            case Some(code) => Outcome(Heard(env, w, folder, Mutating(m)), Failure(StatusError("Sync", code)))
            case None =>
              match c.key
              case None => Outcome(Heard(env, w, folder, Mutating(m)), Success(Returned(m, top, c)))
              case Some(key) => Outcome(Kept(env, w, folder, Mutating(m), key), Success(Returned(m, top, c)))
  {
    hide Post, Answers, After, SyncReply, CollectionElement, Refusal, SentKey, Find, Near, ReadKey, WriteKey, ResponsesIn,
         ChangeResults, AllChangeNodes;
    var req := Asked(w, folder, Mutating(m));
    StoreAnswers(env, w, folder, []);
    PostAnswered(env, Read(w, folder), req, SyncReply(top, c));
    SyncReplyIsRead(req, top, c);
    if c.key.Some? { StoreAnswers(env, Heard(env, w, folder, Mutating(m)), folder, c.key.value); }
  }

  /** An empty reply to a mutation is no document and no statuses. A reply without a collection is returned as it is for
      commands, and is a failure for email changes. */
  lemma {:induction false} MutationIsAnsweredOtherwise(env: Env, w: World, folder: Bytes, m: Mutation, root: Element)
    requires Reliable(env) && HasEffect(m)
    ensures SaysNothing(env, Read(w, folder), Asked(w, folder, Mutating(m))) ==>
              MutateOnce(env, w, folder, m)
              == Outcome(Heard(env, w, folder, Mutating(m)), Success(if m.Send? then Root(None) else Statuses([])))
    ensures Answers(env, Read(w, folder), Asked(w, folder, Mutating(m)), root)
            && Find(root, "Collection").None? && Children(root.children, "Status") == [] ==>
              var o := MutateOnce(env, w, folder, m);
              o.w == Heard(env, w, folder, Mutating(m)) && if m.Send? then o.r == Success(Root(Some(root))) else o.r.Failure?
  {
    hide Post, Answers, After, ReadKey, SaysNothing, Find, AllChangeNodes, TopStatus;
    var req := Asked(w, folder, Mutating(m));
    StoreAnswers(env, w, folder, []);
    TopStatusIsFirst(root.children);
    if SaysNothing(env, Read(w, folder), req) { PostUnanswered(env, Read(w, folder), req); }
    if Answers(env, Read(w, folder), req, root) { PostAnswered(env, Read(w, folder), req, root); }
  }

  /** Changes without effect are refused before anything is asked, and so are an empty folder id and an empty list. */
  lemma {:induction false} NothingToApply(env: Env, w: World, folder: Bytes, changes: seq<EmailChange>,
                                          clientId: Bytes, app: Element)
    requires Reliable(env)
    ensures AllChangeNodes(changes) == [] ==>
              var o := MutateOnce(env, w, folder, Apply(changes)); o.w == Read(w, folder) && o.r.Failure?
    ensures var o := ApplyEmailChanges(env, w, [], changes); o.w == w && o.r.Failure?
    ensures var o := ApplyEmailChanges(env, w, folder, []); o.w == w && o.r.Failure?
    ensures var o := AddItem(env, w, [], clientId, app); o.w == w && o.r.Failure?
    ensures folder != [] && changes != [] ==>
              ApplyEmailChanges(env, w, folder, changes) == MutateWithReset(env, w, folder, Apply(changes))
  {
    hide Post, Reliable, ReadKey, MutateWithReset;
    StoreAnswers(env, w, folder, []);
  }

  /** Under a usable key, a mutation that is not told the key is invalid is one attempt, whatever its outcome. */
  lemma MutationIsOneAttempt(env: Env, w: World, folder: Bytes, m: Mutation, cmds: Element)
    requires Reliable(env) && folder != [] && w.store.KeyOf(folder) != [0x30] && w.store.KeyOf(folder) != []
    ensures var once := MutateOnce(env, Read(w, folder), folder, m);
            !IsInvalidKey(once.r) ==> MutateWithReset(env, w, folder, m) == once
    ensures MutateCalendar(env, w, folder, cmds) == MutateOnce(env, Read(w, folder), folder, Send(cmds))
  {
    hide Reliable, MutateOnce, EnsureSynced;
    EnsureSyncedHears(env, w, folder, None, Collection(None, [], None, false, [], []));
  }

  /** Without a usable key a mutation bootstraps first. If that is refused, nothing of the mutation is sent; if it gives a
      key, the attempt is made with that key stored. */
  lemma MutationBootstraps(env: Env, w: World, folder: Bytes, m: Mutation, cmds: Element,
                           top: Option<Decimal.int64>, c: Collection)
    requires Reliable(env) && folder != [] && (w.store.KeyOf(folder) == [0x30] || w.store.KeyOf(folder) == [])
    requires Hears(env, Read(w, folder), folder, BOOTSTRAPPING, top, c)
    ensures var code, o := FailingCode(top, c.status), MutateWithReset(env, w, folder, m);
            code.Some? && code.value != 3 ==>
              && o.w == MutateCalendar(env, w, folder, cmds).w == Heard(env, Read(w, folder), folder, BOOTSTRAPPING)
              && o.r.Failure? && FirstStatus(o.r.error) == code && MutateCalendar(env, w, folder, cmds).r == o.r
    ensures FailingCode(top, c.status).None? && c.key.Some? && c.key.value != [] ==>
              var ready := Kept(env, Read(w, folder), folder, BOOTSTRAPPING, c.key.value);
              var once := MutateOnce(env, ready, folder, m);
              && (!IsInvalidKey(once.r) ==> MutateWithReset(env, w, folder, m) == once)
              && MutateCalendar(env, w, folder, cmds) == MutateOnce(env, ready, folder, Send(cmds))
  {
    hide Reliable, Hears, Heard, Kept, SyncOnce, ReadKey, MutateOnce, DeliveredBy, EmailDefaults;
    StoreAnswers(env, w, folder, []);
    SyncOnceHears(env, Read(w, folder), folder, BOOTSTRAPPING, top, c);
    EnsureSyncedHears(env, w, folder, top, c);
  }

  /** Told that the key is invalid, a mutation stores "0", bootstraps under it, and makes the same attempt once more under
      the key it was given; what it hears then is its result. */
  lemma MutationReplays(env: Env, w: World, folder: Bytes, m: Mutation, top: Option<Decimal.int64>, c: Collection,
                        top0: Option<Decimal.int64>, c0: Collection, top': Option<Decimal.int64>, c': Collection)
    requires Reliable(env) && HasEffect(m) && folder != [] && w.store.KeyOf(folder) != [0x30] && w.store.KeyOf(folder) != []
    requires Hears(env, Read(w, folder), folder, Mutating(m), top, c) && FailingCode(top, c.status) == Some(3)
    requires FailingCode(top0, c0.status).None? && c0.key.Some? && c0.key.value != []
    requires Hears(env, Read(Reset(env, w, folder, m), folder), folder, BOOTSTRAPPING, top0, c0)
    requires Hears(env, Rebooted(env, w, folder, m, c0.key.value), folder, Mutating(m), top', c')
    ensures var again := Rebooted(env, w, folder, m, c0.key.value);
            && Asked(Read(Reset(env, w, folder, m), folder), folder, BOOTSTRAPPING) == Sync(folder, [0x30], BOOTSTRAPPING)
            && Asked(again, folder, Mutating(m)) == Sync(folder, c0.key.value, Mutating(m))
            && MutateWithReset(env, w, folder, m) == MutateOnce(env, again, folder, m)
  {
    hide Reliable, Hears, MutateOnce, EnsureSynced, Heard, EmailDefaults, HasEffect, Returned;
    EnsureSyncedHears(env, w, folder, None, c);
    MutateOnceHears(env, Read(w, folder), folder, m, top, c);
    StoreAnswers(env, Heard(env, Read(w, folder), folder, Mutating(m)), folder, [0x30]);
    EnsureSyncedHears(env, Reset(env, w, folder, m), folder, top0, c0);
  }

  const BOOTSTRAPPING: Payload := Email(EmailDefaults(EmailOptions(0, 0, 0, 0, true, 0, 0, false, false, 0, 0, 0)))

  /** The world after the refused attempt and the reset. */
  function Reset(env: Env, w: World, folder: Bytes, m: Mutation): World {
    Wrote(Heard(env, Read(w, folder), folder, Mutating(m)), folder, [0x30])
  }

  /** The world after the bootstrap that follows. */
  function Rebooted(env: Env, w: World, folder: Bytes, m: Mutation, key: Key): World {
    Kept(env, Read(Reset(env, w, folder, m), folder), folder, BOOTSTRAPPING, key)
  }

  /** An added item is sent under its client id, and the call returns the id the server's response assigns to it: the first
      one for that client id, or the client id if there is none. */
  lemma {:induction false} AddItemHears(env: Env, w: World, folder: Bytes, clientId: Bytes, app: Element,
                                        top: Option<Decimal.int64>, c: Collection)
    requires Reliable(env) && folder != [] && w.store.KeyOf(folder) != [0x30] && w.store.KeyOf(folder) != []
    requires Hears(env, Read(w, folder), folder, Commands(AddCommand(clientId, app)), top, c) && FailingCode(top, c.status).None?
    ensures AddItem(env, w, folder, clientId, app).r
         == Success(match AssignedIn(c.responses, clientId) case Some(id) => id case None => clientId)
  {
    hide Reliable, Hears, MutateOnce, MutateWithReset, Heard, SyncReply, ResponsesIn, AddCommand, AssignedIn;
    var m := Send(AddCommand(clientId, app));
    MutateOnceHears(env, Read(w, folder), folder, m, top, c);
    MutationIsOneAttempt(env, w, folder, m, app);
    SyncReplyIsRead(Asked(w, folder, Generic), top, c);
  }

  // ---- Folders ------------------------------------------------------------

  const HIERARCHY: Bytes := [0x5F, 0x5F, 0x72, 0x6F, 0x6F, 0x74, 0x5F, 0x5F]

  /** The hierarchy is asked for under the key stored for it, and answered with this list of changes. */
  predicate HearsFolders(env: Env, w: World, top: Option<Decimal.int64>, key: Key, changes: seq<Node>) {
    Answers(env, Read(w, HIERARCHY), Request.FolderSync(w.store.KeyOf(HIERARCHY)), FolderReply(top, key, changes))
  }

  function HeardFolders(env: Env, w: World): World {
    After(env, Read(w, HIERARCHY), Request.FolderSync(w.store.KeyOf(HIERARCHY)))
  }

  lemma RootFolderIsLiteral()
    ensures ROOT_FOLDER == HIERARCHY
  {
  }

  lemma {:induction false} FolderSyncOnceHears(env: Env, w: World, top: Option<Decimal.int64>, key: Key,
                                               changes: seq<Node>)
    requires Reliable(env) && HearsFolders(env, w, top, key, changes)
    ensures FolderSyncOnce(env, w)
         == if Fails(top) then Outcome(HeardFolders(env, w), Failure(StatusError("FolderSync", top.value)))
            else Outcome(Wrote(HeardFolders(env, w), HIERARCHY, key), Success(FolderResult(key, HierarchyOf(changes))))
  {
    hide Post, Answers, After, FolderReply, Refusal, SentKey, Find, ReadKey, WriteKey, HierarchyOf, Ascii;
    RootFolderIsLiteral();
    StoreAnswers(env, w, HIERARCHY, []);
    var req := Request.FolderSync(w.store.KeyOf(HIERARCHY));
    PostAnswered(env, Read(w, HIERARCHY), req, FolderReply(top, key, changes));
    FolderReplyIsRead(w.store.KeyOf(HIERARCHY), top, key, changes);
    StoreAnswers(env, HeardFolders(env, w), HIERARCHY, key);
  }

  /** No document, or one without a key, is a failure, and nothing is stored. */
  lemma {:induction false} FolderSyncHearsNothing(env: Env, w: World, root: Element)
    requires Reliable(env)
    ensures var req := Request.FolderSync(w.store.KeyOf(HIERARCHY));
            || SaysNothing(env, Read(w, HIERARCHY), req)
            || (Answers(env, Read(w, HIERARCHY), req, root)
                && Named(Preorder(root), "SyncKey") == [] && Children(root.children, "Status") == []) ==>
              Session.FolderSync(env, w).w == HeardFolders(env, w) && Session.FolderSync(env, w).r.Failure?
  {
    hide Post, Answers, After, SaysNothing, Refusal, SentKey, Preorder, ReadKey, WriteKey, Ascii;
    RootFolderIsLiteral();
    StoreAnswers(env, w, HIERARCHY, []);
    var req := Request.FolderSync(w.store.KeyOf(HIERARCHY));
    RefusalOfAnyOther(req, root);
    KeyOfAnyReply(req, root);
    if SaysNothing(env, Read(w, HIERARCHY), req) {
      PostUnanswered(env, Read(w, HIERARCHY), req);
    } else if Answers(env, Read(w, HIERARCHY), req, root) {
      PostAnswered(env, Read(w, HIERARCHY), req, root);
    }
  }

  /** A FolderSync returns the added, updated and deleted folders it is told of; told that the key is invalid, it stores "0",
      asks once more under it, and returns what it is told then. */
  lemma {:induction false} FolderSyncHears(env: Env, w: World, top: Option<Decimal.int64>, key: Key,
                                           changes: seq<Node>, top': Option<Decimal.int64>, key': Key,
                                           changes': seq<Node>)
    requires Reliable(env) && HearsFolders(env, w, top, key, changes)
    requires var reset := Wrote(HeardFolders(env, w), HIERARCHY, [0x30]);
             top == Some(3) ==> HearsFolders(env, reset, top', key', changes') && !Fails(top')
    ensures var reset := Wrote(HeardFolders(env, w), HIERARCHY, [0x30]);
            Session.FolderSync(env, w)
            == if top == Some(3) then
                 Outcome(Wrote(HeardFolders(env, reset), HIERARCHY, key'), Success(FolderResult(key', HierarchyOf(changes'))))
               else if Fails(top) then Outcome(HeardFolders(env, w), Failure(StatusError("FolderSync", top.value)))
               else Outcome(Wrote(HeardFolders(env, w), HIERARCHY, key), Success(FolderResult(key, HierarchyOf(changes))))
  {
    hide Reliable, HearsFolders, FolderSyncOnce, HierarchyOf, WriteKey, Ascii, HeardFolders;
    RootFolderIsLiteral();
    var heard := HeardFolders(env, w);
    FolderSyncOnceHears(env, w, top, key, changes);
    StoreAnswers(env, heard, HIERARCHY, [0x30]);
    if top == Some(3) { FolderSyncOnceHears(env, Wrote(heard, HIERARCHY, [0x30]), top', key', changes'); }
  }

  // ---- Local failures -----------------------------------------------------

  /** If the first local step fails, the operation ends there, and nothing is sent or stored. */
  lemma FirstStepFails(env: Env, w: World, folder: Bytes, payload: Payload, m: Mutation, req: Request, body: Bytes)
    requires env.fails(w.history)
    ensures var o := SyncOnce(env, w, folder, payload); o.w == Log(w, KeyRead(folder, false)) && o.r.Failure?
    ensures var o := GenericSync(env, w, folder); o.w == Log(w, KeyRead(folder, false)) && o.r.Failure?
    ensures var o := MutateOnce(env, w, folder, m); o.w == Log(w, KeyRead(folder, false)) && o.r.Failure?
    ensures var o := EnsureSynced(env, w, folder); o.w == Log(w, KeyRead(folder, false)) && o.r.Failure?
    ensures var o := FolderSyncOnce(env, w); o.w == Log(w, KeyRead(ROOT_FOLDER, false)) && o.r.Failure?
    ensures var o := PostRawOnce(env, w, req, body); o.w == Log(w, RequestBuilt(false)) && o.r.Failure?
  {
    hide Post, AllChangeNodes, Ascii;
  }

  /** A request whose policy key cannot be read is not sent. */
  lemma PolicyReadFails(env: Env, w: World, req: Request, body: Bytes)
    requires !env.fails(w.history) && env.fails(Then(w.history, RequestBuilt(true)))
    ensures var o := PostRawOnce(env, w, req, body);
            o.w == Log(Log(w, RequestBuilt(true)), PolicyRead(false)) && o.r.Failure?
  {
  }

  /** A key that cannot be read back after an empty first batch costs only the second call. */
  lemma SecondReadFails(env: Env, w: World, folder: Bytes, payload: Payload)
    requires var o := SyncWithReset(env, w, folder, payload);
             o.r.Success? && o.r.value.batch == Batch([], [], []) && env.fails(o.w.history)
    ensures var o := SyncWithReset(env, w, folder, payload);
            SyncFolder(env, w, folder, payload, false) == Outcome(Log(o.w, KeyRead(folder, false)), o.r)
  {
    hide SyncWithReset, SyncOnce;
  }

  /** The operation fails with an error that says nothing of a protocol status, in this world. */
  predicate FailsIn<T>(o: Outcome<T>, w: World) { o.w == w && o.r.Failure? && FirstStatus(o.r.error).None? }

  /** A key that cannot be stored fails the call, although the server has accepted the request. */
  lemma {:induction false} PersistFails(env: Env, w: World, folder: Bytes, payload: Payload, m: Mutation,
                                        root: Element, key: Key)
    requires !env.fails(w.history) && HasEffect(m)
    requires var req := Asked(w, folder, payload);
             Refusal(req, root).None? && Find(root, "Collection").Some? && SentKey(req, root) == Some(key) && key != []
    ensures var o := Post(env, Read(w, folder), Asked(w, folder, payload));
            o.r == Success(Some(root)) && env.fails(o.w.history) ==>
              && FailsIn(SyncOnce(env, w, folder, payload), Log(o.w, KeyWrite(folder, key, false)))
              && (payload.Generic? ==> FailsIn(GenericSync(env, w, folder), Log(o.w, KeyWrite(folder, key, false))))
    ensures var o := Post(env, Read(w, folder), Asked(w, folder, Mutating(m)));
            o.r == Success(Some(root)) && env.fails(o.w.history) ==>
              FailsIn(MutateOnce(env, w, folder, m), Log(o.w, KeyWrite(folder, key, false)))
  {
    hide Post, TopStatus, Find, Near, AllChangeNodes, DeliveredBy, GenericDeliveredBy, CommandsIn;
  }

  predicate Invalid<T>(o: Outcome<T>) { o.r.Failure? && FirstStatus(o.r.error) == Some(3) }

  /** A reset that cannot be stored fails the call, and nothing more is asked. */
  lemma ResetFails(env: Env, w: World, folder: Bytes, payload: Payload, m: Mutation)
    ensures var first := SyncOnce(env, w, folder, payload);
            Invalid(first) && env.fails(first.w.history) ==>
              FailsIn(SyncWithReset(env, w, folder, payload), Log(first.w, KeyWrite(folder, [0x30], false)))
    ensures var first := FolderSyncOnce(env, w);
            Invalid(first) && env.fails(first.w.history) ==>
              FailsIn(Session.FolderSync(env, w), Log(first.w, KeyWrite(ROOT_FOLDER, [0x30], false)))
    ensures var ready := EnsureSynced(env, w, folder);
            var first := MutateOnce(env, ready.w, folder, m);
            ready.r.Success? && Invalid(first) && env.fails(first.w.history) ==>
              FailsIn(MutateWithReset(env, w, folder, m), Log(first.w, KeyWrite(folder, [0x30], false)))
  {
    hide SyncOnce, FolderSyncOnce, EnsureSynced, MutateOnce;
  }

  /** A bootstrap that fails, before the attempt or before the replay, fails the call as it is, and nothing more is sent. */
  lemma BootstrapFails(env: Env, w: World, folder: Bytes, m: Mutation, cmds: Element)
    ensures var ready := EnsureSynced(env, w, folder);
            ready.r.Failure? ==> MutateWithReset(env, w, folder, m) == Outcome(ready.w, Failure(ready.r.error))
                                 && MutateCalendar(env, w, folder, cmds) == Outcome(ready.w, Failure(ready.r.error))
    ensures var ready := EnsureSynced(env, w, folder);
            var first := MutateOnce(env, ready.w, folder, m);
            ready.r.Success? && Invalid(first) && !env.fails(first.w.history) ==>
              var again := EnsureSynced(env, Wrote(first.w, folder, [0x30]), folder);
              again.r.Failure? ==> MutateWithReset(env, w, folder, m) == Outcome(again.w, Failure(again.r.error))
  {
    hide EnsureSynced, MutateOnce;
  }
}
