/** Replays never duplicate: one mutating call is applied at most once by a server that never applies what it rejects. */
module AtMostOnce {
  import opened Basics
  import opened Tree
  import opened Errors
  import opened Protocol
  import opened Session
  import opened Safety
  import Codec

  /** What the server did: whether it applied the commands of an exchange that happened after a history. */
  type Ledger = (History, Event) -> bool

  /** The reply turns the request down: 401, 449, or an invalid SyncKey. */
  predicate Rejected(env: Env, e: Event) {
    e.Exchange? &&
    ((e.reply.Answer? && (e.reply.status == HTTP_UNAUTHORIZED || e.reply.status == HTTP_RETRY_WITH))
     || Refuses(env, e, STATUS_INVALID_SYNC_KEY))
  }

  /** Only mutations change anything. */
  ghost predicate OnlyMutations(applies: Ledger) {
    forall past, e :: applies(past, e) ==> e.Exchange? && IsMutation(e.req)
  }

  /** A rejected request changes nothing. Whatever else becomes of a request (a lost reply, an HTTP 500, an undecodable
      body), the server may or may not have applied it. */
  ghost predicate NeverAppliesRejected(env: Env, applies: Ledger) {
    forall past, e :: applies(past, e) ==> !Rejected(env, e)
  }

  /** This request is never applied. */
  ghost predicate Never(applies: Ledger, req: Request) {
    forall past, e :: applies(past, e) ==> !(e.Exchange? && e.req == req)
  }

  /** The number of exchanges of a history the server applied. */
  function Applied(applies: Ledger, h: History): nat {
    match h
    case Start => 0
    case Then(past, e) => Applied(applies, past) + if applies(past, e) then 1 else 0
  }

  /** From one world to a later one, nothing was applied. */
  predicate Quiet(applies: Ledger, w: World, w': World) {
    Applied(applies, w'.history) == Applied(applies, w.history)
  }

  predicate AtMostOne(applies: Ledger, w: World, w': World) {
    Applied(applies, w.history) <= Applied(applies, w'.history) <= Applied(applies, w.history) + 1
  }

  /** Exactly the exchange that ends the history was applied, or nothing if the server did not apply that one. */
  predicate OnlyLast(applies: Ledger, w: World, h: History) {
    h.Then? && Applied(applies, h) == Applied(applies, w.history) + if applies(h.past, h.last) then 1 else 0
  }

  // ---- Posting ------------------------------------------------------------

  predicate TurnedDown(r: Result<Bytes, Error>) {
    r.Failure? && FirstHttp(r.error) in {Some(HTTP_UNAUTHORIZED), Some(HTTP_RETRY_WITH)}
  }

  lemma PostRawOnceApplies(env: Env, applies: Ledger, w: World, req: Request, body: Bytes)
    requires OnlyMutations(applies)
    ensures var o := PostRawOnce(env, w, req, body);
            && (Never(applies, req) ==> Quiet(applies, w, o.w))
            && AtMostOne(applies, w, o.w)
            && (o.r.Success? ==> LastAnswer(o.w.history, req, o.r.value) && OnlyLast(applies, w, o.w.history))
            && (o.r.Failure? ==> FirstStatus(o.r.error) == None)
            && (NeverAppliesRejected(env, applies) && TurnedDown(o.r) ==> Quiet(applies, w, o.w))
  {
    hide Refuses, Command, IsMutation;
    var w1 := Log(w, RequestBuilt(true));
    assert Quiet(applies, w, w1);
    var w2 := Log(w1, PolicyRead(true));
    assert Quiet(applies, w1, w2);
  }

  /** The resends after 401 and 449 never add up: the ones before the last were all rejected. */
  lemma {:induction false} PostRawApplies(env: Env, applies: Ledger, w: World, req: Request, body: Bytes)
    requires OnlyMutations(applies)
    ensures var o := PostRaw(env, w, req, body);
            && (Never(applies, req) ==> Quiet(applies, w, o.w))
            && (NeverAppliesRejected(env, applies) ==>
                  && AtMostOne(applies, w, o.w)
                  && (o.r.Success? ==> LastAnswer(o.w.history, req, o.r.value) && OnlyLast(applies, w, o.w.history))
                  && (o.r.Failure? && FirstStatus(o.r.error).Some? ==> Quiet(applies, w, o.w)))
    decreases Rank(req), 1
  {
    hide PostRawOnce, ProvisionAll, NeverAppliesRejected, Never, OnlyMutations, LastAnswer;
    PostRawOnceApplies(env, applies, w, req, body);
    var first := PostRawOnce(env, w, req, body);
    if first.r.Failure? {
      if env.retryOn401 && FirstHttp(first.r.error) == Some(HTTP_UNAUTHORIZED) {
        PostRawOnceApplies(env, applies, first.w, req, body);
      } else if FirstHttp(first.r.error) == Some(HTTP_RETRY_WITH) && !req.Provision? {
        ProvisionIsQuiet(env, applies, first.w);
        var p := ProvisionAll(env, first.w);
        if p.r.Success? { PostRawOnceApplies(env, applies, p.w, req, body); }
      }
    }
  }

  /** The history ends with this request's exchange, answered with this document, and only that one can have been applied. */
  predicate AppliedLast(env: Env, applies: Ledger, w: World, h: History, req: Request, root: Element) {
    Answered(env, h, req, root) && OnlyLast(applies, w, h)
  }

  lemma PostedIsQuiet(applies: Ledger, w: World, req: Request)
    requires OnlyMutations(applies)
    ensures Quiet(applies, w, Log(w, Posted(req)))
  {
    hide IsMutation;
  }

  lemma {:induction false} PostApplies(env: Env, applies: Ledger, w: World, req: Request)
    requires OnlyMutations(applies)
    ensures var o := Post(env, w, req);
            && (Never(applies, req) ==> Quiet(applies, w, o.w))
            && (NeverAppliesRejected(env, applies) ==>
                  && AtMostOne(applies, w, o.w)
                  && (o.r.Success? && o.r.value.Some? ==> AppliedLast(env, applies, w, o.w.history, req, o.r.value.value))
                  && (o.r.Failure? && FirstStatus(o.r.error).Some? ==> Quiet(applies, w, o.w)))
    decreases Rank(req), 2
  {
    hide PostRaw, RootOf, NeverAppliesRejected, Never, OnlyMutations, Applied;
    PostedIsQuiet(applies, w, req);
    var m := Codec.Marshal(env.reg, DocumentOf(RootOf(req)));
    if m.Success? {
      PostRawApplies(env, applies, Log(w, Posted(req)), req, m.value);
    }
  }

  // ---- Everything but the mutation itself ---------------------------------

  lemma NeverUnlessMutation(applies: Ledger, req: Request)
    requires OnlyMutations(applies) && !IsMutation(req)
    ensures Never(applies, req)
  {
  }

  lemma {:induction false} ProvisionIsQuiet(env: Env, applies: Ledger, w: World)
    requires OnlyMutations(applies)
    ensures Quiet(applies, w, ProvisionAll(env, w).w)
    decreases 0, 4
  {
    hide Post, Refusal, SentKey, Find, AppliedLast;
    NeverUnlessMutation(applies, Provision(NO_KEY, false));
    PostApplies(env, applies, w, Provision(NO_KEY, false));
    var temp := ProvisionPhase(env, w, NO_KEY, false);
    assert Quiet(applies, w, temp.w);
    if temp.r.Success? {
      var saved := WritePolicy(env, temp.w, temp.r.value);
      assert Quiet(applies, temp.w, saved.w);
      NeverUnlessMutation(applies, Provision(temp.r.value, true));
      PostApplies(env, applies, saved.w, Provision(temp.r.value, true));
      assert Quiet(applies, saved.w, ProvisionPhase(env, saved.w, temp.r.value, true).w);
    }
  }

  lemma StoreIsQuiet(env: Env, applies: Ledger, w: World, folder: Bytes, key: Key)
    requires OnlyMutations(applies)
    ensures Quiet(applies, w, ReadKey(env, w, folder).w)
    ensures Quiet(applies, w, WriteKey(env, w, folder, key).w)
    ensures WriteKey(env, w, folder, key).r.Failure? ==> FirstStatus(WriteKey(env, w, folder, key).r.error) == None
  {
    hide IsMutation;
  }

  lemma SyncOnceIsQuiet(env: Env, applies: Ledger, w: World, folder: Bytes, payload: Payload)
    requires OnlyMutations(applies) && !IsMutation(Sync(folder, [], payload))
    ensures Quiet(applies, w, SyncOnce(env, w, folder, payload).w)
  {
    hide Post, Refusal, SentKey, Find, Near, CommandsIn, DeliveredBy, OnlyMutations, Applied, AppliedLast, AtMostOne,
         Never, WriteKey;
    var k := ReadKey(env, w, folder);
    StoreIsQuiet(env, applies, w, folder, NO_KEY);
    if k.r.Success? {
      var req := Sync(folder, k.r.value, payload);
      NeverUnlessMutation(applies, req);
      PostApplies(env, applies, k.w, req);
      var o := Post(env, k.w, req);
      if o.r.Success? && o.r.value.Some? {
        var sent := SentKey(req, o.r.value.value);
        if sent.Some? { StoreIsQuiet(env, applies, o.w, folder, sent.value); }
      }
    }
  }

  lemma SyncFolderIsQuiet(env: Env, applies: Ledger, w: World, folder: Bytes, payload: Payload, noBootstrap: bool)
    requires OnlyMutations(applies) && !IsMutation(Sync(folder, [], payload))
    ensures Quiet(applies, w, SyncFolder(env, w, folder, payload, noBootstrap).w)
  {
    hide SyncOnce, OnlyMutations, Applied, WriteKey, ReadKey;
    SyncOnceIsQuiet(env, applies, w, folder, payload);
    var first := SyncOnce(env, w, folder, payload);
    StoreIsQuiet(env, applies, first.w, folder, NO_KEY);
    SyncOnceIsQuiet(env, applies, WriteKey(env, first.w, folder, NO_KEY).w, folder, payload);
    var o := SyncWithReset(env, w, folder, payload);
    StoreIsQuiet(env, applies, o.w, folder, NO_KEY);
    SyncOnceIsQuiet(env, applies, ReadKey(env, o.w, folder).w, folder, payload);
  }

  lemma EnsureSyncedIsQuiet(env: Env, applies: Ledger, w: World, folder: Bytes)
    requires OnlyMutations(applies)
    ensures Quiet(applies, w, EnsureSynced(env, w, folder).w)
  {
    hide SyncFolder, OnlyMutations, Applied, EmailDefaults;
    StoreIsQuiet(env, applies, w, folder, NO_KEY);
    SyncFolderIsQuiet(env, applies, ReadKey(env, w, folder).w, folder, Email(EmailDefaults(BOOTSTRAP)), true);
  }

  lemma GenericSyncIsQuiet(env: Env, applies: Ledger, w: World, folder: Bytes)
    requires OnlyMutations(applies)
    ensures Quiet(applies, w, GenericSync(env, w, folder).w)
  {
    hide Post, Refusal, SentKey, Find, Near, CommandsIn, GenericDeliveredBy, OnlyMutations, Applied, AppliedLast,
         AtMostOne, Never, WriteKey;
    var k := ReadKey(env, w, folder);
    StoreIsQuiet(env, applies, w, folder, NO_KEY);
    if k.r.Success? {
      var req := Sync(folder, k.r.value, Generic);
      NeverUnlessMutation(applies, req);
      PostApplies(env, applies, k.w, req);
      var o := Post(env, k.w, req);
      if o.r.Success? && o.r.value.Some? {
        var sent := match SentKey(req, o.r.value.value) case Some(x) => x case None => k.r.value;
        StoreIsQuiet(env, applies, o.w, folder, sent);
      }
    }
  }

  lemma FolderSyncOnceIsQuiet(env: Env, applies: Ledger, w: World)
    requires OnlyMutations(applies)
    ensures Quiet(applies, w, FolderSyncOnce(env, w).w)
  {
    hide Post, Refusal, SentKey, Find, HierarchyOf, OnlyMutations, Applied, AppliedLast, AtMostOne, Never, WriteKey,
         Ascii;
    var k := ReadKey(env, w, ROOT_FOLDER);
    StoreIsQuiet(env, applies, w, ROOT_FOLDER, NO_KEY);
    if k.r.Success? {
      var req := Protocol.FolderSync(k.r.value);
      NeverUnlessMutation(applies, req);
      PostApplies(env, applies, k.w, req);
      var o := Post(env, k.w, req);
      if o.r.Success? && o.r.value.Some? {
        var sent := SentKey(req, o.r.value.value);
        if sent.Some? { StoreIsQuiet(env, applies, o.w, ROOT_FOLDER, sent.value); }
      }
    }
  }

  lemma FolderSyncIsQuiet(env: Env, applies: Ledger, w: World)
    requires OnlyMutations(applies)
    ensures Quiet(applies, w, Session.FolderSync(env, w).w)
  {
    hide FolderSyncOnce, OnlyMutations, Applied, WriteKey;
    FolderSyncOnceIsQuiet(env, applies, w);
    var first := FolderSyncOnce(env, w);
    StoreIsQuiet(env, applies, first.w, ROOT_FOLDER, NO_KEY);
    FolderSyncOnceIsQuiet(env, applies, WriteKey(env, first.w, ROOT_FOLDER, NO_KEY).w);
  }

  // ---- The mutation -------------------------------------------------------

  /** The server applies every mutation it accepts. */
  ghost predicate AppliesAccepted(env: Env, applies: Ledger) {
    forall past: History, e: Event :: e.Exchange? && IsMutation(e.req) && Accepts(env, e) ==> applies(past, e)
  }

  /** The call succeeded and has something of the server's reply to show: its document, or per-change statuses. */
  predicate Acknowledged(r: Result<MutationReply, Error>) {
    r.Success? && r.value != Root(None) && r.value != Statuses([])
  }

  /** One attempt is applied at most once, not at all if it ends in an invalid key, and exactly once if it ends in an
      accepting document from a server that applies what it accepts. */
  lemma MutateOnceApplies(env: Env, applies: Ledger, w: World, folder: Bytes, m: Mutation)
    requires OnlyMutations(applies) && NeverAppliesRejected(env, applies)
    ensures var o := MutateOnce(env, w, folder, m);
            && AtMostOne(applies, w, o.w)
            && (IsInvalidKey(o.r) ==> Quiet(applies, w, o.w))
            && (AppliesAccepted(env, applies) && Acknowledged(o.r) ==>
                  Applied(applies, o.w.history) == Applied(applies, w.history) + 1)
  {
    hide Post, Refusal, SentKey, RootOf, ReplyRoot, Find, AllChangeNodes, NeverAppliesRejected, OnlyMutations,
         AppliesAccepted, Applied, WriteKey, Answered;
    StoreIsQuiet(env, applies, w, folder, NO_KEY);
    var k := ReadKey(env, w, folder);
    if k.r.Success? {
      var req := Sync(folder, k.r.value, PayloadOf(m));
      PostApplies(env, applies, k.w, req);
      var o := Post(env, k.w, req);
      if o.r.Success? && o.r.value.Some? {
        var root := o.r.value.value;
        RefusedIsQuiet(env, applies, k.w, o.w, req, root);
        if SentKey(req, root).Some? { StoreIsQuiet(env, applies, o.w, folder, SentKey(req, root).value); }
      }
    }
  }

  lemma RefusedIsQuiet(env: Env, applies: Ledger, w: World, w': World, req: Request, root: Element)
    requires OnlyMutations(applies) && NeverAppliesRejected(env, applies) && AppliedLast(env, applies, w, w'.history, req, root)
    ensures Refusal(req, root).Some? && FirstStatus(Refusal(req, root).value) == Some(STATUS_INVALID_SYNC_KEY) ==>
              Quiet(applies, w, w')
    ensures AppliesAccepted(env, applies) && IsMutation(req) && Refusal(req, root).None? ==>
              Applied(applies, w'.history) == Applied(applies, w.history) + 1
  {
    hide Refusal, ReplyRoot, Applied, IsMutation;
  }

  /** At most once: across every resend, the reset, the second bootstrap and the replay, one call's commands are applied
      at most once; and exactly once when the call returns the server's document and the server applies what it accepts. */
  lemma MutationIsAtMostOnce(env: Env, applies: Ledger, w: World, folder: Bytes, m: Mutation)
    requires OnlyMutations(applies) && NeverAppliesRejected(env, applies)
    ensures var o := MutateWithReset(env, w, folder, m);
            && AtMostOne(applies, w, o.w)
            && (AppliesAccepted(env, applies) && Acknowledged(o.r) ==>
                  Applied(applies, o.w.history) == Applied(applies, w.history) + 1)
  {
    hide MutateOnce, EnsureSynced, WriteKey, NeverAppliesRejected, OnlyMutations, AppliesAccepted, Applied;
    EnsureSyncedIsQuiet(env, applies, w, folder);
    var ready := EnsureSynced(env, w, folder);
    if ready.r.Success? {
      MutateOnceApplies(env, applies, ready.w, folder, m);
      var first := MutateOnce(env, ready.w, folder, m);
      if IsInvalidKey(first.r) {
        StoreIsQuiet(env, applies, first.w, folder, NO_KEY);
        var reset := WriteKey(env, first.w, folder, NO_KEY);
        EnsureSyncedIsQuiet(env, applies, reset.w, folder);
        MutateOnceApplies(env, applies, EnsureSynced(env, reset.w, folder).w, folder, m);
      }
    }
  }

  /** The calendar mutations never replay. */
  lemma MutateCalendarIsAtMostOnce(env: Env, applies: Ledger, w: World, folder: Bytes, cmds: Element)
    requires OnlyMutations(applies) && NeverAppliesRejected(env, applies)
    ensures AtMostOne(applies, w, MutateCalendar(env, w, folder, cmds).w)
  {
    hide MutateOnce, EnsureSynced, NeverAppliesRejected, OnlyMutations, Applied;
    EnsureSyncedIsQuiet(env, applies, w, folder);
    MutateOnceApplies(env, applies, EnsureSynced(env, w, folder).w, folder, Send(cmds));
  }

  // ---- Runs ---------------------------------------------------------------

  predicate Mutates(op: Op) { op.DoApply? || op.DoSend? || op.DoCalendarSend? }

  function Mutations(ops: seq<Op>): nat {
    if ops == [] then 0 else (if Mutates(ops[0]) then 1 else 0) + Mutations(ops[1..])
  }

  /** No other operation changes anything on the server. */
  lemma OtherOperationsAreQuiet(env: Env, applies: Ledger, w: World, op: Op)
    requires OnlyMutations(applies) && !Mutates(op)
    ensures Quiet(applies, w, Do(env, w, op))
  {
    hide OnlyMutations, Applied, ProvisionAll, Session.FolderSync, SyncFolder, GenericSync, EmailDefaults;
    match op
    case DoProvision => ProvisionIsQuiet(env, applies, w);
    case DoFolderSync => FolderSyncIsQuiet(env, applies, w);
    case DoSyncEmail(folder, options) =>
      SyncFolderIsQuiet(env, applies, w, folder, Email(EmailDefaults(options)), options.noBootstrap);
    case DoSyncCalendar(folder, window, filter, noBootstrap) =>
      var payload := Calendar(if window <= 0 then 100 else window, if filter == 0 then 4 else filter);
      SyncFolderIsQuiet(env, applies, w, folder, payload, noBootstrap);
    case DoGenericSync(folder) => GenericSyncIsQuiet(env, applies, w, folder);
  }

  lemma OperationIsAtMostOnce(env: Env, applies: Ledger, w: World, op: Op)
    requires OnlyMutations(applies) && NeverAppliesRejected(env, applies) && Mutates(op)
    ensures AtMostOne(applies, w, Do(env, w, op))
  {
    hide MutateWithReset, MutateCalendar, NeverAppliesRejected, OnlyMutations, Applied, AppliesAccepted;
    match op
    case DoApply(folder, changes) => MutationIsAtMostOnce(env, applies, w, folder, Apply(changes));
    case DoSend(folder, cmds) => MutationIsAtMostOnce(env, applies, w, folder, Send(cmds));
    case DoCalendarSend(folder, cmds) => MutateCalendarIsAtMostOnce(env, applies, w, folder, cmds);
  }

  /** Over any run, the server applies at most as many command lists as mutating operations were called. */
  lemma {:induction false} RunIsAtMostOnce(env: Env, applies: Ledger, w: World, ops: seq<Op>)
    requires OnlyMutations(applies) && NeverAppliesRejected(env, applies)
    ensures Applied(applies, w.history) <= Applied(applies, Run(env, w, ops).history) <= Applied(applies, w.history) + Mutations(ops)
    decreases ops
  {
    hide NeverAppliesRejected, OnlyMutations, Applied, Do;
    if ops != [] {
      if Mutates(ops[0]) {
        OperationIsAtMostOnce(env, applies, w, ops[0]);
      } else {
        OtherOperationsAreQuiet(env, applies, w, ops[0]);
      }
      RunIsAtMostOnce(env, applies, Do(env, w, ops[0]), ops[1..]);
    }
  }
}
