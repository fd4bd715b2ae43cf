/** No batch is lost and none is reported twice, against a server that answers every key with what follows it. */
module Delivery {
  import opened Basics
  import opened Tree
  import opened Errors
  import opened Protocol
  import opened Session
  import opened Safety
  import Decimal

  /** One folder of the server: all the commands it ever logs, and how much of the log each SyncKey acknowledges. */
  datatype Server = Server(log: seq<Node>, pos: Key -> nat)

  predicate Fetches(e: Event, folder: Bytes) {
    e.Exchange? && e.req.Sync? && e.req.folder == folder && !IsMutation(e.req)
  }

  /** An accepting reply with a new key holds exactly the commands between the two keys, and one without a key, none. */
  predicate ServesDelta(env: Env, srv: Server, e: Event)
    requires e.Exchange? && e.req.Sync?
    requires srv.pos(e.req.key) <= |srv.log|
  {
    Accepts(env, e) ==>
      var root := ReplyRoot(env, e).value;
      match Find(root, "Collection")
      case None => true
      case Some(c) =>
        match SentKey(e.req, root)
        case None => CommandsIn(c) == []
        case Some(key) =>
          key != [] ==>
            var from, to := srv.pos(e.req.key), srv.pos(key);
            from <= to <= |srv.log| && CommandsIn(c) == srv.log[from..to]
  }

  /** Whatever the history, the server answers the folder's fetches by key. It may still refuse them, drop them or answer
      with any HTTP status; the same key may be answered again, at once or much later, and with a shorter or longer batch. */
  ghost predicate Serves(env: Env, srv: Server, folder: Bytes) {
    && srv.pos(NO_KEY) == 0
    && (forall key :: srv.pos(key) <= |srv.log|)
    && (forall past, e :: Genuine(env, past, e) && Fetches(e, folder) ==> ServesDelta(env, srv, e))
  }

  /** What the server has logged between two positions, as a client would report it: contacts, tasks and notes drop items
      without data, email and calendar do not. */
  function Between(srv: Server, generic: bool, from: nat, to: nat): Batch
    requires from <= to <= |srv.log|
  {
    if generic then GenericDeliveredBy(srv.log[from..to]) else DeliveredBy(srv.log[from..to])
  }

  lemma BetweenConcat(srv: Server, generic: bool, a: nat, b: nat, c: nat)
    requires a <= b <= c <= |srv.log|
    ensures Between(srv, generic, a, c) == Join(Between(srv, generic, a, b), Between(srv, generic, b, c))
  {
    assert srv.log[a..c] == srv.log[a..b] + srv.log[b..c];
    DeliveredConcat(srv.log[a..b], srv.log[b..c]);
    GenericDeliveredConcat(srv.log[a..b], srv.log[b..c]);
  }

  // ---- One request --------------------------------------------------------

  lemma AnsweredByDelta(env: Env, init: Store, srv: Server, w: World, req: Request, root: Element)
    requires Inv(env, init, w) && Answered(env, w.history, req, root) && Refusal(req, root).None?
    requires req.Sync? && !IsMutation(req) && Serves(env, srv, req.folder)
    ensures ServesDelta(env, srv, w.history.last)
    ensures Accepts(env, w.history.last) && ReplyRoot(env, w.history.last) == Some(root)
  {
    hide Refusal, ReplyRoot, ServesDelta, IsMutation, Replay, Current, KeyJustified, PolicyJustified;
    assert Genuine(env, w.history.past, w.history.last);
  }

  /** One Sync reports exactly what the server logged between the old and the new stored key, and a failed one moves nothing. */
  lemma SyncOnceDelivers(env: Env, init: Store, srv: Server, w: World, folder: Bytes, payload: Payload)
    requires Inv(env, init, w) && Serves(env, srv, folder) && !IsMutation(Sync(folder, [], payload))
    ensures var o := SyncOnce(env, w, folder, payload);
            var before, after := srv.pos(w.store.KeyOf(folder)), srv.pos(o.w.store.KeyOf(folder));
            && before <= after <= |srv.log|
            && (o.r.Success? ==> o.r.value.batch == Between(srv, false, before, after))
            && (o.r.Failure? ==> o.w.store.KeyOf(folder) == w.store.KeyOf(folder))
  {
    hide Post, Refusal, SentKey, RootOf, ReplyRoot, Inv, Find, Near, CommandsIn, Genuine;
    SyncOnceSafe(env, init, w, folder, payload);
    ReadKeySafe(env, init, w, folder);
    var k := ReadKey(env, w, folder);
    if k.r.Success? {
      var req := Sync(folder, k.r.value, payload);
      PostSafe(env, init, k.w, req);
      var o := Post(env, k.w, req);
      if o.r.Success? && o.r.value.Some? && Refusal(req, o.r.value.value).None? {
        AnsweredByDelta(env, init, srv, o.w, req, o.r.value.value);
      }
    }
  }

  // ---- One call -----------------------------------------------------------

  /** The call's first Sync was refused with status 3, and the key was reset: never by genericSyncFolder. */
  predicate ResetBy(env: Env, w: World, folder: Bytes, payload: Payload) {
    var first := SyncOnce(env, w, folder, payload);
    !payload.Generic? && IsInvalidKey(first.r) && WriteKey(env, first.w, folder, NO_KEY).r.Success?
  }

  /** Where a call starts reading the log. */
  function Base(env: Env, srv: Server, w: World, folder: Bytes, payload: Payload): nat {
    if ResetBy(env, w, folder, payload) then 0 else srv.pos(w.store.KeyOf(folder))
  }

  /** A call reports exactly what was logged between its base and the key it leaves stored; if it fails, nothing. */
  predicate Reports(env: Env, srv: Server, w: World, folder: Bytes, payload: Payload, o: Outcome<SyncResult>) {
    var base, after := Base(env, srv, w, folder, payload), srv.pos(o.w.store.KeyOf(folder));
    && base <= after <= |srv.log|
    && (o.r.Success? ==> o.r.value.batch == Between(srv, payload.Generic?, base, after))
    && (o.r.Failure? ==> after == base)
  }

  lemma SyncWithResetDelivers(env: Env, init: Store, srv: Server, w: World, folder: Bytes, payload: Payload)
    requires Inv(env, init, w) && Serves(env, srv, folder) && !IsMutation(Sync(folder, [], payload)) && !payload.Generic?
    ensures Reports(env, srv, w, folder, payload, SyncWithReset(env, w, folder, payload))
  {
    hide SyncOnce, Inv, Between;
    SyncOnceDelivers(env, init, srv, w, folder, payload);
    var first := SyncOnce(env, w, folder, payload);
    if IsInvalidKey(first.r) {
      SyncOnceSafe(env, init, w, folder, payload);
      ResetSafe(env, init, first.w, folder);
      var reset := WriteKey(env, first.w, folder, NO_KEY);
      if reset.r.Success? { SyncOnceDelivers(env, init, srv, reset.w, folder, payload); }
    }
  }

  /** The second call after a batch without items starts where the first ended, and a failure of it falls through. */
  lemma CallDelivers(env: Env, init: Store, srv: Server, w: World, folder: Bytes, payload: Payload, noBootstrap: bool)
    requires Inv(env, init, w) && Serves(env, srv, folder) && !IsMutation(Sync(folder, [], payload)) && !payload.Generic?
    ensures Reports(env, srv, w, folder, payload, SyncFolder(env, w, folder, payload, noBootstrap))
  {
    hide SyncOnce, SyncWithReset, Inv, Between, ResetBy, Serves;
    SyncWithResetDelivers(env, init, srv, w, folder, payload);
    SyncWithResetSafe(env, init, w, folder, payload);
    var o := SyncWithReset(env, w, folder, payload);
    if o.r.Success? && !noBootstrap && o.r.value.batch == EMPTY {
      var stored := ReadKey(env, o.w, folder);
      ReadKeySafe(env, init, o.w, folder);
      SyncOnceDelivers(env, init, srv, stored.w, folder, payload);
      var second := SyncOnce(env, stored.w, folder, payload);
      var base := Base(env, srv, w, folder, payload);
      BetweenConcat(srv, false, base, srv.pos(o.w.store.KeyOf(folder)), srv.pos(second.w.store.KeyOf(folder)));
    }
  }

  /** genericSyncFolder has no second call and no reset: one call moves over the log exactly as far as it reports. */
  lemma GenericDelivers(env: Env, init: Store, srv: Server, w: World, folder: Bytes)
    requires Inv(env, init, w) && Serves(env, srv, folder)
    ensures Reports(env, srv, w, folder, Generic, GenericSync(env, w, folder))
  {
    hide SyncOnce, Post, Refusal, SentKey, RootOf, ReplyRoot, Inv, Find, Near, CommandsIn, Genuine;
    ReadKeySafe(env, init, w, folder);
    var k := ReadKey(env, w, folder);
    if k.r.Success? {
      var req := Sync(folder, k.r.value, Generic);
      PostSafe(env, init, k.w, req);
      var o := Post(env, k.w, req);
      if o.r.Success? && o.r.value.Some? && Refusal(req, o.r.value.value).None? {
        AnsweredByDelta(env, init, srv, o.w, req, o.r.value.value);
      }
    }
  }

  // ---- Runs ---------------------------------------------------------------

  /** What a fetching operation asks for. */
  function PayloadFor(op: Op): Option<Payload> {
    match op
    case DoSyncEmail(_, options) => Some(Email(EmailDefaults(options)))
    case DoSyncCalendar(_, window, filter, _) =>
      Some(Calendar(if window <= 0 then 100 else window, if filter == 0 then 4 else filter))
    case DoGenericSync(_) => Some(Generic)
    case _ => None
  }

  /** The operation reads this folder: as contacts, tasks or notes, or else with SyncEmail or SyncCalendar. */
  predicate Reads(op: Op, folder: Bytes, generic: bool) {
    && Touches(op) == Some(folder) && PayloadFor(op).Some?
    && PayloadFor(op).value.Generic? == generic && (generic || folder != [])
  }

  function Call(env: Env, w: World, op: Op): Outcome<SyncResult>
    requires PayloadFor(op).Some?
  {
    match op
    case DoSyncEmail(folder, options) => SyncEmail(env, w, folder, options)
    case DoSyncCalendar(folder, window, filter, noBootstrap) => SyncCalendar(env, w, folder, window, filter, noBootstrap)
    case DoGenericSync(folder) => GenericSync(env, w, folder)
  }

  /** All that the calls of a run report of a folder, in order. */
  function Reported(env: Env, w: World, folder: Bytes, generic: bool, ops: seq<Op>): Batch
    decreases ops
  {
    if ops == [] then EMPTY
    else
      var rest := Reported(env, Do(env, w, ops[0]), folder, generic, ops[1..]);
      if Reads(ops[0], folder, generic) && Call(env, w, ops[0]).r.Success? then
        Join(Call(env, w, ops[0]).r.value.batch, rest)
      else
        rest
  }

  /** Some call of the run reset the folder's key. */
  predicate Reset(env: Env, w: World, folder: Bytes, generic: bool, ops: seq<Op>)
    decreases ops
  {
    ops != [] &&
    (|| (Reads(ops[0], folder, generic) && ResetBy(env, w, folder, PayloadFor(ops[0]).value))
     || Reset(env, Do(env, w, ops[0]), folder, generic, ops[1..]))
  }

  /** Every operation that may change the folder's key reads the folder. */
  predicate OnlyReads(ops: seq<Op>, folder: Bytes, generic: bool) {
    forall op | op in ops :: Touches(op) != Some(folder) || Reads(op, folder, generic)
  }

  lemma OperationDelivers(env: Env, init: Store, srv: Server, w: World, folder: Bytes, generic: bool, op: Op)
    requires Inv(env, init, w) && Serves(env, srv, folder) && Reads(op, folder, generic)
    ensures Reports(env, srv, w, folder, PayloadFor(op).value, Call(env, w, op)) && Call(env, w, op).w == Do(env, w, op)
    ensures PayloadFor(op).value.Generic? == generic
  {
    hide Inv, SyncFolder, GenericSync, Reports, EmailDefaults, Serves;
    match op
    case DoSyncEmail(_, options) => CallDelivers(env, init, srv, w, folder, PayloadFor(op).value, options.noBootstrap);
    case DoSyncCalendar(_, _, _, noBootstrap) => CallDelivers(env, init, srv, w, folder, PayloadFor(op).value, noBootstrap);
    case DoGenericSync(_) => GenericDelivers(env, init, srv, w, folder);
  }

  /** No batch is lost and none is reported twice: without resets, everything the calls of a run report of a folder is
      exactly what the server logged from the key stored at the start to the key stored at the end. */
  lemma {:induction false} NothingLostNothingTwice(env: Env, init: Store, srv: Server, w: World, folder: Bytes,
                                                   generic: bool, ops: seq<Op>)
    requires Inv(env, init, w) && Serves(env, srv, folder)
    requires OnlyReads(ops, folder, generic) && !Reset(env, w, folder, generic, ops)
    ensures var from, to := srv.pos(w.store.KeyOf(folder)), srv.pos(Run(env, w, ops).store.KeyOf(folder));
            from <= to <= |srv.log| && Reported(env, w, folder, generic, ops) == Between(srv, generic, from, to)
    decreases ops
  {
    hide Inv, Do, Call, Touches, Reads, ResetBy, Between, PayloadFor;
    var from := srv.pos(w.store.KeyOf(folder));
    if ops == [] {
      assert Between(srv, generic, from, from) == EMPTY by { NothingBetween(srv, generic, from); }
    } else {
      var w' := Do(env, w, ops[0]);
      OperationSafe(env, init, w, ops[0]);
      NothingLostNothingTwice(env, init, srv, w', folder, generic, ops[1..]);
      if Reads(ops[0], folder, generic) {
        OperationDelivers(env, init, srv, w, folder, generic, ops[0]);
        BetweenConcat(srv, generic, from, srv.pos(w'.store.KeyOf(folder)), srv.pos(Run(env, w, ops).store.KeyOf(folder)));
        JoinEmpty(Reported(env, w', folder, generic, ops[1..]));
        NothingBetween(srv, generic, from);
      }
    }
  }

  /** Contacts, tasks and notes: the same, with no condition on resets, since their calls make none. */
  lemma {:induction false} GenericNothingLostNothingTwice(env: Env, init: Store, srv: Server, w: World, folder: Bytes,
                                                          ops: seq<Op>)
    requires Inv(env, init, w) && Serves(env, srv, folder) && OnlyReads(ops, folder, true)
    ensures var from, to := srv.pos(w.store.KeyOf(folder)), srv.pos(Run(env, w, ops).store.KeyOf(folder));
            from <= to <= |srv.log| && Reported(env, w, folder, true, ops) == Between(srv, true, from, to)
  {
    GenericNeverResets(env, w, folder, ops);
    NothingLostNothingTwice(env, init, srv, w, folder, true, ops);
  }

  lemma {:induction false} GenericNeverResets(env: Env, w: World, folder: Bytes, ops: seq<Op>)
    ensures !Reset(env, w, folder, true, ops)
    decreases ops
  {
    hide Do, Touches, SyncOnce;
    if ops != [] { GenericNeverResets(env, Do(env, w, ops[0]), folder, ops[1..]); }
  }

  lemma NothingBetween(srv: Server, generic: bool, at: nat)
    requires at <= |srv.log|
    ensures Between(srv, generic, at, at) == EMPTY
  {
  }

  lemma JoinEmpty(b: Batch)
    ensures Join(EMPTY, b) == b
  {
  }

  // ---- With resets --------------------------------------------------------

  /** What the calls report from the last reset on, or nothing without a reset. */
  function SinceReset(env: Env, w: World, folder: Bytes, generic: bool, ops: seq<Op>): Batch
    decreases ops
  {
    if !Reset(env, w, folder, generic, ops) then EMPTY
    else if Reset(env, Do(env, w, ops[0]), folder, generic, ops[1..]) then
      SinceReset(env, Do(env, w, ops[0]), folder, generic, ops[1..])
    else Reported(env, w, folder, generic, ops)
  }

  /** After a reset the client is sent the folder again: from the last reset on, the calls report the whole log up to the
      key stored at the end. */
  lemma {:induction false} ResetStartsOver(env: Env, init: Store, srv: Server, w: World, folder: Bytes, generic: bool,
                                           ops: seq<Op>)
    requires Inv(env, init, w) && Serves(env, srv, folder)
    requires OnlyReads(ops, folder, generic)
    ensures Reset(env, w, folder, generic, ops) ==>
              var to := srv.pos(Run(env, w, ops).store.KeyOf(folder));
              to <= |srv.log| && SinceReset(env, w, folder, generic, ops) == Between(srv, generic, 0, to)
    decreases ops
  {
    hide Inv, Do, Call, Touches, Reads, ResetBy, Between, PayloadFor;
    if Reset(env, w, folder, generic, ops) {
      var w' := Do(env, w, ops[0]);
      OperationSafe(env, init, w, ops[0]);
      if Reset(env, w', folder, generic, ops[1..]) {
        ResetStartsOver(env, init, srv, w', folder, generic, ops[1..]);
      } else {
        OperationDelivers(env, init, srv, w, folder, generic, ops[0]);
        NothingLostNothingTwice(env, init, srv, w', folder, generic, ops[1..]);
        BetweenConcat(srv, generic, 0, srv.pos(w'.store.KeyOf(folder)), srv.pos(Run(env, w, ops).store.KeyOf(folder)));
      }
    }
  }

  /** A reset needs a reply that says status 3, to the folder's own request or to a Provision. */
  lemma ResetIsProvoked(env: Env, init: Store, w: World, folder: Bytes, payload: Payload)
    requires Inv(env, init, w)
    ensures var h := SyncOnce(env, w, folder, payload).w.history;
            ResetBy(env, w, folder, payload) ==>
              h.Then? && Refuses(env, h.last, STATUS_INVALID_SYNC_KEY) && Genuine(env, h.past, h.last)
  {
    hide SyncOnce, Refusal, ReplyRoot, SentKey, Genuine, Current, KeyJustified, PolicyJustified, Replay;
    SyncOnceSafe(env, init, w, folder, payload);
    var h := SyncOnce(env, w, folder, payload).w.history;
    if ResetBy(env, w, folder, payload) {
      assert EventSound(env, init, h.past, h.last);
    }
  }

  /** Against a server that never says status 3, no run resets a key. */
  lemma {:induction false} NoStatus3NoReset(env: Env, init: Store, w: World, folder: Bytes, generic: bool, ops: seq<Op>)
    requires Inv(env, init, w)
    requires forall past, e :: Genuine(env, past, e) ==> !Refuses(env, e, STATUS_INVALID_SYNC_KEY)
    ensures !Reset(env, w, folder, generic, ops)
    decreases ops
  {
    hide Inv, Do, Touches, ResetBy, Refuses, Genuine;
    if ops != [] {
      OperationSafe(env, init, w, ops[0]);
      NoStatus3NoReset(env, init, Do(env, w, ops[0]), folder, generic, ops[1..]);
      if Reads(ops[0], folder, generic) && ResetBy(env, w, folder, PayloadFor(ops[0]).value) {
        ResetIsProvoked(env, init, w, folder, PayloadFor(ops[0]).value);
      }
    }
  }
}
