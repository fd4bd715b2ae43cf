/** Contacts, tasks and notes do not recover from an invalid SyncKey, as email and calendar do. */
module InvalidKey {
  import opened Basics
  import opened Tree
  import opened Registry
  import opened Errors
  import opened Grammar
  import opened Printer
  import opened Protocol
  import opened Session
  import opened Safety
  import Codec
  import Decimal

  /** Whatever the environment, a generic Sync that fails leaves the key alone, and one told that the key is invalid ends
      there: after one post, whose last reply is the refusal, without a reset and without a second attempt. */
  lemma {:induction false} GenericSyncHasNoReset(env: Env, init: Store, w: World, folder: Bytes)
    requires Inv(env, init, w)
    ensures var o := GenericSync(env, w, folder);
            && (o.r.Failure? ==> o.w.store.KeyOf(folder) == w.store.KeyOf(folder))
            && (IsInvalidKey(o.r) ==>
                  && o.w == Post(env, ReadKey(env, w, folder).w, Sync(folder, w.store.KeyOf(folder), Generic)).w
                  && o.w.history.Then? && Refuses(env, o.w.history.last, STATUS_INVALID_SYNC_KEY)
                  && Posts(o.w.history) == Posts(w.history) + 1)
  {
    hide Post, SentKey, RootOf, Inv, Find, CommandsIn, GenericDeliveredBy, Near, Refusal, ReplyRoot;
    GenericSyncSafe(env, init, w, folder);
    ReadKeySafe(env, init, w, folder);
    var k := ReadKey(env, w, folder);
    if k.r.Success? { PostSafe(env, init, k.w, Sync(folder, k.r.value, Generic)); }
  }

  // ---- A server that calls every key invalid ------------------------------

  const REFUSAL := Element(AIR_SYNC, "Sync", [TextLeaf(AIR_SYNC, "Status", Decimal.Itoa(STATUS_INVALID_SYNC_KEY))])

  function RefusalBytes(reg: Pages): Bytes {
    match Codec.Marshal(reg, DocumentOf(REFUSAL)) case Success(b) => b case Failure(_) => []
  }

  /** Nothing fails locally, and every request is answered with HTTP 200 and status 3. */
  function Refusing(reg: Pages): Env {
    Env(reg, false, _ => false, (h: History, command: string, policyKey: Key, body: Bytes) => Answer(200, RefusalBytes(reg)))
  }

  predicate NamesRefusal(reg: Pages) {
    reg.TagID(AIR_SYNC, "Sync").Some? && reg.TagID(AIR_SYNC, "Status").Some?
  }

  lemma RefusalIsReadBack(reg: Pages)
    requires reg.WellFormed() && NamesRefusal(reg)
    ensures RefusalBytes(reg) != []
    ensures Codec.Unmarshal(reg, RefusalBytes(reg)).Success?
    ensures Codec.Unmarshal(reg, RefusalBytes(reg)).value.root == Some(REFUSAL)
  {
    hide Codec.Unmarshal;
    var code := Decimal.Itoa(STATUS_INVALID_SYNC_KEY);
    assert NulFree(code) by { assert code == [Decimal.ZERO + 3]; }
    SingleNode(reg, Text(code));
    SingleNode(reg, TextLeaf(AIR_SYNC, "Status", code));
    Codec.RoundTrip(reg, DocumentOf(REFUSAL));
  }

  lemma RefusalSaysInvalidKey(req: Request)
    requires req.Sync?
    ensures Refusal(req, REFUSAL) == Some(StatusError("Sync", STATUS_INVALID_SYNC_KEY))
  {
    var code := Decimal.Itoa(STATUS_INVALID_SYNC_KEY);
    Decimal.AtoiOfItoa(STATUS_INVALID_SYNC_KEY);
    var text := [Text(code)];
    assert text[1..] == [] && TextContent(text) == code + [] == code;
    assert REFUSAL.children[0] == Elem(Element(AIR_SYNC, "Status", text));
  }

  /** Every post of a Sync is refused, or could not be encoded, and nothing is stored. */
  lemma {:induction false} PostIsRefused(reg: Pages, w: World, req: Request)
    requires reg.WellFormed() && NamesRefusal(reg) && req.Sync?
    ensures var o := Post(Refusing(reg), w, req);
            && o.w.store == w.store
            && (Codec.Marshal(reg, DocumentOf(RootOf(req))).Success? ==> o.r == Success(Some(REFUSAL)))
            && (o.r.Success? ==> o.r == Success(Some(REFUSAL)))
  {
    hide RootOf, Codec.Marshal, Codec.Unmarshal, RefusalBytes, Command;
    RefusalIsReadBack(reg);
  }

  predicate Encodes(reg: Pages, req: Request) { Codec.Marshal(reg, DocumentOf(RootOf(req))).Success? }

  /** The documented reset is missing: with requests that can be encoded, the contacts, tasks and notes Syncs report the
      invalid key and keep it, where SyncEmail stores "0". */
  lemma GenericSyncKeepsInvalidKey(reg: Pages, w: World, folder: Bytes, options: EmailOptions)
    requires reg.WellFormed() && NamesRefusal(reg) && folder != []
    requires Encodes(reg, Sync(folder, w.store.KeyOf(folder), Generic))
    requires Encodes(reg, Sync(folder, w.store.KeyOf(folder), Email(EmailDefaults(options))))
    ensures IsInvalidKey(GenericSync(Refusing(reg), w, folder).r) && GenericSync(Refusing(reg), w, folder).w.store == w.store
    ensures SyncEmail(Refusing(reg), w, folder, options).w.store.KeyOf(folder) == NO_KEY
  {
    hide SyncOnce, GenericSync, EmailDefaults, Encodes;
    GenericSyncIsRefused(reg, w, folder);
    var env, payload := Refusing(reg), Email(EmailDefaults(options));
    RefusedOnce(reg, w, folder, payload);
    RefusedOnce(reg, WriteKey(env, SyncOnce(env, w, folder, payload).w, folder, NO_KEY).w, folder, payload);
  }

  lemma GenericSyncIsRefused(reg: Pages, w: World, folder: Bytes)
    requires reg.WellFormed() && NamesRefusal(reg) && Encodes(reg, Sync(folder, w.store.KeyOf(folder), Generic))
    ensures var o := GenericSync(Refusing(reg), w, folder); IsInvalidKey(o.r) && o.w.store == w.store
  {
    hide Post, RootOf, Codec.Marshal, Refusal;
    var req := Sync(folder, w.store.KeyOf(folder), Generic);
    PostIsRefused(reg, ReadKey(Refusing(reg), w, folder).w, req);
    RefusalSaysInvalidKey(req);
  }

  lemma RefusedOnce(reg: Pages, w: World, folder: Bytes, payload: Payload)
    requires reg.WellFormed() && NamesRefusal(reg)
    ensures var o := SyncOnce(Refusing(reg), w, folder, payload);
            && o.w.store == w.store && o.r.Failure?
            && (Encodes(reg, Sync(folder, w.store.KeyOf(folder), payload)) ==> IsInvalidKey(o.r))
  {
    hide Post, RootOf, Codec.Marshal, Refusal;
    var req := Sync(folder, w.store.KeyOf(folder), payload);
    PostIsRefused(reg, ReadKey(Refusing(reg), w, folder).w, req);
    RefusalSaysInvalidKey(req);
  }

  /** However often such a folder is synced again, its key stays as it was. */
  lemma {:induction false} GenericSyncStaysStuck(reg: Pages, w: World, folder: Bytes, ops: seq<Op>)
    requires reg.WellFormed() && NamesRefusal(reg)
    requires Encodes(reg, Sync(folder, w.store.KeyOf(folder), Generic))
    requires forall i | 0 <= i < |ops| :: ops[i] == DoGenericSync(folder)
    ensures Run(Refusing(reg), w, ops).store == w.store
    decreases ops
  {
    hide GenericSync, Encodes, Refusing, NamesRefusal;
    if ops != [] {
      GenericSyncIsRefused(reg, w, folder);
      GenericSyncStaysStuck(reg, Do(Refusing(reg), w, ops[0]), folder, ops[1..]);
    }
  }
}
