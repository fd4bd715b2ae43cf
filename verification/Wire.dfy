/** What the server reads in the bytes of a request. */
module Wire {
  import opened Basics
  import opened Tree
  import opened Registry
  import opened Printer
  import opened Protocol
  import opened Session
  import opened Safety
  import Codec
  import Decimal

  function CollectionOf(req: Request): Element
    requires req.Sync?
  {
    Element(AIR_SYNC, "Collection",
            [TextLeaf(AIR_SYNC, "SyncKey", req.key), TextLeaf(AIR_SYNC, "CollectionId", req.folder)] + Details(req.payload))
  }

  /** A search passes over a leaf of another name, and finds one of its own. */
  lemma {:induction false} PastLeaf(page: byte, leaf: string, v: Bytes, rest: seq<Node>, name: string)
    ensures var all := [TextLeaf(page, leaf, v)] + rest;
            && (leaf == name ==> FindIn(all, name) == FindShallowIn(all, name, 0) == Some(Element(page, leaf, [Text(v)])))
            && (leaf != name ==> FindIn(all, name) == FindIn(rest, name))
            && (leaf != name ==> FindShallowIn(all, name, 0) == FindShallowIn(rest, name, 0))
            && TextContent([Text(v)]) == v
  {
    var all, text := [TextLeaf(page, leaf, v)] + rest, [Text(v)];
    assert all[0] == TextLeaf(page, leaf, v) && all[1..] == rest;
    assert text[1..] == [] && FindIn(text, name) == FindIn(text[1..], name) == None;
  }

  lemma FindsCollection(req: Request)
    requires req.Sync?
    ensures Find(RootOf(req), "Collection") == Some(CollectionOf(req))
    ensures TextOf(Near(CollectionOf(req), "SyncKey")) == Some(req.key)
    ensures TextOf(Near(CollectionOf(req), "CollectionId")) == Some(req.folder)
  {
    hide Details;
    var c := CollectionOf(req);
    var inner, tail := [Elem(c)], [E(AIR_SYNC, "Collections", [Elem(c)])];
    assert FindIn(inner, "Collection") == Some(c);
    assert FindIn(tail, "Collection") == Some(c);
    match req.payload {
      case Email(o) =>
        PastLeaf(AIR_SYNC, "Wait", Decimal.Itoa(o.waitMinutes), tail, "Collection");
        PastLeaf(AIR_SYNC, "HeartbeatInterval", Decimal.Itoa(o.heartbeatSeconds), tail, "Collection");
      case _ =>
    }
    assert [] + tail == tail;
    var id := [TextLeaf(AIR_SYNC, "CollectionId", req.folder)] + Details(req.payload);
    assert c.children == [TextLeaf(AIR_SYNC, "SyncKey", req.key)] + id;
    PastLeaf(AIR_SYNC, "SyncKey", req.key, id, "SyncKey");
    PastLeaf(AIR_SYNC, "SyncKey", req.key, id, "CollectionId");
    PastLeaf(AIR_SYNC, "CollectionId", req.folder, Details(req.payload), "CollectionId");
  }

  lemma FindsPolicyKey(key: Key)
    ensures TextOf(Find(RootOf(Provision(key, true)), "PolicyKey")) == Some(key)
  {
    var rest := [TextLeaf(PROVISION, "PolicyKey", key), TextLeaf(PROVISION, "Status", Decimal.Itoa(1))];
    var fields := [TextLeaf(PROVISION, "PolicyType", Ascii("MS-EAS-Provisioning-WBXML"))] + rest;
    var found := Element(PROVISION, "PolicyKey", [Text(key)]);
    PastLeaf(PROVISION, "PolicyType", Ascii("MS-EAS-Provisioning-WBXML"), rest, "PolicyKey");
    assert rest == [rest[0]] + rest[1..];
    PastLeaf(PROVISION, "PolicyKey", key, rest[1..], "PolicyKey");
    var policy := [E(PROVISION, "Policy", fields)];
    assert FindIn(policy, "PolicyKey") == Some(found);
    var policies := [E(PROVISION, "Policies", policy)];
    assert FindIn(policies, "PolicyKey") == Some(found);
  }

  /** The root the server decodes from an exchange's bytes. */
  function Received(env: Env, e: Event): Option<Element>
    requires e.Exchange?
  {
    match Codec.Unmarshal(env.reg, e.body) case Success(d) => d.root case Failure(_) => None
  }

  /** In any run, the server decodes a request as it was built exactly when no blob in it is oversize; a Sync then names
      its folder and the key stored for it, and an acknowledgement the policy key its header carries. */
  lemma {:induction false} ServerReadsRequest(env: Env, init: Store, w: World, ops: seq<Op>, past: History, e: Event)
    requires env.reg.WellFormed() && Inv(env, init, w) && e.Exchange? && Occurs(Run(env, w, ops).history, past, e)
    ensures Received(env, e) == Some(RootOf(e.req)) <==> OpaqueFits(RootOf(e.req))
    ensures e.req.Sync? && Received(env, e) == Some(RootOf(e.req)) ==>
              var c := Find(Received(env, e).value, "Collection");
              && c.Some?
              && TextOf(Near(c.value, "CollectionId")) == Some(e.req.folder)
              && TextOf(Near(c.value, "SyncKey")) == Some(Replay(init, past).KeyOf(e.req.folder))
    ensures e.req.Provision? && e.req.ack && Received(env, e) == Some(RootOf(e.req)) ==>
              TextOf(Find(Received(env, e).value, "PolicyKey")) == Some(e.policyKey)
  {
    hide RootOf, Find, Near, OpaqueFits, Run, Inv, Codec.Unmarshal, Codec.Marshal;
    RunSafe(env, init, w, ops);
    RequestsAreCurrent(env, init, w, ops, past, e.req, e.body, e.policyKey, e.reply);
    Codec.RoundTrip(env.reg, DocumentOf(RootOf(e.req)));
    if Codec.Unmarshal(env.reg, e.body).Success? { Codec.AcceptedIsEncodable(env.reg, e.body); }
    if e.req.Sync? { FindsCollection(e.req); }
    if e.req.Provision? && e.req.ack { FindsPolicyKey(e.req.key); }
  }
}
