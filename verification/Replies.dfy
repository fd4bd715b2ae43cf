/** The replies a server writes, spelled out, and what the client reads in them. */
module Replies {
  import opened Basics
  import opened Tree
  import opened Errors
  import opened Protocol
  import opened Paths
  import Decimal

  function Leaf(page: byte, name: string, v: Bytes): Node { E(page, name, [Text(v)]) }

  /** A Status element with a decimal code, if there is one to write. */
  function StatusNode(page: byte, code: Option<Decimal.int64>): seq<Node> {
    match code case Some(c) => [Leaf(page, "Status", Decimal.Itoa(c))] case None => []
  }

  /** A code that reports a failure. Negative codes are not statuses, and are read as zero. */
  predicate Fails(code: Option<Decimal.int64>) { code.Some? && code.value > 1 }

  lemma StatusReads(page: byte, code: Decimal.int64)
    ensures var text := TextContent(Leaf(page, "Status", Decimal.Itoa(code)).e.children);
            Decimal.Atoi(text) == if code >= 0 then code else 0
  {
    FindLeaf(page, "Status", Decimal.Itoa(code), "Status");
    Decimal.AtoiOfItoa(code);
  }

  // ---- Sync ---------------------------------------------------------------

  /** A collection as the server writes it: its key, its folder, its status, whether there is more, and its lists. */
  datatype Collection = Collection(key: Option<Key>, folder: Bytes, status: Option<Decimal.int64>, more: bool,
                                   responses: seq<Node>, cmds: seq<Node>)

  function CollectionChildren(c: Collection): seq<Node> {
    KeyNode(c.key) + [Leaf(0, "CollectionId", c.folder)] + StatusNode(0, c.status)
    + (if c.more then [E(0, "MoreAvailable", [])] else [])
    + [E(0, "Responses", c.responses)] + [E(0, "Commands", c.cmds)]
  }

  function KeyNode(key: Option<Key>): seq<Node> {
    match key case Some(k) => [Leaf(0, "SyncKey", k)] case None => []
  }

  function SyncReply(top: Option<Decimal.int64>, c: Collection): Element {
    Element(0, "Sync", StatusNode(0, top) + [E(0, "Collections", [E(0, "Collection", CollectionChildren(c))])])
  }

  lemma {:induction false} ChildOne(n: Node, name: string)
    ensures Child([n], name) == if n.Elem? && n.e.name == name then Some(n.e) else None
  {
    assert [n][1..] == [];
  }

  /** The child of this name among the pieces of a collection. */
  lemma {:induction false} ChildOfCollection(c: Collection, name: string)
    ensures Child(CollectionChildren(c), name)
         == if name == "SyncKey" && c.key.Some? then Some(Leaf(0, "SyncKey", c.key.value).e)
            else if name == "CollectionId" then Some(Leaf(0, "CollectionId", c.folder).e)
            else if name == "Status" && c.status.Some? then Some(Leaf(0, "Status", Decimal.Itoa(c.status.value)).e)
            else if name == "MoreAvailable" && c.more then Some(Element(0, "MoreAvailable", []))
            else if name == "Responses" then Some(Element(0, "Responses", c.responses))
            else if name == "Commands" then Some(Element(0, "Commands", c.cmds))
            else None
  {
    hide Child, Decimal.Itoa;
    var key, folder, status := KeyNode(c.key), [Leaf(0, "CollectionId", c.folder)], StatusNode(0, c.status);
    var more: seq<Node> := if c.more then [E(0, "MoreAvailable", [])] else [];
    var responses, cmds := [E(0, "Responses", c.responses)], [E(0, "Commands", c.cmds)];
    ChildConcat(key, folder, name);
    ChildConcat(key + folder, status, name);
    ChildConcat(key + folder + status, more, name);
    ChildConcat(key + folder + status + more, responses, name);
    ChildConcat(key + folder + status + more + responses, cmds, name);
    if c.key.Some? { ChildOne(key[0], name); } else { NoChild(name); }
    ChildOne(folder[0], name);
    if c.status.Some? { ChildOne(status[0], name); } else { NoChild(name); }
    if c.more { ChildOne(more[0], name); } else { NoChild(name); }
    ChildOne(responses[0], name);
    ChildOne(cmds[0], name);
  }

  lemma {:induction false} NoChild(name: string)
    ensures Child([], name) == None
  {
  }

  function CollectionElement(c: Collection): Element { Element(0, "Collection", CollectionChildren(c)) }

  lemma FindsCollection(top: Option<Decimal.int64>, c: Collection)
    ensures Find(SyncReply(top, c), "Collection") == Some(CollectionElement(c))
  {
    hide CollectionChildren, Decimal.Itoa;
    var status, inner := StatusNode(0, top), [Elem(CollectionElement(c))];
    var outer := [E(0, "Collections", inner)];
    FindInOne(inner[0], "Collection");
    FindInOne(outer[0], "Collection");
    FindInConcat(status, outer, "Collection");
    if top.Some? {
      FindInOne(status[0], "Collection");
      FindLeaf(0, "Status", Decimal.Itoa(top.value), "Collection");
    }
  }

  lemma TopStatusOf(page: byte, top: Option<Decimal.int64>, n: Node)
    requires n.Elem? && n.e.name != "Status"
    ensures TopStatus(StatusNode(page, top) + [n]) == if Fails(top) then top.value else if top == Some(1) then 1 else 0
  {
    hide Decimal.Atoi, Decimal.Itoa;
    var status := StatusNode(page, top);
    assert [n][1..] == [];
    if top.Some? {
      StatusReads(page, top.value);
      assert (status + [n])[0] == status[0];
    } else {
      assert status + [n] == [n];
    }
  }

  /** A failing code, in the order the client looks: at the top, and then in the collection. */
  function FailingCode(top: Option<Decimal.int64>, status: Option<Decimal.int64>): Option<Decimal.int64> {
    if Fails(top) then top else if Fails(status) then status else None
  }

  /** Whatever a server writes in a Sync reply, the client reads: the first failing code as a status error of Sync, and
      otherwise the key, whether there is more, the responses and the commands. */
  lemma SyncReplyIsRead(req: Request, top: Option<Decimal.int64>, c: Collection)
    requires req.Sync?
    ensures var root := SyncReply(top, c);
            && Find(root, "Collection") == Some(CollectionElement(c))
            && Refusal(req, root) == (match FailingCode(top, c.status)
                                      case Some(code) => Some(StatusError("Sync", code))
                                      case None => None)
            && SentKey(req, root) == c.key
            && (Near(CollectionElement(c), "MoreAvailable").Some? <==> c.more)
            && ResponsesIn(root) == c.responses && CommandsIn(CollectionElement(c)) == c.cmds
  {
    hide Child, CollectionChildren, FindShallow, Decimal.Atoi, Decimal.Itoa, TopStatus, Find, TextContent;
    var root, e := SyncReply(top, c), CollectionElement(c);
    FindsCollection(top, c);
    TopStatusOf(0, top, E(0, "Collections", [Elem(e)]));
    NearIsChild(e, "Status");
    NearIsChild(e, "SyncKey");
    NearIsChild(e, "MoreAvailable");
    NearIsChild(e, "Responses");
    NearIsChild(e, "Commands");
    ChildOfCollection(c, "Status");
    ChildOfCollection(c, "SyncKey");
    ChildOfCollection(c, "MoreAvailable");
    ChildOfCollection(c, "Responses");
    ChildOfCollection(c, "Commands");
    if c.key.Some? { FindLeaf(0, "SyncKey", c.key.value, "SyncKey"); }
    if c.status.Some? { StatusReads(0, c.status.value); }
  }

  // ---- Any Sync reply -----------------------------------------------------

  /** The code in the first of these elements, if it is neither 0 nor 1. */
  function CodeIn(found: seq<Element>): Option<Decimal.int64> {
    if found == [] then None
    else
      var code := Decimal.Atoi(TextContent(found[0].children));
      if code == 0 || code == 1 then None else Some(code)
  }

  /** The elements that are children of this element and have this name. */
  function Children(nodes: seq<Node>, name: string): seq<Element> {
    if nodes == [] then []
    else (if nodes[0].Elem? && nodes[0].e.name == name then [nodes[0].e] else []) + Children(nodes[1..], name)
  }

  lemma {:induction false} TopStatusIsFirst(nodes: seq<Node>)
    ensures TopStatus(nodes) == if Children(nodes, "Status") == [] then 0
                                else Decimal.Atoi(TextContent(Children(nodes, "Status")[0].children))
    decreases nodes
  {
    hide Decimal.Atoi, TextContent;
    if nodes != [] { TopStatusIsFirst(nodes[1..]); }
  }

  /** For every document, however deep: the first Status child of the root decides, and otherwise the first Status, in
      document order and at depth one, of the first Collection in document order. */
  lemma {:induction false} RefusalOfAnySync(req: Request, root: Element)
    requires req.Sync?
    ensures var top := CodeIn(Children(root.children, "Status"));
            var cs := Named(Preorder(root), "Collection");
            var code := if top.Some? then top
                        else if cs == [] then None
                        else CodeIn(Named(Shallow(cs[0], 1), "Status"));
            Refusal(req, root) == match code case Some(c) => Some(StatusError("Sync", c)) case None => None
  {
    hide Decimal.Atoi, TextContent, Preorder, Shallow, FindShallow, Find, TopStatus;
    TopStatusIsFirst(root.children);
    FindIsFirstNamed(root, "Collection");
    var c := Find(root, "Collection");
    if c.Some? { FindShallowIsFirst(c.value, "Status", 1); }
  }

  /** For every other reply: the first Status child of the root decides; a Provision also looks at the first Status below
      the first Policy, both in document order and at any depth. */
  lemma {:induction false} RefusalOfAnyOther(req: Request, root: Element)
    requires !req.Sync?
    ensures var top := CodeIn(Children(root.children, "Status"));
            var policies := Named(Preorder(root), "Policy");
            var inner := if policies == [] then None else CodeIn(Named(Preorder(policies[0]), "Status"));
            Refusal(req, root)
            == if req.FolderSync? then (match top case Some(c) => Some(StatusError("FolderSync", c)) case None => None)
               else if top.Some? then Some(StatusError("Provision", top.value))
               else match inner case Some(c) => Some(StatusError("Provision/Policy", c)) case None => None
  {
    hide Decimal.Atoi, TextContent, Preorder, Find, TopStatus;
    TopStatusIsFirst(root.children);
    FindIsFirstNamed(root, "Policy");
    var policy := Find(root, "Policy");
    if policy.Some? { FindIsFirstNamed(policy.value, "Status"); }
  }

  /** The text of the first of these elements. */
  function TextIn(found: seq<Element>): Option<Bytes> {
    if found == [] then None else Some(TextContent(found[0].children))
  }

  /** The key of any reply: that of the hierarchy and of the policy at any depth, that of a collection at depth one. */
  lemma {:induction false} KeyOfAnyReply(req: Request, root: Element)
    ensures var policies, cs := Named(Preorder(root), "Policy"), Named(Preorder(root), "Collection");
            SentKey(req, root)
            == match req
               case FolderSync(_) => TextIn(Named(Preorder(root), "SyncKey"))
               case Provision(_, _) => if policies == [] then None else TextIn(Named(Preorder(policies[0]), "PolicyKey"))
               case Sync(_, _, _) => if cs == [] then None else TextIn(Named(Shallow(cs[0], 1), "SyncKey"))
  {
    hide TextContent, Preorder, Shallow, FindShallow, Find;
    match req
    case FolderSync(_) => FindIsFirstNamed(root, "SyncKey");
    case Provision(_, _) =>
      FindIsFirstNamed(root, "Policy");
      var policy := Find(root, "Policy");
      if policy.Some? { FindIsFirstNamed(policy.value, "PolicyKey"); }
    case Sync(_, _, _) =>
      FindIsFirstNamed(root, "Collection");
      var c := Find(root, "Collection");
      if c.Some? { FindShallowIsFirst(c.value, "SyncKey", 1); }
  }

  function ChildrenIn(found: seq<Element>): seq<Node> { if found == [] then [] else found[0].children }

  /** The lists of any reply, at depth one of the first collection, and the id of any item, at any depth below it. */
  lemma {:induction false} ListsOfAnyReply(root: Element, collection: Element, item: Element)
    ensures CommandsIn(collection) == ChildrenIn(Named(Shallow(collection, 1), "Commands"))
    ensures var cs := Named(Preorder(root), "Collection");
            ResponsesIn(root) == if cs == [] then [] else ChildrenIn(Named(Shallow(cs[0], 1), "Responses"))
    ensures IdOf(item) == match TextIn(Named(Preorder(item), "ServerId")) case Some(id) => id case None => []
  {
    hide TextContent, Preorder, Shallow, FindShallow, Find;
    FindShallowIsFirst(collection, "Commands", 1);
    FindIsFirstNamed(item, "ServerId");
    FindIsFirstNamed(root, "Collection");
    var c := Find(root, "Collection");
    if c.Some? { FindShallowIsFirst(c.value, "Responses", 1); }
  }

  // ---- The commands of a collection ---------------------------------------

  /** An item under its id. */
  function ItemNode(command: string, id: Bytes, data: seq<Node>): Node {
    E(0, command, [Leaf(0, "ServerId", id)] + [E(0, "ApplicationData", data)])
  }

  /** An id alone, as deletions are written. */
  function IdNode(command: string, id: Bytes): Node { E(0, command, [Leaf(0, "ServerId", id)]) }

  /** An item without an id, without data, or without either. */
  function BareNode(command: string): Node { E(0, command, []) }

  lemma FindsInItem(command: string, id: Bytes, data: seq<Node>)
    requires command != "ServerId" && command != "ApplicationData"
    ensures IdOf(ItemNode(command, id, data).e) == IdOf(IdNode(command, id).e) == id && IdOf(BareNode(command).e) == []
    ensures Find(ItemNode(command, id, data).e, "ApplicationData") == Some(Element(0, "ApplicationData", data))
    ensures Find(IdNode(command, id).e, "ServerId").Some? && Find(ItemNode(command, id, data).e, "ServerId").Some?
    ensures Find(BareNode(command).e, "ServerId").None? && Find(BareNode(command).e, "ApplicationData").None?
    ensures Find(IdNode(command, id).e, "ApplicationData").None?
  {
    var first, second := [Leaf(0, "ServerId", id)], [E(0, "ApplicationData", data)];
    FindLeaf(0, "ServerId", id, "ServerId");
    FindLeaf(0, "ServerId", id, "ApplicationData");
    FindInOne(first[0], "ServerId");
    FindInOne(first[0], "ApplicationData");
    FindInOne(second[0], "ApplicationData");
    FindInConcat(first, second, "ServerId");
    FindInConcat(first, second, "ApplicationData");
    assert Find(BareNode(command).e, "ServerId") == FindIn([], "ServerId") == None;
    assert IdOf(BareNode(command).e) == [];
  }

  /** Each command lands in its own list, with its id and its data. */
  lemma CommandsAreRead(id: Bytes, data: seq<Node>)
    ensures var item := Item(id, Some(Element(0, "ApplicationData", data)));
            && Delivered(ItemNode("Add", id, data)) == GenericDelivered(ItemNode("Add", id, data)) == Batch([item], [], [])
            && Delivered(ItemNode("Change", id, data)) == GenericDelivered(ItemNode("Change", id, data)) == Batch([], [item], [])
    ensures Delivered(IdNode("Delete", id)) == GenericDelivered(IdNode("Delete", id)) == Batch([], [], [id])
    ensures Delivered(IdNode("SoftDelete", id)) == GenericDelivered(IdNode("SoftDelete", id)) == Batch([], [], [id])
  {
    hide Find, IdOf, ItemNode, IdNode;
    FindsInItem("Add", id, data);
    FindsInItem("Change", id, data);
    FindsInItem("Delete", id, data);
    FindsInItem("SoftDelete", id, data);
    NamedNodes(id, data);
  }

  lemma NamedNodes(id: Bytes, data: seq<Node>)
    ensures forall command :: ItemNode(command, id, data).Elem? && ItemNode(command, id, data).e.name == command
    ensures forall command :: IdNode(command, id).Elem? && IdNode(command, id).e.name == command
  {
  }

  /** Where something is missing the classes differ: email and calendar keep an item without data and ignore a deletion
      without an id, contacts, tasks and notes do the opposite. */
  lemma BareCommandsAreRead(id: Bytes)
    ensures Delivered(IdNode("Add", id)) == Batch([Item(id, None)], [], [])
    ensures Delivered(IdNode("Change", id)) == Batch([], [Item(id, None)], [])
    ensures GenericDelivered(IdNode("Add", id)) == GenericDelivered(IdNode("Change", id)) == Batch([], [], [])
    ensures Delivered(BareNode("Delete")) == Delivered(BareNode("SoftDelete")) == Batch([], [], [])
    ensures GenericDelivered(BareNode("Delete")) == GenericDelivered(BareNode("SoftDelete")) == Batch([], [], [[]])
  {
    hide Find, IdOf;
    FindsInItem("Add", id, []);
    FindsInItem("Change", id, []);
    FindsInItem("Delete", id, []);
    FindsInItem("SoftDelete", id, []);
  }

  /** Anything else in the list delivers nothing. */
  lemma OtherCommandsAreIgnored(n: Node)
    requires n.Elem? ==> n.e.name != "Add" && n.e.name != "Change" && n.e.name != "Delete" && n.e.name != "SoftDelete"
    ensures Delivered(n) == GenericDelivered(n) == Batch([], [], [])
  {
  }

  /** For every element: its id is the first ServerId in it and its data the first ApplicationData, in document order. */
  lemma {:induction false} AnyCommandIsRead(e: Element)
    ensures var ids, apps := Named(Preorder(e), "ServerId"), Named(Preorder(e), "ApplicationData");
            var id := if ids == [] then [] else TextContent(ids[0].children);
            var item := Item(id, First(apps));
            && (e.name == "Add" ==> Delivered(Elem(e)) == Batch([item], [], [])
                                    && GenericDelivered(Elem(e)) == Batch(if apps == [] then [] else [item], [], []))
            && (e.name == "Change" ==> Delivered(Elem(e)) == Batch([], [item], [])
                                       && GenericDelivered(Elem(e)) == Batch([], if apps == [] then [] else [item], []))
            && (e.name == "Delete" || e.name == "SoftDelete" ==>
                  Delivered(Elem(e)) == Batch([], [], if ids == [] then [] else [id])
                  && GenericDelivered(Elem(e)) == Batch([], [], [id]))
  {
    hide TextContent, Preorder, Find, Named;
    FindIsFirstNamed(e, "ServerId");
    FindIsFirstNamed(e, "ApplicationData");
  }

  /** The same of a response: its client id, its server id and its status are the first elements of these names. */
  lemma {:induction false} AnyResponseIsRead(e: Element, asked: Bytes)
    ensures var client, ids := TextIn(Named(Preorder(e), "ClientId")), TextIn(Named(Preorder(e), "ServerId"));
            && Assigns(Elem(e), asked) == (if e.name == "Add" && client == Some(asked) then ids else None)
            && ChangeResults([Elem(e)])
               == [ChangeResult(match ids case Some(id) => id case None => [],
                                match TextIn(Named(Preorder(e), "Status")) case Some(t) => Decimal.Atoi(t) case None => 0)]
  {
    hide TextContent, Preorder, Find, Decimal.Atoi;
    FindIsFirstNamed(e, "ServerId");
    FindIsFirstNamed(e, "ClientId");
    FindIsFirstNamed(e, "Status");
    assert [Elem(e)][1..] == [];
  }

  /** A list of commands delivers what each of them does, list by list and in order. */
  lemma {:induction false} DeliveredInOrder(a: seq<Node>, b: seq<Node>)
    ensures var x, y := DeliveredBy(a), DeliveredBy(b);
            DeliveredBy(a + b) == Batch(x.added + y.added, x.changed + y.changed, x.deleted + y.deleted)
    ensures var x, y := GenericDeliveredBy(a), GenericDeliveredBy(b);
            GenericDeliveredBy(a + b) == Batch(x.added + y.added, x.changed + y.changed, x.deleted + y.deleted)
  {
    hide DeliveredBy, GenericDeliveredBy;
    DeliveredConcat(a, b);
    GenericDeliveredConcat(a, b);
  }

  lemma DeliveredByOne(n: Node)
    ensures DeliveredBy([n]) == Delivered(n) && GenericDeliveredBy([n]) == GenericDelivered(n)
    ensures DeliveredBy([]) == GenericDeliveredBy([]) == Batch([], [], [])
  {
    hide Delivered, GenericDelivered;
    var nodes := [n];
    assert nodes[1..] == [];
    JoinEmpty(Delivered(n));
    JoinEmpty(GenericDelivered(n));
  }

  lemma JoinEmpty(b: Batch)
    ensures Join(b, EMPTY) == b
  {
  }

  // ---- The responses of a collection --------------------------------------

  function ChangeResponse(id: Bytes, code: Option<Decimal.int64>): Node {
    E(0, "Change", [Leaf(0, "ServerId", id)] + StatusNode(0, code))
  }

  function AddResponse(clientId: Bytes, serverId: Option<Bytes>): Node {
    E(0, "Add", [Leaf(0, "ClientId", clientId)] + match serverId case Some(id) => [Leaf(0, "ServerId", id)] case None => [])
  }

  function ChangeResponses(responses: seq<(Bytes, Option<Decimal.int64>)>): seq<Node> {
    if responses == [] then [] else [ChangeResponse(responses[0].0, responses[0].1)] + ChangeResponses(responses[1..])
  }

  /** The id and the code of each response, with 0 where no code, or a negative one, was written. */
  function Codes(responses: seq<(Bytes, Option<Decimal.int64>)>): seq<ChangeResult> {
    if responses == [] then []
    else
      [ChangeResult(responses[0].0, match responses[0].1 case Some(c) => if c >= 0 then c else 0 case None => 0)]
      + Codes(responses[1..])
  }

  /** The statuses of a list of responses, one for one and in order. */
  lemma {:induction false} ResponsesAreRead(responses: seq<(Bytes, Option<Decimal.int64>)>)
    ensures ChangeResults(ChangeResponses(responses)) == Codes(responses)
    decreases responses
  {
    hide ChangeResponse;
    if responses != [] {
      ResponseIsRead(responses[0].0, responses[0].1, ChangeResponses(responses[1..]));
      ResponsesAreRead(responses[1..]);
    }
  }

  lemma {:induction false} ResponseIsRead(id: Bytes, code: Option<Decimal.int64>, rest: seq<Node>)
    ensures ChangeResults([ChangeResponse(id, code)] + rest)
         == [ChangeResult(id, match code case Some(c) => if c >= 0 then c else 0 case None => 0)] + ChangeResults(rest)
  {
    hide Decimal.Itoa, Decimal.Atoi;
    var first, status := [Leaf(0, "ServerId", id)], StatusNode(0, code);
    FindLeaf(0, "ServerId", id, "ServerId");
    FindLeaf(0, "ServerId", id, "Status");
    FindInOne(first[0], "ServerId");
    FindInOne(first[0], "Status");
    FindInConcat(first, status, "ServerId");
    FindInConcat(first, status, "Status");
    if code.Some? {
      FindLeaf(0, "Status", Decimal.Itoa(code.value), "Status");
      FindInOne(status[0], "Status");
      StatusReads(0, code.value);
    }
    var nodes := [ChangeResponse(id, code)] + rest;
    assert nodes[0] == ChangeResponse(id, code) && nodes[1..] == rest;
  }

  /** An Add response assigns its server id to its own client id, and to no other. */
  lemma AssignmentIsRead(clientId: Bytes, serverId: Option<Bytes>, asked: Bytes)
    ensures Assigns(AddResponse(clientId, serverId), asked) == if clientId == asked then serverId else None
  {
    var first: seq<Node> := [Leaf(0, "ClientId", clientId)];
    var second: seq<Node> := match serverId case Some(id) => [Leaf(0, "ServerId", id)] case None => [];
    FindLeaf(0, "ClientId", clientId, "ClientId");
    FindLeaf(0, "ClientId", clientId, "ServerId");
    FindInOne(first[0], "ClientId");
    FindInOne(first[0], "ServerId");
    FindInConcat(first, second, "ClientId");
    FindInConcat(first, second, "ServerId");
    if serverId.Some? {
      FindLeaf(0, "ServerId", serverId.value, "ServerId");
      FindInOne(second[0], "ServerId");
    }
  }

  /** No response of another kind assigns anything. */
  lemma OthersAssignNothing(n: Node, asked: Bytes)
    requires n.Elem? ==> n.e.name != "Add"
    ensures Assigns(n, asked) == None
  {
  }

  // ---- FolderSync ---------------------------------------------------------

  function FolderReply(top: Option<Decimal.int64>, key: Key, changes: seq<Node>): Element {
    Element(7, "FolderSync", StatusNode(7, top) + [Leaf(7, "SyncKey", key)] + [E(7, "Changes", changes)])
  }

  lemma FolderReplyIsRead(key: Key, top: Option<Decimal.int64>, sent: Key, changes: seq<Node>)
    ensures var root, req := FolderReply(top, sent, changes), Request.FolderSync(key);
            && Refusal(req, root) == (if Fails(top) then Some(StatusError("FolderSync", top.value)) else None)
            && SentKey(req, root) == Some(sent) && Find(root, "Changes") == Some(Element(7, "Changes", changes))
  {
    hide Decimal.Itoa, Decimal.Atoi, TopStatus;
    var status, leaf, list := StatusNode(7, top), [Leaf(7, "SyncKey", sent)], [E(7, "Changes", changes)];
    FindLeaf(7, "SyncKey", sent, "SyncKey");
    FindLeaf(7, "SyncKey", sent, "Changes");
    FindInOne(leaf[0], "SyncKey");
    FindInOne(leaf[0], "Changes");
    FindInOne(list[0], "Changes");
    FindInConcat(status, leaf, "SyncKey");
    FindInConcat(status, leaf, "Changes");
    FindInConcat(status + leaf, list, "SyncKey");
    FindInConcat(status + leaf, list, "Changes");
    if top.Some? {
      FindLeaf(7, "Status", Decimal.Itoa(top.value), "SyncKey");
      FindLeaf(7, "Status", Decimal.Itoa(top.value), "Changes");
      FindInOne(status[0], "SyncKey");
      FindInOne(status[0], "Changes");
    }
    TopStatusAmong(7, top, leaf[0], list);
  }

  lemma {:induction false} TopStatusAmong(page: byte, top: Option<Decimal.int64>, n: Node, rest: seq<Node>)
    requires n.Elem? && n.e.name != "Status" && Children(rest, "Status") == []
    ensures TopStatus(StatusNode(page, top) + [n] + rest) == if Fails(top) then top.value else if top == Some(1) then 1 else 0
  {
    hide Decimal.Itoa, Decimal.Atoi;
    var nodes := StatusNode(page, top) + [n] + rest;
    TopStatusIsFirst(rest);
    assert ([n] + rest)[1..] == rest;
    if top.Some? {
      StatusReads(page, top.value);
      assert nodes[0] == StatusNode(page, top)[0];
    } else {
      assert nodes == [n] + rest;
    }
  }

  /** One entry of the hierarchy goes to the list its name says; a deletion needs an id, and anything else is ignored. */
  lemma FoldersAreRead(page: byte, children: seq<Node>, id: Bytes)
    ensures HierarchyOf([E(page, "Add", children)]) == Hierarchy([Element(page, "Add", children)], [], [])
    ensures HierarchyOf([E(page, "Update", children)]) == Hierarchy([], [Element(page, "Update", children)], [])
    ensures HierarchyOf([E(7, "Delete", [Leaf(7, "ServerId", id)])]) == Hierarchy([], [], [id])
    ensures HierarchyOf([E(7, "Delete", [])]) == Hierarchy([], [], [])
  {
    var leaf := [Leaf(7, "ServerId", id)];
    FindLeaf(7, "ServerId", id, "ServerId");
    FindInOne(leaf[0], "ServerId");
    OneFolder(E(page, "Add", children));
    OneFolder(E(page, "Update", children));
    OneFolder(E(7, "Delete", leaf));
    OneFolder(E(7, "Delete", []));
  }

  lemma OtherFoldersAreIgnored(n: Node)
    requires n.Elem? ==> n.e.name != "Add" && n.e.name != "Update" && n.e.name != "Delete"
    ensures HierarchyOf([n]) == Hierarchy([], [], [])
  {
    OneFolder(n);
  }

  lemma OneFolder(n: Node)
    ensures [n][1..] == [] && HierarchyOf([n][1..]) == Hierarchy([], [], [])
  {
  }

  /** A list of entries is read list by list and in order. */
  lemma {:induction false} FoldersConcat(a: seq<Node>, b: seq<Node>)
    ensures HierarchyOf([]) == Hierarchy([], [], [])
    ensures var x, y := HierarchyOf(a), HierarchyOf(b);
            HierarchyOf(a + b) == Hierarchy(x.added + y.added, x.updated + y.updated, x.deleted + y.deleted)
    decreases a
  {
    hide Find, IdOf;
    if a == [] {
      assert a + b == b;
    } else {
      assert (a + b)[1..] == a[1..] + b && (a + b)[0] == a[0];
      FoldersConcat(a[1..], b);
    }
  }

  // ---- Provision ----------------------------------------------------------

  /** A policy as the server writes it: its status, and its key if there is one. */
  function ProvisionReply(top: Option<Decimal.int64>, policy: Option<Decimal.int64>, key: Option<Key>): Element {
    Element(14, "Provision", StatusNode(14, top) + [E(14, "Policies", [E(14, "Policy", PolicyChildren(policy, key))])])
  }

  function PolicyChildren(policy: Option<Decimal.int64>, key: Option<Key>): seq<Node> {
    StatusNode(14, policy) + match key case Some(k) => [Leaf(14, "PolicyKey", k)] case None => []
  }

  lemma FindsPolicy(top: Option<Decimal.int64>, policy: Option<Decimal.int64>, key: Option<Key>)
    ensures Find(ProvisionReply(top, policy, key), "Policy") == Some(Element(14, "Policy", PolicyChildren(policy, key)))
  {
    hide PolicyChildren, Decimal.Itoa;
    var status, inner := StatusNode(14, top), [E(14, "Policy", PolicyChildren(policy, key))];
    var outer := [E(14, "Policies", inner)];
    FindInOne(inner[0], "Policy");
    FindInOne(outer[0], "Policy");
    FindInConcat(status, outer, "Policy");
    if top.Some? {
      FindInOne(status[0], "Policy");
      FindLeaf(14, "Status", Decimal.Itoa(top.value), "Policy");
    }
  }

  lemma ProvisionReplyIsRead(req: Request, top: Option<Decimal.int64>, policy: Option<Decimal.int64>, key: Option<Key>)
    requires req.Provision?
    ensures var root := ProvisionReply(top, policy, key);
            && Find(root, "Policy").Some?
            && Refusal(req, root) == (if Fails(top) then Some(StatusError("Provision", top.value))
                                      else if Fails(policy) then Some(StatusError("Provision/Policy", policy.value))
                                      else None)
            && SentKey(req, root) == key
  {
    hide Decimal.Itoa, Decimal.Atoi, TopStatus;
    var status: seq<Node> := StatusNode(14, policy);
    var leaf: seq<Node> := match key case Some(k) => [Leaf(14, "PolicyKey", k)] case None => [];
    FindsPolicy(top, policy, key);
    TopStatusOf(14, top, E(14, "Policies", [E(14, "Policy", PolicyChildren(policy, key))]));
    FindInConcat(status, leaf, "Status");
    FindInConcat(status, leaf, "PolicyKey");
    if policy.Some? {
      FindInOne(status[0], "Status");
      FindInOne(status[0], "PolicyKey");
      FindLeaf(14, "Status", Decimal.Itoa(policy.value), "Status");
      FindLeaf(14, "Status", Decimal.Itoa(policy.value), "PolicyKey");
      StatusReads(14, policy.value);
    }
    if key.Some? {
      FindInOne(leaf[0], "Status");
      FindInOne(leaf[0], "PolicyKey");
      FindLeaf(14, "PolicyKey", key.value, "Status");
      FindLeaf(14, "PolicyKey", key.value, "PolicyKey");
    }
  }
}
