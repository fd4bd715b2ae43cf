/** The requests the client builds, as document trees, and what it reads out of the replies. */
module Protocol {
  import opened Basics
  import opened Tree
  import opened Decimal
  import opened Errors

  type Key = Bytes

  const AIR_SYNC: byte := 0
  const EMAIL: byte := 2
  const FOLDER_HIERARCHY: byte := 7
  const PROVISION: byte := 14
  const AIR_SYNC_BASE: byte := 17
  const RIGHTS_MANAGEMENT: byte := 24

  /** The bytes of an ASCII literal. */
  function Ascii(s: string): Bytes {
    seq(|s|, i requires 0 <= i < |s| => s[i] as int % 0x100)
  }

  const NO_KEY: Key := [ZERO]
  const ROOT_FOLDER: Bytes := Ascii("__root__")

  function TextLeaf(page: byte, name: string, v: Bytes): Node {
    E(page, name, [Text(v)])
  }

  function Optional(c: bool, n: Node): seq<Node> {
    if c then [n] else []
  }

  // ---- Requests -----------------------------------------------------------

  datatype EmailOptions = EmailOptions(windowSize: int64, bodyType: int64, bodyTruncationSize: int64, dateFilter: int64,
                                       noBootstrap: bool, mimeSupport: int64, mimeTruncation: int64, conversationMode: bool,
                                       rightsManagement: bool, bodyPartPreviewBytes: int64, waitMinutes: int64,
                                       heartbeatSeconds: int64)

  function EmailDefaults(o: EmailOptions): EmailOptions {
    o.(windowSize := if o.windowSize <= 0 then 50 else o.windowSize,
       bodyType := if o.bodyType == 0 then 1 else o.bodyType,
       bodyTruncationSize := if o.bodyTruncationSize <= 0 then 32768 else o.bodyTruncationSize,
       dateFilter := if o.dateFilter == 0 then 4 else o.dateFilter)
  }

  /** The options of a bootstrap Sync: everything zero but NoBootstrap. */
  const BOOTSTRAP := EmailOptions(0, 0, 0, 0, true, 0, 0, false, false, 0, 0, 0)

  /** The kinds of Sync: two that fetch items with options, one that fetches without, and two that mutate. */
  datatype Payload =
    | Email(options: EmailOptions)
    | Calendar(windowSize: int64, dateFilter: int64)
    | Generic
    | Commands(cmds: Element)
    | Changes(cmds: Element)

  datatype Request =
    | Provision(key: Key, ack: bool)
    | FolderSync(key: Key)
    | Sync(folder: Bytes, key: Key, payload: Payload)

  function Command(req: Request): string {
    match req
    case Provision(_, _) => "Provision"
    case FolderSync(_) => "FolderSync"
    case Sync(_, _, _) => "Sync"
  }

  predicate IsMutation(req: Request) {
    req.Sync? && (req.payload.Commands? || req.payload.Changes?)
  }

  function RootOf(req: Request): Element {
    match req
    case Provision(key, ack) =>
      Element(PROVISION, "Provision", [E(PROVISION, "Policies", [E(PROVISION, "Policy",
        [TextLeaf(PROVISION, "PolicyType", Ascii("MS-EAS-Provisioning-WBXML"))]
        + if ack then [TextLeaf(PROVISION, "PolicyKey", key), TextLeaf(PROVISION, "Status", Itoa(1))] else [])])])
    case FolderSync(key) => Element(FOLDER_HIERARCHY, "FolderSync", [TextLeaf(FOLDER_HIERARCHY, "SyncKey", key)])
    case Sync(folder, key, payload) =>
      Element(AIR_SYNC, "Sync",
              Preamble(payload)
              + [E(AIR_SYNC, "Collections", [E(AIR_SYNC, "Collection",
                 [TextLeaf(AIR_SYNC, "SyncKey", key), TextLeaf(AIR_SYNC, "CollectionId", folder)] + Details(payload))])])
  }

  /** Wait or HeartbeatInterval, at the top of the Sync element. */
  function Preamble(p: Payload): seq<Node> {
    match p
    case Email(o) =>
      if o.waitMinutes > 0 then [TextLeaf(AIR_SYNC, "Wait", Itoa(o.waitMinutes))]
      else Optional(o.heartbeatSeconds > 0, TextLeaf(AIR_SYNC, "HeartbeatInterval", Itoa(o.heartbeatSeconds)))
    case _ => []
  }

  function Details(p: Payload): seq<Node> {
    match p
    case Email(o) =>
      Fetch(Itoa(o.windowSize))
      + Optional(o.conversationMode, TextLeaf(AIR_SYNC, "ConversationMode", Itoa(1)))
      + [E(AIR_SYNC, "Options", EmailOptionNodes(o))]
    case Calendar(windowSize, dateFilter) =>
      Fetch(Itoa(windowSize)) + [E(AIR_SYNC, "Options", [TextLeaf(AIR_SYNC, "FilterType", Itoa(dateFilter))])]
    case Generic => Fetch(Ascii("100"))
    case Commands(cmds) => [Elem(cmds)]
    case Changes(cmds) => [TextLeaf(AIR_SYNC, "DeletesAsMoves", Itoa(1)), Elem(cmds)]
  }

  function Fetch(windowSize: Bytes): seq<Node> {
    [TextLeaf(AIR_SYNC, "DeletesAsMoves", Itoa(1)), TextLeaf(AIR_SYNC, "GetChanges", Itoa(1)),
     TextLeaf(AIR_SYNC, "WindowSize", windowSize)]
  }

  function EmailOptionNodes(o: EmailOptions): seq<Node> {
    [TextLeaf(AIR_SYNC, "FilterType", Itoa(o.dateFilter))]
    + Optional(o.mimeSupport > 0, TextLeaf(AIR_SYNC, "MIMESupport", Itoa(o.mimeSupport)))
    + Optional(o.mimeTruncation > 0, TextLeaf(AIR_SYNC, "MIMETruncation", Itoa(o.mimeTruncation)))
    + [E(AIR_SYNC_BASE, "BodyPreference",
         [TextLeaf(AIR_SYNC_BASE, "Type", Itoa(o.bodyType)),
          TextLeaf(AIR_SYNC_BASE, "TruncationSize", Itoa(o.bodyTruncationSize))])]
    + Optional(o.bodyPartPreviewBytes > 0,
         E(AIR_SYNC_BASE, "BodyPartPreference",
           [TextLeaf(AIR_SYNC_BASE, "Type", Itoa(1)), TextLeaf(AIR_SYNC_BASE, "TruncationSize", Itoa(o.bodyPartPreviewBytes))]))
    + Optional(o.rightsManagement, TextLeaf(RIGHTS_MANAGEMENT, "RightsManagementSupport", Itoa(1)))
  }

  // ---- Client-side changes ------------------------------------------------

  datatype EmailChange = EmailChange(serverId: Bytes, read: Option<bool>, flagged: Option<bool>,
                                     flagStatus: Option<int64>, delete: bool)

  function FieldNodes(ch: EmailChange): seq<Node> {
    (match ch.read
     case Some(b) => [TextLeaf(EMAIL, "Read", Itoa(if b then 1 else 0))]
     case None => [])
    + if ch.flagStatus.None? && ch.flagged.None? then []
      else
        var code: int64 := if ch.flagStatus.Some? then ch.flagStatus.value else if ch.flagged.value then 2 else 0;
        [E(EMAIL, "Flag", [TextLeaf(EMAIL, "FlagStatus", Itoa(code))])]
  }

  /** The command one change becomes: none if it names no item or changes nothing. */
  function ChangeNodes(ch: EmailChange): seq<Node> {
    if ch.serverId == [] then []
    else if ch.delete then [E(AIR_SYNC, "Delete", [TextLeaf(AIR_SYNC, "ServerId", ch.serverId)])]
    else if FieldNodes(ch) == [] then []
    else [E(AIR_SYNC, "Change", [TextLeaf(AIR_SYNC, "ServerId", ch.serverId),
                                 E(AIR_SYNC, "ApplicationData", FieldNodes(ch))])]
  }

  function AllChangeNodes(changes: seq<EmailChange>): seq<Node> {
    if changes == [] then [] else ChangeNodes(changes[0]) + AllChangeNodes(changes[1..])
  }

  // ---- Replies ------------------------------------------------------------

  predicate IsBad(status: int) { status != 0 && status != STATUS_OK }

  /** The Status among the root's immediate children, or zero. */
  function TopStatus(children: seq<Node>): int64 {
    if children == [] then 0
    else if children[0].Elem? && children[0].e.name == "Status" then Atoi(TextContent(children[0].e.children))
    else TopStatus(children[1..])
  }

  function TextOf(e: Option<Element>): Option<Bytes> {
    match e case Some(x) => Some(TextContent(x.children)) case None => None
  }

  function Near(e: Element, name: string): Option<Element> { FindShallow(e, name, 1) }

  function StatusIn(text: Option<Bytes>, command: string): Option<Error> {
    match text
    case Some(t) => if IsBad(Atoi(t)) then Some(StatusError(command, Atoi(t))) else None
    case None => None
  }

  /** The status error a reply document holds for a request, if any. */
  function Refusal(req: Request, root: Element): Option<Error> {
    if IsBad(TopStatus(root.children)) then Some(StatusError(Command(req), TopStatus(root.children)))
    else
      match req
      case FolderSync(_) => None
      case Provision(_, _) =>
        (match Find(root, "Policy")
         case Some(policy) => StatusIn(TextOf(Find(policy, "Status")), "Provision/Policy")
         case None => None)
      case Sync(_, _, _) =>
        (match Find(root, "Collection")
         case Some(c) => StatusIn(TextOf(Near(c, "Status")), "Sync")
         case None => None)
  }

  /** The key a reply document sends: the policy key, the hierarchy key, or the collection's key. */
  function SentKey(req: Request, root: Element): Option<Key> {
    match req
    case FolderSync(_) => TextOf(Find(root, "SyncKey"))
    case Provision(_, _) =>
      (match Find(root, "Policy")
       case Some(policy) => TextOf(Find(policy, "PolicyKey"))
       case None => None)
    case Sync(_, _, _) =>
      (match Find(root, "Collection")
       case Some(c) => TextOf(Near(c, "SyncKey"))
       case None => None)
  }

  datatype Item = Item(serverId: Bytes, app: Option<Element>)

  datatype Batch = Batch(added: seq<Item>, changed: seq<Item>, deleted: seq<Bytes>)

  const EMPTY := Batch([], [], [])

  function Join(a: Batch, b: Batch): Batch {
    Batch(a.added + b.added, a.changed + b.changed, a.deleted + b.deleted)
  }

  function IdOf(e: Element): Bytes {
    match TextOf(Find(e, "ServerId")) case Some(id) => id case None => []
  }

  /** What one command of an email or calendar collection delivers. */
  function Delivered(n: Node): Batch {
    if !n.Elem? then EMPTY
    else
      match n.e.name
      case "Add" => Batch([Item(IdOf(n.e), Find(n.e, "ApplicationData"))], [], [])
      case "Change" => Batch([], [Item(IdOf(n.e), Find(n.e, "ApplicationData"))], [])
      case "Delete" => if Find(n.e, "ServerId").Some? then Batch([], [], [IdOf(n.e)]) else EMPTY
      case "SoftDelete" => if Find(n.e, "ServerId").Some? then Batch([], [], [IdOf(n.e)]) else EMPTY
      case _ => EMPTY
  }

  function DeliveredBy(cmds: seq<Node>): Batch {
    if cmds == [] then EMPTY else Join(Delivered(cmds[0]), DeliveredBy(cmds[1..]))
  }

  /** The other classes: an item without data is dropped, a deletion without an id is not. */
  function GenericDelivered(n: Node): Batch {
    if !n.Elem? then EMPTY
    else
      var app := Find(n.e, "ApplicationData");
      match n.e.name
      case "Add" => if app.Some? then Batch([Item(IdOf(n.e), app)], [], []) else EMPTY
      case "Change" => if app.Some? then Batch([], [Item(IdOf(n.e), app)], []) else EMPTY
      case "Delete" => Batch([], [], [IdOf(n.e)])
      case "SoftDelete" => Batch([], [], [IdOf(n.e)])
      case _ => EMPTY
  }

  function GenericDeliveredBy(cmds: seq<Node>): Batch {
    if cmds == [] then EMPTY else Join(GenericDelivered(cmds[0]), GenericDeliveredBy(cmds[1..]))
  }

  function CommandsIn(collection: Element): seq<Node> {
    match Near(collection, "Commands") case Some(c) => c.children case None => []
  }

  datatype ChangeResult = ChangeResult(serverId: Bytes, status: int64)

  function ChangeResults(nodes: seq<Node>): seq<ChangeResult> {
    if nodes == [] then []
    else
      (if nodes[0].Elem? then
         [ChangeResult(IdOf(nodes[0].e), match TextOf(Find(nodes[0].e, "Status")) case Some(t) => Atoi(t) case None => 0)]
       else [])
      + ChangeResults(nodes[1..])
  }

  /** The command that adds an item under a client id. */
  function AddCommand(clientId: Bytes, app: Element): Element {
    Element(AIR_SYNC, "Commands", [E(AIR_SYNC, "Add", [TextLeaf(AIR_SYNC, "ClientId", clientId), Elem(app)])])
  }

  /** The server id a response node assigns to a client id. */
  function Assigns(n: Node, clientId: Bytes): Option<Bytes> {
    if n.Elem? && n.e.name == "Add" && TextOf(Find(n.e, "ClientId")) == Some(clientId) then TextOf(Find(n.e, "ServerId")) else None
  }

  function AssignedIn(nodes: seq<Node>, clientId: Bytes): Option<Bytes> {
    if nodes == [] then None
    else if Assigns(nodes[0], clientId).Some? then Assigns(nodes[0], clientId)
    else AssignedIn(nodes[1..], clientId)
  }

  function ResponsesIn(root: Element): seq<Node> {
    match Find(root, "Collection")
    case None => []
    case Some(c) => match Near(c, "Responses") case Some(r) => r.children case None => []
  }

  /** The server id assigned to the client id in a reply, or the client id itself. */
  function AssignedId(root: Option<Element>, clientId: Bytes): Bytes {
    match root
    case None => clientId
    case Some(r) => match AssignedIn(ResponsesIn(r), clientId) case Some(id) => id case None => clientId
  }

  /** The three lists of a FolderSync reply: elements added and updated, ids deleted. */
  datatype Hierarchy = Hierarchy(added: seq<Element>, updated: seq<Element>, deleted: seq<Bytes>)

  function HierarchyOf(nodes: seq<Node>): Hierarchy {
    if nodes == [] then Hierarchy([], [], [])
    else
      var n, rest := nodes[0], HierarchyOf(nodes[1..]);
      if !n.Elem? then rest
      else
        match n.e.name
        case "Add" => rest.(added := [n.e] + rest.added)
        case "Update" => rest.(updated := [n.e] + rest.updated)
        case "Delete" => if Find(n.e, "ServerId").Some? then rest.(deleted := [IdOf(n.e)] + rest.deleted) else rest
        case _ => rest
  }

  /** The first response to this client id decides, and responses to others never do. */
  lemma {:induction false} AssignedIsFirst(nodes: seq<Node>, clientId: Bytes)
    ensures AssignedIn(nodes, clientId).None? <==> forall n | n in nodes :: Assigns(n, clientId).None?
    ensures AssignedIn(nodes, clientId).Some? ==>
              exists i | 0 <= i < |nodes| :: Assigns(nodes[i], clientId) == AssignedIn(nodes, clientId)
                                             && forall j | 0 <= j < i :: Assigns(nodes[j], clientId).None?
  {
    hide Assigns;
    if nodes != [] && Assigns(nodes[0], clientId).None? {
      AssignedIsFirst(nodes[1..], clientId);
      if AssignedIn(nodes, clientId).Some? {
        var i :| 0 <= i < |nodes[1..]| && Assigns(nodes[1..][i], clientId) == AssignedIn(nodes[1..], clientId)
                 && forall j | 0 <= j < i :: Assigns(nodes[1..][j], clientId).None?;
        assert Assigns(nodes[i + 1], clientId) == AssignedIn(nodes, clientId);
        forall j | 0 <= j < i + 1 ensures Assigns(nodes[j], clientId).None? {
          if j > 0 { assert nodes[j] == nodes[1..][j - 1]; }
        }
      }
    }
  }

  lemma {:induction false} GenericDeliveredConcat(a: seq<Node>, b: seq<Node>)
    ensures GenericDeliveredBy(a + b) == Join(GenericDeliveredBy(a), GenericDeliveredBy(b))
    decreases a
  {
    hide GenericDelivered;
    if a == [] {
      assert a + b == b;
    } else {
      assert (a + b)[1..] == a[1..] + b;
      GenericDeliveredConcat(a[1..], b);
    }
  }

  lemma {:induction false} DeliveredConcat(a: seq<Node>, b: seq<Node>)
    ensures DeliveredBy(a + b) == Join(DeliveredBy(a), DeliveredBy(b))
    decreases a
  {
    hide Delivered;
    if a == [] {
      assert a + b == b;
    } else {
      assert (a + b)[1..] == a[1..] + b;
      DeliveredConcat(a[1..], b);
    }
  }
}
