/** What a server finds in the requests the client builds: at every path that the protocol names, the right texts. */
module RequestTrees {
  import opened Basics
  import opened Tree
  import opened Protocol
  import opened Paths
  import opened Decimal

  const ONE: Bytes := [0x31]

  function When(c: bool, v: Bytes): seq<Bytes> { if c then [v] else [] }

  /** What is found in a request from its root. */
  function At(req: Request, path: Path): seq<Bytes> { Texts([Elem(RootOf(req))], path) }

  /** What is found in the collection of a Sync. */
  function In(req: Request, path: Path): seq<Bytes> {
    At(req, [(0, "Sync"), (0, "Collections"), (0, "Collection")] + path)
  }

  // ---- Pieces -------------------------------------------------------------

  lemma OneIsOne()
    ensures Itoa(1) == ONE
  {
  }

  lemma {:induction false} TextLeafAt(page: byte, name: string, v: Bytes, path: Path)
    ensures Texts([TextLeaf(page, name, v)], path) == When(path == [(page, name)], v)
  {
    LeafTexts(page, name, v, path);
  }

  lemma {:induction false} OptionalAt(c: bool, page: byte, name: string, v: Bytes, path: Path)
    ensures Texts(Optional(c, TextLeaf(page, name, v)), path) == When(c && path == [(page, name)], v)
  {
    TextLeafAt(page, name, v, path);
  }

  lemma {:induction false} TwoLeavesAt(page: byte, a: string, v: Bytes, b: string, w: Bytes, path: Path)
    ensures Texts([TextLeaf(page, a, v), TextLeaf(page, b, w)], path)
         == When(path == [(page, a)], v) + When(path == [(page, b)], w)
  {
    TextLeafAt(page, a, v, path);
    TextLeafAt(page, b, w, path);
    TextsConcat([TextLeaf(page, a, v)], [TextLeaf(page, b, w)], path);
    assert [TextLeaf(page, a, v)] + [TextLeaf(page, b, w)] == [TextLeaf(page, a, v), TextLeaf(page, b, w)];
  }

  lemma {:induction false} FetchAt(window: Bytes, path: Path)
    ensures Texts(Fetch(window), path)
         == When(path == [(0, "DeletesAsMoves")], ONE) + When(path == [(0, "GetChanges")], ONE)
            + When(path == [(0, "WindowSize")], window)
  {
    OneIsOne();
    TwoLeavesAt(0, "DeletesAsMoves", ONE, "GetChanges", ONE, path);
    TextLeafAt(0, "WindowSize", window, path);
    var two := [TextLeaf(0, "DeletesAsMoves", ONE), TextLeaf(0, "GetChanges", ONE)];
    TextsConcat(two, [TextLeaf(0, "WindowSize", window)], path);
    assert Fetch(window) == two + [TextLeaf(0, "WindowSize", window)];
  }

  /** The collection holds its key and folder before the payload's own nodes. */
  lemma {:induction false} InCollection(req: Request, path: Path)
    requires req.Sync? && path != []
    ensures In(req, path)
         == When(path == [(0, "SyncKey")], req.key) + When(path == [(0, "CollectionId")], req.folder)
            + Texts(Details(req.payload), path)
  {
    hide Details, Texts, TextsAt;
    var two := [TextLeaf(0, "SyncKey", req.key), TextLeaf(0, "CollectionId", req.folder)];
    var inner := two + Details(req.payload);
    var whole: Path := [(0, "Sync"), (0, "Collections"), (0, "Collection")] + path;
    TwoLeavesAt(0, "SyncKey", req.key, "CollectionId", req.folder, path);
    TextsConcat(two, Details(req.payload), path);
    assert whole[1..][1..][1..] == path && |whole| > 3;
    BranchTexts(0, "Collection", inner, whole[1..][1..]);
    var collections := [E(0, "Collections", [E(0, "Collection", inner)])];
    BranchTexts(0, "Collections", [E(0, "Collection", inner)], whole[1..]);
    PreambleAt(req.payload, whole[1..]);
    TextsConcat(Preamble(req.payload), collections, whole[1..]);
    BranchTexts(0, "Sync", Preamble(req.payload) + collections, whole);
  }

  lemma {:induction false} PreambleAt(p: Payload, path: Path)
    ensures Texts(Preamble(p), path)
         == if p.Email? && p.options.waitMinutes > 0 then When(path == [(0, "Wait")], Itoa(p.options.waitMinutes))
            else if p.Email? && p.options.heartbeatSeconds > 0 then
              When(path == [(0, "HeartbeatInterval")], Itoa(p.options.heartbeatSeconds))
            else []
  {
    if p.Email? {
      TextLeafAt(0, "Wait", Itoa(p.options.waitMinutes), path);
      TextLeafAt(0, "HeartbeatInterval", Itoa(p.options.heartbeatSeconds), path);
    }
  }

  // ---- Fetching -----------------------------------------------------------

  lemma {:induction false} EmailDetailsAt(o: EmailOptions, path: Path)
    requires path != [] && path != [(0, "Options")]
    ensures Texts(Details(Email(o)), path)
         == When(path == [(0, "DeletesAsMoves")], ONE) + When(path == [(0, "GetChanges")], ONE)
            + When(path == [(0, "WindowSize")], Itoa(o.windowSize))
            + When(o.conversationMode && path == [(0, "ConversationMode")], ONE)
            + (if path[0] == (0, "Options") && |path| > 1 then Texts(EmailOptionNodes(o), path[1..]) else [])
  {
    hide Fetch, EmailOptionNodes, Itoa, Texts, TextsAt, Optional;
    OneIsOne();
    var fetch, mode, options := Fetch(Itoa(o.windowSize)), Optional(o.conversationMode, TextLeaf(0, "ConversationMode", ONE)),
                                [E(0, "Options", EmailOptionNodes(o))];
    FetchAt(Itoa(o.windowSize), path);
    OptionalAt(o.conversationMode, 0, "ConversationMode", ONE, path);
    TextsConcat(fetch, mode, path);
    TextsConcat(fetch + mode, options, path);
    if |path| > 1 {
      BranchTexts(0, "Options", EmailOptionNodes(o), path);
    } else {
      ShortBranch(0, "Options", EmailOptionNodes(o), path);
    }
  }

  /** The two leaves of a body preference. */
  lemma {:induction false} PreferenceAt(name: string, kind: Bytes, size: Bytes, path: Path)
    requires path != [] && path != [(17, name)]
    ensures Texts([E(17, name, [TextLeaf(17, "Type", kind), TextLeaf(17, "TruncationSize", size)])], path)
         == When(path == [(17, name), (17, "Type")], kind) + When(path == [(17, name), (17, "TruncationSize")], size)
  {
    var leaves := [TextLeaf(17, "Type", kind), TextLeaf(17, "TruncationSize", size)];
    if |path| > 1 {
      BranchTexts(17, name, leaves, path);
      TwoLeavesAt(17, "Type", kind, "TruncationSize", size, path[1..]);
      assert path == [path[0]] + path[1..];
    } else {
      TextsOne(E(17, name, leaves), path);
    }
  }

  lemma {:induction false} EmailOptionsAt(o: EmailOptions, path: Path)
    requires path != [] && path != [(17, "BodyPreference")] && path != [(17, "BodyPartPreference")]
    ensures Texts(EmailOptionNodes(o), path)
         == When(path == [(0, "FilterType")], Itoa(o.dateFilter))
            + When(o.mimeSupport > 0 && path == [(0, "MIMESupport")], Itoa(o.mimeSupport))
            + When(o.mimeTruncation > 0 && path == [(0, "MIMETruncation")], Itoa(o.mimeTruncation))
            + (When(path == [(17, "BodyPreference"), (17, "Type")], Itoa(o.bodyType))
               + When(path == [(17, "BodyPreference"), (17, "TruncationSize")], Itoa(o.bodyTruncationSize)))
            + (When(o.bodyPartPreviewBytes > 0 && path == [(17, "BodyPartPreference"), (17, "Type")], ONE)
               + When(o.bodyPartPreviewBytes > 0 && path == [(17, "BodyPartPreference"), (17, "TruncationSize")],
                      Itoa(o.bodyPartPreviewBytes)))
            + When(o.rightsManagement && path == [(24, "RightsManagementSupport")], ONE)
  {
    hide Itoa, Texts, TextsAt;
    OneIsOne();
    var a := [TextLeaf(0, "FilterType", Itoa(o.dateFilter))];
    var b := Optional(o.mimeSupport > 0, TextLeaf(0, "MIMESupport", Itoa(o.mimeSupport)));
    var c := Optional(o.mimeTruncation > 0, TextLeaf(0, "MIMETruncation", Itoa(o.mimeTruncation)));
    var d := [E(17, "BodyPreference", [TextLeaf(17, "Type", Itoa(o.bodyType)),
                                       TextLeaf(17, "TruncationSize", Itoa(o.bodyTruncationSize))])];
    var part := E(17, "BodyPartPreference", [TextLeaf(17, "Type", ONE),
                                             TextLeaf(17, "TruncationSize", Itoa(o.bodyPartPreviewBytes))]);
    var e := Optional(o.bodyPartPreviewBytes > 0, part);
    var f := Optional(o.rightsManagement, TextLeaf(24, "RightsManagementSupport", ONE));
    TextLeafAt(0, "FilterType", Itoa(o.dateFilter), path);
    OptionalAt(o.mimeSupport > 0, 0, "MIMESupport", Itoa(o.mimeSupport), path);
    OptionalAt(o.mimeTruncation > 0, 0, "MIMETruncation", Itoa(o.mimeTruncation), path);
    PreferenceAt("BodyPreference", Itoa(o.bodyType), Itoa(o.bodyTruncationSize), path);
    PreferenceAt("BodyPartPreference", ONE, Itoa(o.bodyPartPreviewBytes), path);
    NoTexts(path);
    OptionalAt(o.rightsManagement, 24, "RightsManagementSupport", ONE, path);
    TextsConcat(a, b, path);
    TextsConcat(a + b, c, path);
    TextsConcat(a + b + c, d, path);
    TextsConcat(a + b + c + d, e, path);
    TextsConcat(a + b + c + d + e, f, path);
    assert EmailOptionNodes(o) == a + b + c + d + e + f;
  }

  lemma {:induction false} NoTexts(path: Path)
    ensures Texts([], path) == []
  {
  }

  lemma {:induction false} InOptions(req: Request, path: Path)
    requires req.Sync? && req.payload.Email? && path != []
    ensures In(req, [(0, "Options")] + path) == Texts(EmailOptionNodes(req.payload.options), path)
  {
    hide Texts, EmailOptionNodes, Itoa;
    var p: Path := [(0, "Options")] + path;
    assert p[0] == (0, "Options") && p[1..] == path && |p| > 1;
    InCollection(req, p);
    EmailDetailsAt(req.payload.options, p);
  }

  /** The request of SyncEmail, with the source's defaults for options left at zero: key and folder, window, and the wait
      at the top, of which only one is ever sent. */
  lemma EmailRequestIsFound(folder: Bytes, key: Key, o: EmailOptions)
    ensures var req := Sync(folder, key, Email(EmailDefaults(o)));
            && In(req, [(0, "SyncKey")]) == [key] && In(req, [(0, "CollectionId")]) == [folder]
            && In(req, [(0, "DeletesAsMoves")]) == In(req, [(0, "GetChanges")]) == [[0x31]]
            && In(req, [(0, "WindowSize")]) == [Itoa(if o.windowSize <= 0 then 50 else o.windowSize)]
            && In(req, [(0, "ConversationMode")]) == (if o.conversationMode then [[0x31]] else [])
            && At(req, [(0, "Sync"), (0, "Wait")]) == (if o.waitMinutes > 0 then [Itoa(o.waitMinutes)] else [])
            && At(req, [(0, "Sync"), (0, "HeartbeatInterval")])
               == (if o.waitMinutes <= 0 && o.heartbeatSeconds > 0 then [Itoa(o.heartbeatSeconds)] else [])
  {
    hide Texts, TextsAt, Details, Itoa, EmailOptionNodes;
    var req := Sync(folder, key, Email(EmailDefaults(o)));
    InEmail(req, (0, "SyncKey"));
    InEmail(req, (0, "CollectionId"));
    InEmail(req, (0, "DeletesAsMoves"));
    InEmail(req, (0, "GetChanges"));
    InEmail(req, (0, "WindowSize"));
    InEmail(req, (0, "ConversationMode"));
    AboveCollections(req, "Wait");
    AboveCollections(req, "HeartbeatInterval");
  }

  /** A leaf directly in the collection of an email request. */
  lemma InEmail(req: Request, at: (byte, string))
    requires req.Sync? && req.payload.Email? && at != (0, "Options")
    ensures In(req, [at]) == When(at == (0, "SyncKey"), req.key) + When(at == (0, "CollectionId"), req.folder)
                             + (When(at == (0, "DeletesAsMoves"), ONE) + When(at == (0, "GetChanges"), ONE)
                                + When(at == (0, "WindowSize"), Itoa(req.payload.options.windowSize))
                                + When(req.payload.options.conversationMode && at == (0, "ConversationMode"), ONE) + [])
  {
    hide Texts, Details, Itoa;
    var path: Path := [at];
    assert path != [(0, "Options")] by { assert path[0] == at; }
    InCollection(req, path);
    EmailDetailsAt(req.payload.options, path);
    SingleStep(at, (0, "SyncKey"));
    SingleStep(at, (0, "CollectionId"));
    SingleStep(at, (0, "DeletesAsMoves"));
    SingleStep(at, (0, "GetChanges"));
    SingleStep(at, (0, "WindowSize"));
    SingleStep(at, (0, "ConversationMode"));
  }

  lemma SingleStep(a: (byte, string), b: (byte, string))
    ensures [a] == [b] <==> a == b
  {
    if [a] == [b] { assert [a][0] == [b][0]; }
  }

  /** A leaf at the top of a Sync, beside its collections. */
  lemma AboveCollections(req: Request, name: string)
    requires req.Sync? && name != "Collections"
    ensures At(req, [(0, "Sync"), (0, name)]) == Texts(Preamble(req.payload), [(0, name)])
    ensures Texts(Preamble(req.payload), [(0, name)])
         == if req.payload.Email? && req.payload.options.waitMinutes > 0 then
              When(name == "Wait", Itoa(req.payload.options.waitMinutes))
            else if req.payload.Email? && req.payload.options.heartbeatSeconds > 0 then
              When(name == "HeartbeatInterval", Itoa(req.payload.options.heartbeatSeconds))
            else []
  {
    hide Texts, Itoa;
    var collection := E(0, "Collection", [TextLeaf(0, "SyncKey", req.key),
                                          TextLeaf(0, "CollectionId", req.folder)] + Details(req.payload));
    var collections := E(0, "Collections", [collection]);
    var path: Path := [(0, "Sync"), (0, name)];
    var rest: Path := [(0, name)];
    assert path[1..] == rest;
    BranchTexts(0, "Sync", Preamble(req.payload) + [collections], path);
    TextsConcat(Preamble(req.payload), [collections], rest);
    TextsOne(collections, rest);
    PreambleAt(req.payload, rest);
    SingleStep((0, name), (0, "Wait"));
    SingleStep((0, name), (0, "HeartbeatInterval"));
  }

  /** The options of SyncEmail: filter, MIME, body preference, preview and rights, with the source's defaults. */
  lemma EmailOptionsAreFound(folder: Bytes, key: Key, o: EmailOptions)
    ensures var req := Sync(folder, key, Email(EmailDefaults(o)));
            && In(req, [(0, "Options")] + [(0, "FilterType")]) == [Itoa(if o.dateFilter == 0 then 4 else o.dateFilter)]
            && In(req, [(0, "Options")] + [(0, "MIMESupport")]) == (if o.mimeSupport > 0 then [Itoa(o.mimeSupport)] else [])
            && In(req, [(0, "Options")] + [(0, "MIMETruncation")])
               == (if o.mimeTruncation > 0 then [Itoa(o.mimeTruncation)] else [])
            && In(req, [(0, "Options")] + [(17, "BodyPreference"), (17, "Type")])
               == [Itoa(if o.bodyType == 0 then 1 else o.bodyType)]
            && In(req, [(0, "Options")] + [(17, "BodyPreference"), (17, "TruncationSize")])
               == [Itoa(if o.bodyTruncationSize <= 0 then 32768 else o.bodyTruncationSize)]
            && In(req, [(0, "Options")] + [(17, "BodyPartPreference"), (17, "Type")])
               == (if o.bodyPartPreviewBytes > 0 then [[0x31]] else [])
            && In(req, [(0, "Options")] + [(17, "BodyPartPreference"), (17, "TruncationSize")])
               == (if o.bodyPartPreviewBytes > 0 then [Itoa(o.bodyPartPreviewBytes)] else [])
            && In(req, [(0, "Options")] + [(24, "RightsManagementSupport")]) == (if o.rightsManagement then [[0x31]] else [])
  {
    hide Texts, Itoa, EmailOptionNodes, In;
    var req := Sync(folder, key, Email(EmailDefaults(o)));
    OptionLeaf(req, (0, "FilterType"));
    OptionLeaf(req, (0, "MIMESupport"));
    OptionLeaf(req, (0, "MIMETruncation"));
    OptionLeaf(req, (24, "RightsManagementSupport"));
    OptionPair(req, "BodyPreference", "Type");
    OptionPair(req, "BodyPreference", "TruncationSize");
    OptionPair(req, "BodyPartPreference", "Type");
    OptionPair(req, "BodyPartPreference", "TruncationSize");
  }

  lemma OptionLeaf(req: Request, at: (byte, string))
    requires req.Sync? && req.payload.Email? && at != (17, "BodyPreference") && at != (17, "BodyPartPreference")
    ensures var o := req.payload.options;
            In(req, [(0, "Options")] + [at])
            == When(at == (0, "FilterType"), Itoa(o.dateFilter))
            + When(o.mimeSupport > 0 && at == (0, "MIMESupport"), Itoa(o.mimeSupport))
            + When(o.mimeTruncation > 0 && at == (0, "MIMETruncation"), Itoa(o.mimeTruncation))
            + When(o.rightsManagement && at == (24, "RightsManagementSupport"), ONE)
  {
    hide Texts, Itoa, EmailOptionNodes, In;
    var path: Path := [at];
    SingleStep(at, (0, "FilterType"));
    SingleStep(at, (0, "MIMESupport"));
    SingleStep(at, (0, "MIMETruncation"));
    SingleStep(at, (24, "RightsManagementSupport"));
    SingleStep(at, (17, "BodyPreference"));
    SingleStep(at, (17, "BodyPartPreference"));
    InOptions(req, path);
    EmailOptionsAt(req.payload.options, path);
  }

  lemma OptionPair(req: Request, group: string, leaf: string)
    requires req.Sync? && req.payload.Email?
    ensures var o := req.payload.options;
            In(req, [(0, "Options")] + [(17, group), (17, leaf)])
            == (When(group == "BodyPreference" && leaf == "Type", Itoa(o.bodyType))
             + When(group == "BodyPreference" && leaf == "TruncationSize", Itoa(o.bodyTruncationSize)))
            + (When(o.bodyPartPreviewBytes > 0 && group == "BodyPartPreference" && leaf == "Type", ONE)
               + When(o.bodyPartPreviewBytes > 0 && group == "BodyPartPreference" && leaf == "TruncationSize",
                      Itoa(o.bodyPartPreviewBytes)))
  {
    hide Texts, Itoa, EmailOptionNodes, In;
    var path: Path := [(17, group), (17, leaf)];
    InOptions(req, path);
    EmailOptionsAt(req.payload.options, path);
    PairStep(group, leaf, "BodyPreference", "Type");
    PairStep(group, leaf, "BodyPreference", "TruncationSize");
    PairStep(group, leaf, "BodyPartPreference", "Type");
    PairStep(group, leaf, "BodyPartPreference", "TruncationSize");
  }

  lemma PairStep(a: string, b: string, c: string, d: string)
    ensures [(17 as byte, a), (17, b)] == [(17 as byte, c), (17, d)] <==> a == c && b == d
  {
    var p: Path, q: Path := [(17, a), (17, b)], [(17, c), (17, d)];
    if p == q { assert p[0] == q[0] && p[1] == q[1]; }
  }

  /** The request of SyncCalendar. */
  lemma CalendarRequestIsFound(folder: Bytes, key: Key, window: int64, filter: int64)
    ensures var req := Sync(folder, key, Calendar(window, filter));
            && In(req, [(0, "SyncKey")]) == [key] && In(req, [(0, "CollectionId")]) == [folder]
            && In(req, [(0, "DeletesAsMoves")]) == In(req, [(0, "GetChanges")]) == [[0x31]]
            && In(req, [(0, "WindowSize")]) == [Itoa(window)]
            && In(req, [(0, "Options"), (0, "FilterType")]) == [Itoa(filter)]
  {
    hide Texts, TextsAt, Itoa;
    CalendarAt(folder, key, window, filter, [(0, "SyncKey")]);
    CalendarAt(folder, key, window, filter, [(0, "CollectionId")]);
    CalendarAt(folder, key, window, filter, [(0, "DeletesAsMoves")]);
    CalendarAt(folder, key, window, filter, [(0, "GetChanges")]);
    CalendarAt(folder, key, window, filter, [(0, "WindowSize")]);
    CalendarAt(folder, key, window, filter, [(0, "Options"), (0, "FilterType")]);
  }

  lemma CalendarAt(folder: Bytes, key: Key, window: int64, filter: int64, path: Path)
    requires path != [] && path != [(0, "Options")]
    ensures In(Sync(folder, key, Calendar(window, filter)), path)
         == When(path == [(0, "SyncKey")], key) + When(path == [(0, "CollectionId")], folder)
            + (When(path == [(0, "DeletesAsMoves")], ONE) + When(path == [(0, "GetChanges")], ONE)
               + When(path == [(0, "WindowSize")], Itoa(window))
               + When(path == [(0, "Options"), (0, "FilterType")], Itoa(filter)))
  {
    hide Texts, TextsAt, Fetch, Itoa;
    var leaf := [TextLeaf(0, "FilterType", Itoa(filter))];
    var options := [E(0, "Options", leaf)];
    InCollection(Sync(folder, key, Calendar(window, filter)), path);
    FetchAt(Itoa(window), path);
    TextsConcat(Fetch(Itoa(window)), options, path);
    if |path| > 1 {
      BranchTexts(0, "Options", leaf, path);
      TextLeafAt(0, "FilterType", Itoa(filter), path[1..]);
      assert path == [path[0]] + path[1..];
    } else {
      ShortBranch(0, "Options", leaf, path);
    }
  }

  lemma {:induction false} ShortBranch(page: byte, name: string, children: seq<Node>, path: Path)
    requires |path| == 1 && path != [(page, name)]
    ensures Texts([E(page, name, children)], path) == []
  {
    TextsOne(E(page, name, children), path);
  }

  /** The request of SyncContacts, SyncTasks and SyncNotes, whose window is 100. */
  lemma GenericRequestIsFound(folder: Bytes, key: Key)
    ensures var req := Sync(folder, key, Generic);
            && In(req, [(0, "SyncKey")]) == [key] && In(req, [(0, "CollectionId")]) == [folder]
            && In(req, [(0, "DeletesAsMoves")]) == In(req, [(0, "GetChanges")]) == [[0x31]]
            && In(req, [(0, "WindowSize")]) == [[0x31, 0x30, 0x30]]
  {
    hide Texts, TextsAt;
    assert Ascii("100") == [0x31, 0x30, 0x30];
    GenericAt(folder, key, [(0, "SyncKey")]);
    GenericAt(folder, key, [(0, "CollectionId")]);
    GenericAt(folder, key, [(0, "DeletesAsMoves")]);
    GenericAt(folder, key, [(0, "GetChanges")]);
    GenericAt(folder, key, [(0, "WindowSize")]);
  }

  lemma GenericAt(folder: Bytes, key: Key, path: Path)
    requires path != []
    ensures In(Sync(folder, key, Generic), path)
         == When(path == [(0, "SyncKey")], key) + When(path == [(0, "CollectionId")], folder)
            + (When(path == [(0, "DeletesAsMoves")], ONE) + When(path == [(0, "GetChanges")], ONE)
               + When(path == [(0, "WindowSize")], Ascii("100")))
  {
    hide Texts, TextsAt, Fetch, Ascii;
    InCollection(Sync(folder, key, Generic), path);
    FetchAt(Ascii("100"), path);
  }

  // ---- Mutating -----------------------------------------------------------

  /** What a server finds in the collection of a mutation: the key, the folder, DeletesAsMoves for email changes only, no
      request for changes, and the commands with everything below them. */
  lemma {:induction false} MutationIsFound(folder: Bytes, key: Key, cmds: Element, below: Path, changes: bool)
    requires cmds.page == 0 && cmds.name == "Commands" && below != []
    ensures var req := Sync(folder, key, if changes then Changes(cmds) else Commands(cmds));
            && In(req, [(0, "SyncKey")]) == [key] && In(req, [(0, "CollectionId")]) == [folder]
            && In(req, [(0, "DeletesAsMoves")]) == (if changes then [[0x31]] else []) && In(req, [(0, "GetChanges")]) == []
            && In(req, [(0, "Commands")] + below) == Texts(cmds.children, below)
  {
    hide Texts, TextsAt;
    MutationAt(folder, key, cmds, changes, [(0, "SyncKey")]);
    MutationAt(folder, key, cmds, changes, [(0, "CollectionId")]);
    MutationAt(folder, key, cmds, changes, [(0, "DeletesAsMoves")]);
    MutationAt(folder, key, cmds, changes, [(0, "GetChanges")]);
    var path: Path := [(0, "Commands")] + below;
    assert path[0] == (0, "Commands") && path[1..] == below && |path| > 1;
    MutationAt(folder, key, cmds, changes, path);
  }

  lemma MutationAt(folder: Bytes, key: Key, cmds: Element, changes: bool, path: Path)
    requires cmds.page == 0 && cmds.name == "Commands" && path != [] && path != [(0, "Commands")]
    ensures In(Sync(folder, key, if changes then Changes(cmds) else Commands(cmds)), path)
         == When(path == [(0, "SyncKey")], key) + When(path == [(0, "CollectionId")], folder)
            + (When(changes && path == [(0, "DeletesAsMoves")], ONE)
               + (if path[0] == (0, "Commands") then Texts(cmds.children, path[1..]) else []))
  {
    hide Texts, TextsAt, Itoa;
    OneIsOne();
    var first, second := Optional(changes, TextLeaf(0, "DeletesAsMoves", ONE)), [Elem(cmds)];
    var payload := if changes then Changes(cmds) else Commands(cmds);
    InCollection(Sync(folder, key, payload), path);
    OptionalAt(changes, 0, "DeletesAsMoves", ONE, path);
    assert Details(payload) == first + second;
    TextsConcat(first, second, path);
    assert Elem(cmds) == E(0, "Commands", cmds.children);
    if |path| > 1 { BranchTexts(0, "Commands", cmds.children, path); } else { ShortBranch(0, "Commands", cmds.children, path); }
  }

  /** The command of an added item: its client id, and the data below it. */
  lemma {:induction false} AddIsFound(clientId: Bytes, app: Element, below: Path)
    requires app.page == 0 && app.name == "ApplicationData" && below != []
    ensures AddCommand(clientId, app).page == 0 && AddCommand(clientId, app).name == "Commands"
    ensures Texts(AddCommand(clientId, app).children, [(0, "Add"), (0, "ClientId")]) == [clientId]
    ensures Texts(AddCommand(clientId, app).children, [(0, "Add"), (0, "ApplicationData")] + below) == Texts(app.children, below)
  {
    hide Texts, TextsAt;
    var first, second := [TextLeaf(0, "ClientId", clientId)], [Elem(app)];
    var id: Path := [(0, "Add"), (0, "ClientId")];
    var data: Path := [(0, "Add"), (0, "ApplicationData")] + below;
    assert first + second == [TextLeaf(0, "ClientId", clientId), Elem(app)] && Elem(app) == E(0, "ApplicationData", app.children);
    assert id[1..] == [(0, "ClientId")] && data[1..][1..] == below && |data| > 2;
    BranchTexts(0, "Add", first + second, id);
    BranchTexts(0, "Add", first + second, data);
    TextsConcat(first, second, id[1..]);
    TextsConcat(first, second, data[1..]);
    TextLeafAt(0, "ClientId", clientId, id[1..]);
    TextLeafAt(0, "ClientId", clientId, data[1..]);
    ShortBranch(0, "ApplicationData", app.children, id[1..]);
    BranchTexts(0, "ApplicationData", app.children, data[1..]);
  }

  // ---- Provisioning and folders -------------------------------------------

  const POLICY: Path := [(14, "Provision"), (14, "Policies"), (14, "Policy")]

  /** The first phase names the policy type; the acknowledgement adds the key and Status 1. */
  lemma ProvisionIsFound(key: Key, ack: bool)
    ensures var req := Provision(key, ack);
            && At(req, POLICY + [(14, "PolicyType")]) == [Ascii("MS-EAS-Provisioning-WBXML")]
            && At(req, POLICY + [(14, "PolicyKey")]) == (if ack then [key] else [])
            && At(req, POLICY + [(14, "Status")]) == (if ack then [[0x31]] else [])
  {
    hide Texts, TextsAt, Ascii;
    PolicyAt(key, ack, (14, "PolicyType"));
    PolicyAt(key, ack, (14, "PolicyKey"));
    PolicyAt(key, ack, (14, "Status"));
  }

  lemma PolicyAt(key: Key, ack: bool, at: (byte, string))
    ensures At(Provision(key, ack), POLICY + [at])
         == When(at == (14, "PolicyType"), Ascii("MS-EAS-Provisioning-WBXML"))
            + if ack then When(at == (14, "PolicyKey"), key) + When(at == (14, "Status"), ONE) else []
  {
    hide Texts, TextsAt, Ascii, Itoa;
    OneIsOne();
    var kind := [TextLeaf(14, "PolicyType", Ascii("MS-EAS-Provisioning-WBXML"))];
    var rest: seq<Node> := if ack then [TextLeaf(14, "PolicyKey", key), TextLeaf(14, "Status", ONE)] else [];
    var path, leaf: Path := POLICY + [at], [at];
    assert path[1..][1..][1..] == leaf && |path| == 4;
    BranchTexts(14, "Provision", [E(14, "Policies", [E(14, "Policy", kind + rest)])], path);
    BranchTexts(14, "Policies", [E(14, "Policy", kind + rest)], path[1..]);
    BranchTexts(14, "Policy", kind + rest, path[1..][1..]);
    TextsConcat(kind, rest, leaf);
    TextLeafAt(14, "PolicyType", Ascii("MS-EAS-Provisioning-WBXML"), leaf);
    TwoLeavesAt(14, "PolicyKey", key, "Status", ONE, leaf);
    NoTexts(leaf);
    SingleStep(at, (14, "PolicyType"));
    SingleStep(at, (14, "PolicyKey"));
    SingleStep(at, (14, "Status"));
  }

  /** A FolderSync holds the hierarchy key. */
  lemma FolderSyncIsFound(key: Key)
    ensures At(Request.FolderSync(key), [(7, "FolderSync"), (7, "SyncKey")]) == [key]
  {
    var path: Path := [(7, "FolderSync"), (7, "SyncKey")];
    BranchTexts(7, "FolderSync", [TextLeaf(7, "SyncKey", key)], path);
    TextLeafAt(7, "SyncKey", key, path[1..]);
  }

  // ---- The order of elements ----------------------------------------------

  /** The names of the elements in a list. */
  function Names(nodes: seq<Node>): seq<string> {
    if nodes == [] then [] else (if nodes[0].Elem? then [nodes[0].e.name] else []) + Names(nodes[1..])
  }

  lemma {:induction false} NamesConcat(a: seq<Node>, b: seq<Node>)
    ensures Names(a + b) == Names(a) + Names(b)
    decreases a
  {
    if a == [] {
      assert a + b == b;
    } else {
      assert (a + b)[1..] == a[1..] + b;
      NamesConcat(a[1..], b);
    }
  }

  lemma OneName(c: bool, page: byte, name: string, children: seq<Node>)
    ensures Names([E(page, name, children)]) == [name]
    ensures Names(Optional(c, E(page, name, children))) == if c then [name] else []
  {
    assert [E(page, name, children)][1..] == [];
  }

  function Option(c: bool, name: string): seq<string> { if c then [name] else [] }

  /** The elements of a collection come in the order the protocol's schema asks for: the key first, the commands last. */
  lemma CollectionIsOrdered(folder: Bytes, key: Key, p: Payload)
    ensures var nodes := [TextLeaf(0, "SyncKey", key), TextLeaf(0, "CollectionId", folder)] + Details(p);
            var fetch := ["SyncKey", "CollectionId", "DeletesAsMoves", "GetChanges", "WindowSize"];
            Names(nodes)
            == match p
               case Email(o) => fetch + Option(o.conversationMode, "ConversationMode") + ["Options"]
               case Calendar(_, _) => fetch + ["Options"]
               case Generic => fetch
               case Commands(cmds) => ["SyncKey", "CollectionId", cmds.name]
               case Changes(cmds) => ["SyncKey", "CollectionId", "DeletesAsMoves", cmds.name]
  {
    hide Names, Details;
    var head := [TextLeaf(0, "SyncKey", key), TextLeaf(0, "CollectionId", folder)];
    NamesConcat(head, Details(p));
    TwoNames(head[0].e, head[1].e);
    DetailsAreOrdered(p);
  }

  lemma TwoNames(a: Element, b: Element)
    ensures Names([Elem(a), Elem(b)]) == [a.name, b.name]
  {
    var nodes := [Elem(a), Elem(b)];
    OneName(true, b.page, b.name, b.children);
    assert nodes[1..] == [Elem(b)];
  }

  lemma DetailsAreOrdered(p: Payload)
    ensures var fetch := ["DeletesAsMoves", "GetChanges", "WindowSize"];
            Names(Details(p))
            == match p
               case Email(o) => fetch + Option(o.conversationMode, "ConversationMode") + ["Options"]
               case Calendar(_, _) => fetch + ["Options"]
               case Generic => fetch
               case Commands(cmds) => [cmds.name]
               case Changes(cmds) => ["DeletesAsMoves", cmds.name]
  {
    hide Names, Fetch, EmailOptionNodes, Itoa;
    match p
    case Email(o) =>
      var mode := Optional(o.conversationMode, TextLeaf(0, "ConversationMode", Itoa(1)));
      var options := [E(0, "Options", EmailOptionNodes(o))];
      FetchIsOrdered(Itoa(o.windowSize));
      NamesConcat(Fetch(Itoa(o.windowSize)) + mode, options);
      NamesConcat(Fetch(Itoa(o.windowSize)), mode);
      OneName(o.conversationMode, 0, "ConversationMode", [Text(Itoa(1))]);
      OneName(true, 0, "Options", EmailOptionNodes(o));
    case Calendar(window, filter) =>
      var options := [E(0, "Options", [TextLeaf(0, "FilterType", Itoa(filter))])];
      FetchIsOrdered(Itoa(window));
      NamesConcat(Fetch(Itoa(window)), options);
      OneName(true, 0, "Options", [TextLeaf(0, "FilterType", Itoa(filter))]);
    case Generic => FetchIsOrdered(Ascii("100"));
    case Commands(cmds) => OneName(true, cmds.page, cmds.name, cmds.children);
    case Changes(cmds) => TwoNames(TextLeaf(0, "DeletesAsMoves", Itoa(1)).e, cmds);
  }

  lemma FetchIsOrdered(window: Bytes)
    ensures Names(Fetch(window)) == ["DeletesAsMoves", "GetChanges", "WindowSize"]
  {
    hide Itoa;
    var nodes := Fetch(window);
    assert nodes == [nodes[0]] + [nodes[1], nodes[2]];
    NamesConcat([nodes[0]], [nodes[1], nodes[2]]);
    OneName(true, nodes[0].e.page, nodes[0].e.name, nodes[0].e.children);
    TwoNames(nodes[1].e, nodes[2].e);
  }

  /** And so do the options of an email fetch. */
  lemma OptionsAreOrdered(o: EmailOptions)
    ensures Names(EmailOptionNodes(o))
         == ["FilterType"] + Option(o.mimeSupport > 0, "MIMESupport") + Option(o.mimeTruncation > 0, "MIMETruncation")
            + ["BodyPreference"] + Option(o.bodyPartPreviewBytes > 0, "BodyPartPreference")
            + Option(o.rightsManagement, "RightsManagementSupport")
  {
    hide Names, Itoa;
    var body := [TextLeaf(17, "Type", Itoa(o.bodyType)), TextLeaf(17, "TruncationSize", Itoa(o.bodyTruncationSize))];
    var part := [TextLeaf(17, "Type", Itoa(1)), TextLeaf(17, "TruncationSize", Itoa(o.bodyPartPreviewBytes))];
    var a := [TextLeaf(0, "FilterType", Itoa(o.dateFilter))];
    var b := Optional(o.mimeSupport > 0, TextLeaf(0, "MIMESupport", Itoa(o.mimeSupport)));
    var c := Optional(o.mimeTruncation > 0, TextLeaf(0, "MIMETruncation", Itoa(o.mimeTruncation)));
    var d := [E(17, "BodyPreference", body)];
    var e := Optional(o.bodyPartPreviewBytes > 0, E(17, "BodyPartPreference", part));
    var f := Optional(o.rightsManagement, TextLeaf(24, "RightsManagementSupport", Itoa(1)));
    NamesConcat(a + b + c + d + e, f);
    NamesConcat(a + b + c + d, e);
    NamesConcat(a + b + c, d);
    NamesConcat(a + b, c);
    NamesConcat(a, b);
    OneName(true, 0, "FilterType", [Text(Itoa(o.dateFilter))]);
    OneName(o.mimeSupport > 0, 0, "MIMESupport", [Text(Itoa(o.mimeSupport))]);
    OneName(o.mimeTruncation > 0, 0, "MIMETruncation", [Text(Itoa(o.mimeTruncation))]);
    OneName(true, 17, "BodyPreference", body);
    OneName(o.bodyPartPreviewBytes > 0, 17, "BodyPartPreference", part);
    OneName(o.rightsManagement, 24, "RightsManagementSupport", [Text(Itoa(1))]);
  }

  /** A Sync is one collection in one list, after the wait or heartbeat of an email fetch if there is one. */
  lemma SyncIsOrdered(folder: Bytes, key: Key, p: Payload)
    ensures var nodes := RootOf(Sync(folder, key, p)).children;
            && Names(nodes) == (if p.Email? && p.options.waitMinutes > 0 then ["Wait"]
                                else Option(p.Email? && p.options.heartbeatSeconds > 0, "HeartbeatInterval")) + ["Collections"]
            && nodes[|nodes| - 1]
               == E(0, "Collections", [E(0, "Collection",
                                       [TextLeaf(0, "SyncKey", key), TextLeaf(0, "CollectionId", folder)] + Details(p))])
  {
    hide Names, Itoa, Details;
    var inner := [E(0, "Collection", [TextLeaf(0, "SyncKey", key), TextLeaf(0, "CollectionId", folder)] + Details(p))];
    NamesConcat(Preamble(p), [E(0, "Collections", inner)]);
    OneName(true, 0, "Collections", inner);
    if p.Email? && p.options.waitMinutes > 0 {
      OneName(true, 0, "Wait", [Text(Itoa(p.options.waitMinutes))]);
    } else if p.Email? {
      OneName(p.options.heartbeatSeconds > 0, 0, "HeartbeatInterval", [Text(Itoa(p.options.heartbeatSeconds))]);
    } else {
      assert Names([]) == [] by { NoNames(); }
    }
  }

  lemma NoNames()
    ensures Names([]) == []
  {
  }

  /** The names the commands go by in the URL, the first key, and the folder id of the hierarchy. */
  lemma Literals()
    ensures forall key, ack :: Command(Provision(key, ack)) == "Provision"
    ensures forall key :: Command(Request.FolderSync(key)) == "FolderSync"
    ensures forall folder, key, payload :: Command(Sync(folder, key, payload)) == "Sync"
    ensures NO_KEY == [0x30]
    ensures ROOT_FOLDER == [0x5F, 0x5F, 0x72, 0x6F, 0x6F, 0x74, 0x5F, 0x5F]
  {
  }
}
