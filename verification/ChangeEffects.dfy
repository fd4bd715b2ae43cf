/** Email changes as a server understands them: what each change asks for is what its command says. */
module ChangeEffects {
  import opened Basics
  import opened Tree
  import opened Protocol
  import opened Paths
  import opened RequestTrees
  import Decimal

  /** What a change does on the server: the message goes, or some of its fields are set to a text. */
  datatype Effect = Deletes(id: Bytes) | Sets(id: Bytes, read: Option<Bytes>, flag: Option<Bytes>)

  /** What the caller means. A change without an id, or of nothing, means nothing; a FlagStatus overrides Flagged. */
  function Meaning(ch: EmailChange): seq<Effect> {
    if ch.serverId == [] then []
    else if ch.delete then [Deletes(ch.serverId)]
    else if ch.read.None? && ch.flagged.None? && ch.flagStatus.None? then []
    else [Sets(ch.serverId, ReadText(ch.read), FlagText(ch.flagStatus, ch.flagged))]
  }

  /** "1" for read, "0" for unread. */
  function ReadText(read: Option<bool>): Option<Bytes> {
    match read
    case None => None
    case Some(b) => Some(if b then [0x31] else [0x30])
  }

  /** The given code, or else "2" for flagged and "0" for not flagged. */
  function FlagText(code: Option<Decimal.int64>, flagged: Option<bool>): Option<Bytes> {
    match code
    case Some(c) => Some(Decimal.Itoa(c))
    case None => match flagged case Some(b) => Some(if b then [0x32] else [0x30]) case None => None
  }

  function Meanings(changes: seq<EmailChange>): seq<Effect> {
    if changes == [] then [] else Meaning(changes[0]) + Meanings(changes[1..])
  }

  function Only(found: seq<Bytes>): Option<Bytes> { if |found| == 1 then Some(found[0]) else None }

  /** What a server reads in one command. */
  function Understood(n: Node): seq<Effect> {
    if !n.Elem? || n.e.page != 0 then []
    else
      match Only(Texts(n.e.children, [(0, "ServerId")]))
      case None => []
      case Some(id) =>
        if n.e.name == "Delete" then [Deletes(id)]
        else if n.e.name == "Change" then
          [Sets(id, Only(Texts(n.e.children, [(0, "ApplicationData"), (2, "Read")])),
                Only(Texts(n.e.children, [(0, "ApplicationData"), (2, "Flag"), (2, "FlagStatus")])))]
        else []
  }

  function UnderstoodAll(nodes: seq<Node>): seq<Effect> {
    if nodes == [] then [] else Understood(nodes[0]) + UnderstoodAll(nodes[1..])
  }

  /** The nodes of the fields, at the paths of the two that can be set. */
  lemma FieldsAt(ch: EmailChange)
    ensures Texts(FieldNodes(ch), [(2, "Read")]) == (match ReadText(ch.read) case Some(t) => [t] case None => [])
    ensures Texts(FieldNodes(ch), [(2, "Flag"), (2, "FlagStatus")])
         == match FlagText(ch.flagStatus, ch.flagged) case Some(t) => [t] case None => []
    ensures FieldNodes(ch) == [] <==> ch.read.None? && ch.flagged.None? && ch.flagStatus.None?
  {
    hide Texts, TextsAt;
    SmallNumerals();
    var read: seq<Node> := match ReadText(ch.read) case Some(t) => [TextLeaf(2, "Read", t)] case None => [];
    var flag: seq<Node> := match FlagText(ch.flagStatus, ch.flagged)
                           case Some(t) => [E(2, "Flag", [TextLeaf(2, "FlagStatus", t)])]
                           case None => [];
    assert FieldNodes(ch) == read + flag;
    FieldAt(read, flag, [(2, "Read")]);
    FieldAt(read, flag, [(2, "Flag"), (2, "FlagStatus")]);
    if ReadText(ch.read).Some? {
      TextLeafAt(2, "Read", ReadText(ch.read).value, [(2, "Read")]);
      TextLeafAt(2, "Read", ReadText(ch.read).value, [(2, "Flag"), (2, "FlagStatus")]);
    }
    if FlagText(ch.flagStatus, ch.flagged).Some? {
      var t := FlagText(ch.flagStatus, ch.flagged).value;
      var path: Path := [(2, "Flag"), (2, "FlagStatus")];
      ShortBranch(2, "Flag", [TextLeaf(2, "FlagStatus", t)], [(2, "Read")]);
      BranchTexts(2, "Flag", [TextLeaf(2, "FlagStatus", t)], path);
      assert path[1..] == [(2, "FlagStatus")];
      TextLeafAt(2, "FlagStatus", t, [(2, "FlagStatus")]);
    }
  }

  lemma {:induction false} FieldAt(read: seq<Node>, flag: seq<Node>, path: Path)
    ensures Texts(read + flag, path) == Texts(read, path) + Texts(flag, path)
    ensures Texts([], path) == []
  {
    TextsConcat(read, flag, path);
  }

  lemma SmallNumerals()
    ensures Decimal.Itoa(0) == [0x30] && Decimal.Itoa(1) == [0x31] && Decimal.Itoa(2) == [0x32]
  {
    assert Decimal.Digits(1) == [0x31] && Decimal.Digits(2) == [0x32];
  }

  /** One change becomes as many commands as it has effects, and they are understood as these. */
  lemma ChangeIsUnderstood(ch: EmailChange)
    ensures UnderstoodAll(ChangeNodes(ch)) == Meaning(ch) && |ChangeNodes(ch)| == |Meaning(ch)|
  {
    hide Texts, TextsAt, FieldNodes;
    FieldsAt(ch);
    var id := [TextLeaf(0, "ServerId", ch.serverId)];
    var data := [E(0, "ApplicationData", FieldNodes(ch))];
    TextLeafAt(0, "ServerId", ch.serverId, [(0, "ServerId")]);
    if ch.serverId != [] && !ch.delete && FieldNodes(ch) != [] {
      var read: Path := [(0, "ApplicationData"), (2, "Read")];
      var flag: Path := [(0, "ApplicationData"), (2, "Flag"), (2, "FlagStatus")];
      assert read[1..] == [(2, "Read")] && flag[1..] == [(2, "Flag"), (2, "FlagStatus")];
      TextsConcat(id, data, [(0, "ServerId")]);
      TextsConcat(id, data, read);
      TextsConcat(id, data, flag);
      TextLeafAt(0, "ServerId", ch.serverId, read);
      TextLeafAt(0, "ServerId", ch.serverId, flag);
      ShortBranch(0, "ApplicationData", FieldNodes(ch), [(0, "ServerId")]);
      BranchTexts(0, "ApplicationData", FieldNodes(ch), read);
      BranchTexts(0, "ApplicationData", FieldNodes(ch), flag);
      assert id + data == [id[0], data[0]];
      assert ChangeNodes(ch) == [E(0, "Change", id + data)];
    }
    if ChangeNodes(ch) != [] { UnderstoodOne(ChangeNodes(ch)[0]); }
  }

  lemma UnderstoodOne(n: Node)
    ensures UnderstoodAll([n]) == Understood(n)
  {
    assert [n][1..] == [];
  }

  lemma {:induction false} UnderstoodConcat(a: seq<Node>, b: seq<Node>)
    ensures UnderstoodAll(a + b) == UnderstoodAll(a) + UnderstoodAll(b)
    decreases a
  {
    hide Understood;
    if a == [] {
      assert a + b == b;
    } else {
      assert (a + b)[1..] == a[1..] + b;
      UnderstoodConcat(a[1..], b);
    }
  }

  /** A whole list of changes is understood as it is meant, in order, with one command for each effect and none besides. */
  lemma {:induction false} ChangesAreUnderstood(changes: seq<EmailChange>)
    ensures UnderstoodAll(AllChangeNodes(changes)) == Meanings(changes)
    ensures |AllChangeNodes(changes)| == |Meanings(changes)|
    decreases changes
  {
    hide Understood, ChangeNodes, Meaning;
    if changes != [] {
      ChangeIsUnderstood(changes[0]);
      ChangesAreUnderstood(changes[1..]);
      UnderstoodConcat(ChangeNodes(changes[0]), AllChangeNodes(changes[1..]));
    }
  }
}
