/** The decoder as a function of the unread bytes and the active page, and its equivalence with the grammar. */
module Parser {
  import opened Basics
  import opened Tree
  import opened Registry
  import opened Grammar
  import MbUint

  datatype Error =
    | UnexpectedEof
    | UnexpectedEnd
    | AttributesUnsupported(tag: byte)
    | UnknownTag(id: byte, page: byte)
    | IntegerTooLong

  datatype Parsed<+T> = Ok(value: T, page: byte, rest: Bytes) | Err(error: Error)

  function FromMb(e: MbUint.Error): Error {
    match e
    case UnexpectedEof => UnexpectedEof
    case TooLong => IntegerTooLong
  }

  // ---- Tokens -------------------------------------------------------------

  /** The bytes before the first NUL, and what follows it. */
  function CStr(b: Bytes): (r: Option<(Bytes, Bytes)>)
    ensures r.Some? ==> b == r.value.0 + [0] + r.value.1 && NulFree(r.value.0)
  {
    if b == [] then None
    else if b[0] == 0 then Some(([], b[1..]))
    else
      match CStr(b[1..])
      case None => None
      case Some((s, rest)) => Some(([b[0]] + s, rest))
  }

  lemma {:induction false} CStrReads(s: Bytes, rest: Bytes)
    requires NulFree(s)
    ensures CStr(s + [0] + rest) == Some((s, rest))
    decreases s
  {
    var b := s + [0] + rest;
    if s == [] {
      assert b[1..] == rest;
    } else {
      assert b[1..] == s[1..] + [0] + rest;
      CStrReads(s[1..], rest);
      assert [b[0]] + s[1..] == s;
    }
  }

  /** The length and body of an opaque blob. */
  function OpaqueBody(b: Bytes): (r: Parsed<Bytes>)
    ensures r.Ok? ==> |r.rest| < |b|
  {
    match MbUint.ReadFrom(b)
    case Err(e) => Err(FromMb(e))
    case Ok(n, rest) => if n > |rest| then Err(UnexpectedEof) else Ok(rest[..n], 0, rest[n..])
  }

  // ---- Elements -----------------------------------------------------------

  function ReadElement(reg: Pages, page: byte, b: Bytes): (r: Parsed<Element>)
    ensures r.Ok? ==> |r.rest| < |b|
    decreases |b|, 0
  {
    if b == [] then Err(UnexpectedEof)
    else if b[0] == END then Err(UnexpectedEnd)
    else if HasAttributes(b[0]) then Err(AttributesUnsupported(b[0]))
    else
      match reg.TagName(page, Identity(b[0]))
      case None => Err(UnknownTag(Identity(b[0]), page))
      case Some(name) =>
        if !HasContent(b[0]) then Ok(Element(page, name, []), page, b[1..])
        else
          match ReadContent(reg, page, b[1..])
          case Err(e) => Err(e)
          case Ok(children, after, rest) => Ok(Element(page, name, children), after, rest)
  }

  /** The children up to and including END. */
  function ReadContent(reg: Pages, page: byte, b: Bytes): (r: Parsed<seq<Node>>)
    ensures r.Ok? ==> |r.rest| < |b|
    decreases |b|, 1
  {
    if b == [] then Err(UnexpectedEof)
    else if b[0] == END then Ok([], page, b[1..])
    else if b[0] == SWITCH_PAGE then
      if |b| < 2 then Err(UnexpectedEof) else ReadContent(reg, b[1], b[2..])
    else if b[0] == STR_I then
      match CStr(b[1..])
      case None => Err(UnexpectedEof)
      case Some((s, rest)) => Prepend(Text(s), ReadContent(reg, page, rest))
    else if b[0] == OPAQUE then
      match OpaqueBody(b[1..])
      case Err(e) => Err(e)
      case Ok(body, _, rest) => Prepend(Opaque(body), ReadContent(reg, page, rest))
    else
      match ReadElement(reg, page, b)
      case Err(e) => Err(e)
      case Ok(child, after, rest) => Prepend(Elem(child), ReadContent(reg, after, rest))
  }

  function Prepend(n: Node, r: Parsed<seq<Node>>): Parsed<seq<Node>> {
    match r
    case Err(e) => Err(e)
    case Ok(nodes, page, rest) => Ok([n] + nodes, page, rest)
  }

  // ---- Completeness: every derivation is read back ------------------------

  lemma {:induction false} ReadsDerivation(reg: Pages, c: Cst, page: byte, e: Element, rest: Bytes)
    requires reg.WellFormed() && Derives(reg, c, page, e)
    ensures ReadElement(reg, page, Yield(c) + rest) == Ok(e, PageAfter(c, page), rest)
    decreases c, 1
  {
    hide ReadContent, DerivesItem, YieldItem;
    TagsAreNotControl(reg, page, c.tag);
    var b := Yield(c) + rest;
    if HasContent(c.tag) {
      ReadsItems(reg, c.items, page, e.children, rest);
      assert b[1..] == YieldItems(c.items) + [END] + rest;
    } else {
      assert b[1..] == rest;
    }
  }

  /** What content spelled by these items is read as, followed by `rest`. */
  ghost predicate ReadsBack(reg: Pages, items: seq<Item>, page: byte, nodes: seq<Node>, rest: Bytes) {
    ReadContent(reg, page, YieldItems(items) + [END] + rest) == Ok(nodes, PageAfterItems(items, page), rest)
  }

  lemma {:induction false} ReadsItems(reg: Pages, items: seq<Item>, page: byte, nodes: seq<Node>, rest: Bytes)
    requires reg.WellFormed() && DerivesAll(reg, items, page, nodes)
    ensures ReadsBack(reg, items, page, nodes, rest)
    decreases items, 0
  {
    hide ReadsBack, DerivesItem, YieldItems, PageAfterItem;
    if items == [] {
      ReadsEnd(reg, page, rest);
    } else if items[0].Switch? {
      ReadsItems(reg, items[1..], items[0].page, nodes, rest);
      ReadsSwitch(reg, items[0], items[1..], page, nodes, rest);
      assert items == [items[0]] + items[1..];
    } else {
      var head, tail, after := items[0], items[1..], PageAfterItem(items[0], page);
      var more := YieldItems(tail) + [END] + rest;
      ReadsItems(reg, tail, after, nodes[1..], rest);
      if head.Child? {
        var e := DerivedChild(reg, head, page, nodes[0]);
        assert head.c < head;
        ReadsDerivation(reg, head.c, page, e, more);
        ReadsChild(reg, page, head.c, e, more);
      } else {
        ReadsLeaf(reg, head, page, nodes[0], more);
      }
      ReadsCons(reg, head, tail, page, nodes[0], nodes[1..], rest);
      assert items == [head] + tail && nodes == [nodes[0]] + nodes[1..];
    }
  }

  lemma ReadsEnd(reg: Pages, page: byte, rest: Bytes)
    ensures ReadsBack(reg, [], page, [], rest)
  {
    assert (YieldItems([]) + [END] + rest)[1..] == rest;
  }

  lemma ReadsSwitch(reg: Pages, head: Item, tail: seq<Item>, page: byte, nodes: seq<Node>, rest: Bytes)
    requires head.Switch? && ReadsBack(reg, tail, head.page, nodes, rest)
    ensures ReadsBack(reg, [head] + tail, page, nodes, rest)
  {
    var items, more := [head] + tail, YieldItems(tail) + [END] + rest;
    assert items[0] == head && items[1..] == tail;
    assert YieldItems(items) == [SWITCH_PAGE, head.page] + YieldItems(tail);
    var b := YieldItems(items) + [END] + rest;
    assert b == [SWITCH_PAGE, head.page] + more;
    assert b[2..] == more;
  }

  /** The first item's bytes are read as its node, and what is read from there on is prepended to. */
  ghost predicate ReadsFirst(reg: Pages, head: Item, page: byte, n: Node, more: Bytes) {
    ReadContent(reg, page, YieldItem(head) + more) == Prepend(n, ReadContent(reg, PageAfterItem(head, page), more))
  }

  lemma {:induction false} ReadsCons(reg: Pages, head: Item, tail: seq<Item>, page: byte, n: Node, nodes: seq<Node>,
                                     rest: Bytes)
    requires ReadsFirst(reg, head, page, n, YieldItems(tail) + [END] + rest)
    requires ReadsBack(reg, tail, PageAfterItem(head, page), nodes, rest)
    ensures ReadsBack(reg, [head] + tail, page, [n] + nodes, rest)
  {
    hide ReadContent, YieldItem, PageAfterItem;
    var items := [head] + tail;
    assert items[0] == head && items[1..] == tail;
    assert YieldItems(items) + [END] + rest == YieldItem(head) + (YieldItems(tail) + [END] + rest);
  }

  lemma {:induction false} ReadsLeaf(reg: Pages, head: Item, page: byte, n: Node, more: Bytes)
    requires DerivesItem(reg, head, page, n) && !head.Child?
    ensures ReadsFirst(reg, head, page, n, more)
  {
    hide ReadContent;
    match head
    case Str(s) => ReadsStr(reg, page, s, more);
    case Blob(length, body) => ReadsBlob(reg, page, length, body, more);
  }

  lemma {:induction false} ReadsStr(reg: Pages, page: byte, s: Bytes, more: Bytes)
    requires NulFree(s)
    ensures ReadContent(reg, page, [STR_I] + s + [0] + more) == Prepend(Text(s), ReadContent(reg, page, more))
  {
    assert ([STR_I] + s + [0] + more)[1..] == s + [0] + more;
    CStrReads(s, more);
  }

  lemma {:induction false} ReadsBlob(reg: Pages, page: byte, length: Bytes, body: Bytes, more: Bytes)
    requires |body| < TWO_32 && MbUint.Denotes(length, |body|)
    ensures ReadContent(reg, page, [OPAQUE] + length + body + more) == Prepend(Opaque(body), ReadContent(reg, page, more))
  {
    assert ([OPAQUE] + length + body + more)[1..] == length + (body + more);
    ReadsOpaqueBody(length, body, more);
  }

  lemma DerivedChild(reg: Pages, head: Item, page: byte, n: Node) returns (e: Element)
    requires DerivesItem(reg, head, page, n) && head.Child?
    ensures n == Elem(e) && Derives(reg, head.c, page, e)
  {
    e := n.e;
  }

  lemma {:induction false} ReadsChild(reg: Pages, page: byte, c: Cst, e: Element, more: Bytes)
    requires reg.WellFormed() && Derives(reg, c, page, e)
    requires ReadElement(reg, page, Yield(c) + more) == Ok(e, PageAfter(c, page), more)
    ensures ReadsFirst(reg, Child(c), page, Elem(e), more)
  {
    TagsAreNotControl(reg, page, c.tag);
  }

  lemma ReadsOpaqueBody(length: Bytes, body: Bytes, more: Bytes)
    requires |body| < TWO_32 && MbUint.Denotes(length, |body|)
    ensures OpaqueBody(length + (body + more)) == Ok(body, 0, more)
  {
    var b := length + (body + more);
    assert b[..|length|] == length;
    MbUint.ReadIffForm(b, |body|, body + more);
    assert (body + more)[..|body|] == body && (body + more)[|body|..] == more;
  }

  // ---- Soundness: everything read has a derivation ------------------------

  lemma {:induction false} ReadHasDerivation(reg: Pages, page: byte, b: Bytes) returns (c: Cst)
    requires ReadElement(reg, page, b).Ok?
    ensures var r := ReadElement(reg, page, b);
            b == Yield(c) + r.rest && Derives(reg, c, page, r.value) && PageAfter(c, page) == r.page
    decreases |b|, 0
  {
    hide ReadContent, DerivesItem, YieldItem;
    if HasContent(b[0]) {
      var items := ContentHasDerivation(reg, page, b[1..]);
      c := Cst(b[0], items);
      assert b == [b[0]] + b[1..];
    } else {
      c := Cst(b[0], []);
      assert b == [b[0]] + b[1..];
    }
  }

  lemma {:induction false} ContentHasDerivation(reg: Pages, page: byte, b: Bytes) returns (items: seq<Item>)
    requires ReadContent(reg, page, b).Ok?
    ensures Spells(reg, items, page, b, ReadContent(reg, page, b))
    decreases |b|, 2
  {
    var r := ReadContent(reg, page, b);
    if b[0] == END {
      items := [];
      assert b == [END] + b[1..];
    } else if b[0] == SWITCH_PAGE {
      var tail := ContentHasDerivation(reg, b[1], b[2..]);
      items := SpellsSwitch(reg, tail, page, b);
    } else {
      var head, n, mid, rest := FirstItem(reg, page, b);
      var tail := ContentHasDerivation(reg, mid, rest);
      SpellsCons(reg, head, tail, page, rest, n, ReadContent(reg, mid, rest));
      items := [head] + tail;
    }
  }

  /** The first item of content that starts with neither END nor a page switch. */
  lemma {:induction false} FirstItem(reg: Pages, page: byte, b: Bytes) returns (head: Item, n: Node, mid: byte,
                                     rest: Bytes)
    requires ReadContent(reg, page, b).Ok? && b[0] != END && b[0] != SWITCH_PAGE
    ensures b == YieldItem(head) + rest && |rest| < |b|
    ensures DerivesItem(reg, head, page, n) && PageAfterItem(head, page) == mid
    ensures ReadContent(reg, page, b) == Prepend(n, ReadContent(reg, mid, rest))
    decreases |b|, 1
  {
    if b[0] == STR_I {
      var s := CStr(b[1..]).value.0;
      head, n, mid, rest := Str(s), Text(s), page, CStr(b[1..]).value.1;
      assert b == [STR_I] + b[1..];
    } else if b[0] == OPAQUE {
      head, n, rest := FirstBlob(b);
      mid := page;
    } else {
      var child := ReadElement(reg, page, b);
      var c := ReadHasDerivation(reg, page, b);
      head, n, mid, rest := Child(c), Elem(child.value), child.page, child.rest;
    }
  }

  lemma FirstBlob(b: Bytes) returns (head: Item, n: Node, rest: Bytes)
    requires b != [] && b[0] == OPAQUE && OpaqueBody(b[1..]).Ok?
    ensures var r := OpaqueBody(b[1..]); n == Opaque(r.value) && rest == r.rest
    ensures b == YieldItem(head) + rest && |rest| < |b|
    ensures head.Blob? && n == Opaque(head.body) && |head.body| < TWO_32 && MbUint.Denotes(head.length, |head.body|)
  {
    var after := b[1..];
    var length := BlobHasForm(after);
    var body := OpaqueBody(after).value;
    head, n, rest := Blob(length, body), Opaque(body), OpaqueBody(after).rest;
    Regroup(b, length, body, rest);
  }

  lemma Regroup(b: Bytes, length: Bytes, body: Bytes, rest: Bytes)
    requires b != [] && b[1..] == length + body + rest
    ensures b == [b[0]] + length + body + rest
  {
    assert b == [b[0]] + b[1..];
  }

  /** `items` spell the part of `b` that `r` consumed, and stand for what it returned. */
  ghost predicate Spells(reg: Pages, items: seq<Item>, page: byte, b: Bytes, r: Parsed<seq<Node>>) {
    && r.Ok?
    && b == YieldItems(items) + [END] + r.rest
    && DerivesAll(reg, items, page, r.value)
    && PageAfterItems(items, page) == r.page
  }

  lemma SpellsSwitch(reg: Pages, tail: seq<Item>, page: byte, b: Bytes) returns (items: seq<Item>)
    requires |b| >= 2 && b[0] == SWITCH_PAGE && Spells(reg, tail, b[1], b[2..], ReadContent(reg, b[1], b[2..]))
    ensures Spells(reg, items, page, b, ReadContent(reg, page, b))
  {
    items := [Switch(b[1])] + tail;
    assert items[1..] == tail;
    assert b == [SWITCH_PAGE, b[1]] + b[2..];
  }

  lemma {:induction false} SpellsCons(reg: Pages, head: Item, tail: seq<Item>, page: byte, more: Bytes, n: Node,
                                      r: Parsed<seq<Node>>)
    requires DerivesItem(reg, head, page, n)
    requires Spells(reg, tail, PageAfterItem(head, page), more, r)
    ensures Spells(reg, [head] + tail, page, YieldItem(head) + more, Prepend(n, r))
  {
    var items, nodes := [head] + tail, Prepend(n, r).value;
    assert items[0] == head && items[1..] == tail;
    assert nodes[0] == n && nodes[1..] == r.value;
  }

  lemma BlobHasForm(b: Bytes) returns (length: Bytes)
    requires OpaqueBody(b).Ok?
    ensures var r := OpaqueBody(b);
            b == length + r.value + r.rest && |r.value| < TWO_32 && MbUint.Denotes(length, |r.value|)
  {
    var n := MbUint.ReadFrom(b);
    MbUint.ReadIffForm(b, n.value, n.rest);
    length := b[..|b| - |n.rest|];
    assert n.rest == n.rest[..n.value] + n.rest[n.value..];
  }

  /** The parser accepts exactly the derivations of the page-threaded grammar, and nothing else. */
  lemma {:induction false} ReadIffDerives(reg: Pages, page: byte, b: Bytes, e: Element, after: byte, rest: Bytes)
    requires reg.WellFormed()
    ensures ReadElement(reg, page, b) == Ok(e, after, rest)
       <==> exists c :: b == Yield(c) + rest && Derives(reg, c, page, e) && PageAfter(c, page) == after
  {
    if ReadElement(reg, page, b) == Ok(e, after, rest) {
      var c := ReadHasDerivation(reg, page, b);
    }
    forall c | b == Yield(c) + rest && Derives(reg, c, page, e) && PageAfter(c, page) == after
      ensures ReadElement(reg, page, b) == Ok(e, after, rest)
    {
      ReadsDerivation(reg, c, page, e, rest);
    }
  }
}
