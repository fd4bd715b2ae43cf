/** The encoder's output, as the canonical concrete syntax tree of an element. */
module Printer {
  import opened Basics
  import opened Tree
  import opened Registry
  import opened Grammar
  import MbUint

  // ---- What can be encoded ------------------------------------------------

  /** Every tag is registered and no text holds a NUL: the two conditions the encoder checks. */
  predicate Encodable(reg: Pages, e: Element)
    decreases e, 2
  {
    reg.TagID(e.page, e.name).Some? && EncodableAll(reg, e.children)
  }

  predicate EncodableAll(reg: Pages, nodes: seq<Node>)
    decreases nodes, 0
  {
    nodes == [] || (EncodableNode(reg, nodes[0]) && EncodableAll(reg, nodes[1..]))
  }

  predicate EncodableNode(reg: Pages, n: Node)
    decreases n, 1
  {
    match n
    case Text(s) => NulFree(s)
    case Opaque(_) => true
    case Elem(e) => Encodable(reg, e)
  }

  datatype Fault = NilRoot | UnregisteredTag(page: byte, name: string) | NulInText

  /** The error the encoder stops with: the first fault in document order. */
  function FirstFault(reg: Pages, e: Element): (r: Option<Fault>)
    ensures r.None? <==> Encodable(reg, e)
    decreases e, 2
  {
    if reg.TagID(e.page, e.name).None? then Some(UnregisteredTag(e.page, e.name)) else FirstFaultIn(reg, e.children)
  }

  function FirstFaultIn(reg: Pages, nodes: seq<Node>): (r: Option<Fault>)
    ensures r.None? <==> EncodableAll(reg, nodes)
    decreases nodes, 0
  {
    if nodes == [] then None
    else
      match FaultOf(reg, nodes[0])
      case Some(f) => Some(f)
      case None => FirstFaultIn(reg, nodes[1..])
  }

  function FaultOf(reg: Pages, n: Node): (r: Option<Fault>)
    ensures r.None? <==> EncodableNode(reg, n)
    decreases n, 1
  {
    match n
    case Text(s) => if NulFree(s) then None else Some(NulInText)
    case Opaque(_) => None
    case Elem(e) => FirstFault(reg, e)
  }

  /** Every opaque length fits the 32-bit integer it is written as. The encoder does not check this. */
  predicate OpaqueFits(e: Element)
    decreases e, 2
  {
    OpaqueFitsAll(e.children)
  }

  predicate OpaqueFitsAll(nodes: seq<Node>)
    decreases nodes, 0
  {
    nodes == [] || (OpaqueFitsNode(nodes[0]) && OpaqueFitsAll(nodes[1..]))
  }

  predicate OpaqueFitsNode(n: Node)
    decreases n, 1
  {
    match n
    case Text(_) => true
    case Opaque(b) => |b| < TWO_32
    case Elem(e) => OpaqueFits(e)
  }

  lemma {:induction false} SingleNode(reg: Pages, n: Node)
    ensures EncodableAll(reg, [n]) <==> EncodableNode(reg, n)
    ensures OpaqueFitsAll([n]) <==> OpaqueFitsNode(n)
  {
    var nodes := [n];
    assert nodes[1..] == [] && EncodableAll(reg, nodes[1..]) && OpaqueFitsAll(nodes[1..]);
  }

  lemma {:induction false} EncodableConcat(reg: Pages, a: seq<Node>, b: seq<Node>)
    ensures EncodableAll(reg, a + b) <==> EncodableAll(reg, a) && EncodableAll(reg, b)
    ensures OpaqueFitsAll(a + b) <==> OpaqueFitsAll(a) && OpaqueFitsAll(b)
    decreases a
  {
    if a == [] {
      assert a + b == b;
    } else {
      assert (a + b)[1..] == a[1..] + b;
      EncodableConcat(reg, a[1..], b);
    }
  }

  // ---- Canonical form -----------------------------------------------------

  /** The page in force once the element has been written: that of the last tag in document order. */
  function EndPage(e: Element): byte
    decreases e, 2
  {
    EndPageAll(e.children, e.page)
  }

  function EndPageAll(nodes: seq<Node>, page: byte): byte
    decreases nodes, 0
  {
    if nodes == [] then page else EndPageAll(nodes[1..], EndPageNode(nodes[0], page))
  }

  function EndPageNode(n: Node, page: byte): byte
    decreases n, 1
  {
    match n
    case Elem(e) => EndPage(e)
    case _ => page
  }

  /** The page switch written before a tag on page `to` when `from` is active. */
  function Lead(from: byte, to: byte): seq<Item> {
    if from == to then [] else [Switch(to)]
  }

  function TagByte(reg: Pages, e: Element): byte {
    var id: byte := match reg.TagID(e.page, e.name) case Some(id) => id case None => 0;
    if e.children == [] || HasContent(id) then id else id + CONTENT_FLAG
  }

  /** The tree spelled when its own page is already active. */
  function Canon(reg: Pages, e: Element): Cst
    decreases e, 2
  {
    Cst(TagByte(reg, e), CanonAll(reg, e.page, e.children))
  }

  function CanonAll(reg: Pages, page: byte, nodes: seq<Node>): seq<Item>
    decreases nodes, 0
  {
    if nodes == [] then []
    else CanonNode(reg, page, nodes[0]) + CanonAll(reg, EndPageNode(nodes[0], page), nodes[1..])
  }

  function CanonNode(reg: Pages, page: byte, n: Node): seq<Item>
    decreases n, 1
  {
    match n
    case Text(s) => [Str(s)]
    case Opaque(b) => [Blob(MbUint.Encode(|b| % TWO_32), b)]
    case Elem(e) => Lead(page, e.page) + [Child(Canon(reg, e))]
  }

  // ---- It is in the strict grammar and stands for the element -------------

  lemma {:induction false} PageAfterConcat(a: seq<Item>, b: seq<Item>, page: byte)
    ensures PageAfterItems(a + b, page) == PageAfterItems(b, PageAfterItems(a, page))
    decreases a
  {
    if a == [] {
      assert a + b == b;
    } else {
      assert (a + b)[1..] == a[1..] + b;
      PageAfterConcat(a[1..], b, PageAfterItem(a[0], page));
    }
  }

  /** After any prefix of whole elements, decoder and encoder agree on the active page. */
  lemma {:induction false} CanonEndPage(reg: Pages, e: Element)
    ensures PageAfter(Canon(reg, e), e.page) == EndPage(e)
    decreases e, 2
  {
    CanonAllEndPage(reg, e.page, e.children);
  }

  lemma {:induction false} CanonAllEndPage(reg: Pages, page: byte, nodes: seq<Node>)
    ensures PageAfterItems(CanonAll(reg, page, nodes), page) == EndPageAll(nodes, page)
    decreases nodes, 0
  {
    if nodes != [] {
      CanonNodeEndPage(reg, page, nodes[0]);
      PageAfterConcat(CanonNode(reg, page, nodes[0]), CanonAll(reg, EndPageNode(nodes[0], page), nodes[1..]), page);
      CanonAllEndPage(reg, EndPageNode(nodes[0], page), nodes[1..]);
    }
  }

  lemma {:induction false} CanonNodeEndPage(reg: Pages, page: byte, n: Node)
    ensures PageAfterItems(CanonNode(reg, page, n), page) == EndPageNode(n, page)
    decreases n, 1
  {
    if n.Elem? {
      CanonEndPage(reg, n.e);
      PageAfterConcat(Lead(page, n.e.page), [Child(Canon(reg, n.e))], page);
    }
  }

  /** The decoder's active page as it reaches each token of the tree, END included. */
  function DecoderPages(c: Cst, page: byte): seq<byte>
    decreases c, 2
  {
    [page] + DecoderPagesIn(c.items, page) + if HasContent(c.tag) then [PageAfter(c, page)] else []
  }

  function DecoderPagesIn(items: seq<Item>, page: byte): seq<byte>
    decreases items, 0
  {
    if items == [] then [] else ItemPages(items[0], page) + DecoderPagesIn(items[1..], PageAfterItem(items[0], page))
  }

  function ItemPages(item: Item, page: byte): seq<byte>
    decreases item, 1
  {
    match item
    case Child(c) => DecoderPages(c, page)
    case _ => [page]
  }

  /** The encoder's `currentPage` as it writes each token of an element whose page is active. */
  function EncoderPages(e: Element): seq<byte>
    decreases e, 2
  {
    [e.page] + EncoderPagesIn(e.children, e.page) + if e.children != [] then [EndPage(e)] else []
  }

  function EncoderPagesIn(nodes: seq<Node>, page: byte): seq<byte>
    decreases nodes, 0
  {
    if nodes == [] then [] else NodePages(nodes[0], page) + EncoderPagesIn(nodes[1..], EndPageNode(nodes[0], page))
  }

  /** A child element's own tokens come after the switch it may need, written on the page before. */
  function NodePages(n: Node, page: byte): seq<byte>
    decreases n, 1
  {
    match n
    case Elem(e) => (if e.page == page then [] else [page]) + EncoderPages(e)
    case _ => [page]
  }

  /** Lock-step: at every token, the page the decoder has active is the one the encoder had. */
  lemma {:induction false} PagesAgree(reg: Pages, e: Element)
    requires reg.WellFormed() && Encodable(reg, e)
    ensures DecoderPages(Canon(reg, e), e.page) == EncoderPages(e)
    decreases e, 2
  {
    TagByteFlags(reg, e);
    CanonEndPage(reg, e);
    PagesAgreeIn(reg, e.page, e.children);
  }

  lemma {:induction false} PagesAgreeIn(reg: Pages, page: byte, nodes: seq<Node>)
    requires reg.WellFormed() && EncodableAll(reg, nodes)
    ensures DecoderPagesIn(CanonAll(reg, page, nodes), page) == EncoderPagesIn(nodes, page)
    decreases nodes, 0
  {
    if nodes != [] {
      var n, after := nodes[0], EndPageNode(nodes[0], page);
      var tail := CanonAll(reg, after, nodes[1..]);
      PagesAgreeIn(reg, after, nodes[1..]);
      if n.Elem? {
        assert n.e < n;
        PagesAgree(reg, n.e);
        CanonEndPage(reg, n.e);
        ChildPages(reg, page, n.e, tail);
      } else {
        var item := CanonNode(reg, page, n)[0];
        assert CanonAll(reg, page, nodes) == [item] + tail;
        assert ([item] + tail)[1..] == tail;
      }
    }
  }

  lemma {:induction false} ChildPages(reg: Pages, page: byte, e: Element, tail: seq<Item>)
    requires DecoderPages(Canon(reg, e), e.page) == EncoderPages(e) && PageAfter(Canon(reg, e), e.page) == EndPage(e)
    ensures DecoderPagesIn(CanonNode(reg, page, Elem(e)) + tail, page)
         == NodePages(Elem(e), page) + DecoderPagesIn(tail, EndPage(e))
  {
    var child := [Child(Canon(reg, e))] + tail;
    assert child[1..] == tail;
    assert DecoderPagesIn(child, e.page) == EncoderPages(e) + DecoderPagesIn(tail, EndPage(e));
    var items := CanonNode(reg, page, Elem(e)) + tail;
    if e.page != page {
      assert items[1..] == child;
    } else {
      assert items == child;
    }
  }

  lemma TagByteFlags(reg: Pages, e: Element)
    requires reg.WellFormed() && reg.TagID(e.page, e.name).Some?
    ensures var tag := TagByte(reg, e);
            && !HasAttributes(tag) && (HasContent(tag) <==> e.children != [])
            && reg.TagName(e.page, Identity(tag)) == Some(e.name)
  {
    var id := reg.TagID(e.page, e.name).value;
    reg.LookupsAgree(e.page, id, e.name);
  }

  /** The canonical tree derives the element exactly when the element can be encoded and its blobs fit. */
  lemma {:induction false} CanonDerives(reg: Pages, e: Element)
    requires reg.WellFormed()
    ensures Encodable(reg, e) && OpaqueFits(e) ==> Derives(reg, Canon(reg, e), e.page, e)
    decreases e, 2
  {
    if Encodable(reg, e) && OpaqueFits(e) {
      TagByteFlags(reg, e);
      CanonAllDerives(reg, e.page, e.children);
    }
  }

  lemma {:induction false} CanonAllDerives(reg: Pages, page: byte, nodes: seq<Node>)
    requires reg.WellFormed() && EncodableAll(reg, nodes) && OpaqueFitsAll(nodes)
    ensures DerivesAll(reg, CanonAll(reg, page, nodes), page, nodes)
    decreases nodes, 0
  {
    if nodes != [] {
      var n, after := nodes[0], EndPageNode(nodes[0], page);
      var tail := CanonAll(reg, after, nodes[1..]);
      CanonAllDerives(reg, after, nodes[1..]);
      CanonNodeDerives(reg, page, n);
      var item := Last(CanonNode(reg, page, n));
      assert ([item] + tail)[1..] == tail;
      assert DerivesAll(reg, [item] + tail, if n.Elem? then n.e.page else page, nodes);
      if n.Elem? && n.e.page != page {
        assert CanonAll(reg, page, nodes)[1..] == [item] + tail;
      } else {
        assert CanonAll(reg, page, nodes) == [item] + tail;
      }
    }
  }

  function Last(items: seq<Item>): Item
    requires items != []
  {
    items[|items| - 1]
  }

  lemma {:induction false} CanonNodeDerives(reg: Pages, page: byte, n: Node)
    requires reg.WellFormed() && EncodableNode(reg, n) && OpaqueFitsNode(n)
    ensures var from := if n.Elem? then n.e.page else page;
            && DerivesItem(reg, Last(CanonNode(reg, page, n)), from, n)
            && PageAfterItem(Last(CanonNode(reg, page, n)), from) == EndPageNode(n, page)
    decreases n, 1
  {
    match n
    case Text(_) =>
    case Opaque(b) => MbUint.EncodeDenotes(|b|);
    case Elem(e) =>
      CanonDerives(reg, e);
      CanonEndPage(reg, e);
  }

  /** Everything the encoder emits lies in the strict BNF: a page switch stands only directly before a tag. */
  lemma {:induction false} CanonStrict(reg: Pages, e: Element)
    ensures Strict(Canon(reg, e))
    decreases e, 2
  {
    CanonAllStrict(reg, e.page, e.children);
  }

  lemma {:induction false} CanonAllStrict(reg: Pages, page: byte, nodes: seq<Node>)
    ensures StrictAll(CanonAll(reg, page, nodes))
    decreases nodes, 0
  {
    if nodes != [] {
      var n, after := nodes[0], EndPageNode(nodes[0], page);
      var tail := CanonAll(reg, after, nodes[1..]);
      CanonAllStrict(reg, after, nodes[1..]);
      if n.Elem? {
        assert n.e < n;
        CanonStrict(reg, n.e);
      }
      var item := Last(CanonNode(reg, page, n));
      assert ([item] + tail)[1..] == tail;
      assert StrictAll([item] + tail);
      if n.Elem? && n.e.page != page {
        assert CanonAll(reg, page, nodes)[1..] == [item] + tail;
      } else {
        assert CanonAll(reg, page, nodes) == [item] + tail;
      }
    }
  }

  // ---- Whatever derives an element, the element can be encoded ------------

  lemma {:induction false} DerivedIsEncodable(reg: Pages, c: Cst, page: byte, e: Element)
    requires reg.WellFormed() && Derives(reg, c, page, e)
    ensures Encodable(reg, e) && OpaqueFits(e) && e.page == page
    decreases c, 2
  {
    reg.LookupsAgree(page, Identity(c.tag), e.name);
    DerivedAllEncodable(reg, c.items, page, e.children);
  }

  lemma {:induction false} DerivedAllEncodable(reg: Pages, items: seq<Item>, page: byte, nodes: seq<Node>)
    requires reg.WellFormed() && DerivesAll(reg, items, page, nodes)
    ensures EncodableAll(reg, nodes) && OpaqueFitsAll(nodes)
    decreases items, 0
  {
    if items != [] {
      if items[0].Switch? {
        DerivedAllEncodable(reg, items[1..], items[0].page, nodes);
      } else {
        if items[0].Child? {
          assert items[0].c < items[0];
          DerivedIsEncodable(reg, items[0].c, page, nodes[0].e);
        }
        DerivedAllEncodable(reg, items[1..], PageAfterItem(items[0], page), nodes[1..]);
      }
    }
  }
}
