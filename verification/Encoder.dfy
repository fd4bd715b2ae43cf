/** The stateful encoder: an output buffer and the page last switched to. */
module Encoding {
  import opened Basics
  import opened Tree
  import opened Registry
  import opened Grammar
  import opened Printer
  import Codec
  import Shortest
  import MbUint

  class Encoder {
    const reg: Pages
    var buf: Bytes
    var currentPage: byte
    /** `currentPage` as each token was written. */
    ghost var pages: seq<byte>

    constructor (reg: Pages, buf: Bytes, currentPage: byte)
      ensures this.reg == reg && this.buf == buf && this.currentPage == currentPage && pages == []
    {
      this.reg, this.buf, this.currentPage := reg, buf, currentPage;
      pages := [];
    }

    /** Appends the element in canonical form and leaves the page of its last tag active, or stops at the first fault. */
    method WriteElement(e: Element) returns (fault: Option<Fault>)
      requires reg.WellFormed()
      modifies this
      ensures fault == FirstFault(reg, e) && old(buf) <= buf
      ensures fault.None? ==> buf == old(buf) + YieldItems(CanonNode(reg, old(currentPage), Elem(e))) && currentPage == EndPage(e)
      ensures fault.None? ==> pages == old(pages) + NodePages(Elem(e), old(currentPage))
      decreases e, 2
    {
      hide Canon, CanonNode, YieldItem, YieldItems, Encodable, EncodableAll, EncoderPagesIn, NodePages;
      PagesStep(pages, e, currentPage);
      if e.page != currentPage {
        buf := buf + [SWITCH_PAGE, e.page];
        pages := pages + [currentPage];
        currentPage := e.page;
      }
      var id := reg.TagID(e.page, e.name);
      if id.None? {
        return Some(UnregisteredTag(e.page, e.name));
      }
      var hasContent := |e.children| > 0;
      var tag := if hasContent && !HasContent(id.value) then id.value + CONTENT_FLAG else id.value;
      buf := buf + [tag];
      pages := pages + [currentPage];
      ElementYield(reg, old(currentPage), e);
      ghost var start := ElementStart(reg, old(currentPage), e);
      assert buf == old(buf) + start;
      if !hasContent {
        assert start + [] == start;
        return None;
      }
      fault := WriteChildren(e.children);
      if fault.Some? {
        return;
      }
      ghost var inner := YieldItems(CanonAll(reg, e.page, e.children));
      assert buf + [END] == old(buf) + (start + (inner + [END]));
      Associative(TagPages(old(pages), e, old(currentPage)), EncoderPagesIn(e.children, e.page), [currentPage]);
      buf := buf + [END];
      pages := pages + [currentPage];
    }

    method WriteChildren(nodes: seq<Node>) returns (fault: Option<Fault>)
      requires reg.WellFormed()
      modifies this
      ensures fault == FirstFaultIn(reg, nodes) && old(buf) <= buf
      ensures fault.None? ==> && buf == old(buf) + YieldItems(CanonAll(reg, old(currentPage), nodes))
                              && currentPage == EndPageAll(nodes, old(currentPage))
                              && pages == old(pages) + EncoderPagesIn(nodes, old(currentPage))
      decreases nodes, 0
    {
      hide YieldItems, CanonAll, EncodableAll, EncoderPagesIn, EndPageAll, FirstFaultIn, EndPageNode, NodePages, CanonNode,
           FaultOf;
      ghost var whole := old(buf) + YieldItems(CanonAll(reg, currentPage, nodes));
      ChildrenDone(reg, nodes);
      for i := 0 to |nodes|
        invariant old(buf) <= buf
        invariant whole == buf + YieldItems(CanonAll(reg, currentPage, nodes[i..]))
        invariant old(pages) + EncoderPagesIn(nodes, old(currentPage)) == pages + EncoderPagesIn(nodes[i..], currentPage)
        invariant EndPageAll(nodes, old(currentPage)) == EndPageAll(nodes[i..], currentPage)
        invariant FirstFaultIn(reg, nodes) == FirstFaultIn(reg, nodes[i..])
      {
        ghost var page := currentPage;
        label Step:
        ChildrenStep(reg, page, nodes, i);
        fault := WriteChild(nodes[i]);
        if fault.Some? {
          return;
        }
        ghost var rest := YieldItems(CanonAll(reg, currentPage, nodes[i + 1..]));
        Associative(old@Step(buf), YieldItems(CanonNode(reg, page, nodes[i])), rest);
        Associative(old@Step(pages), NodePages(nodes[i], page), EncoderPagesIn(nodes[i + 1..], currentPage));
      }
      return None;
    }

    method WriteChild(n: Node) returns (fault: Option<Fault>)
      requires reg.WellFormed()
      modifies this
      ensures fault == FaultOf(reg, n) && old(buf) <= buf
      ensures fault.None? ==> && buf == old(buf) + YieldItems(CanonNode(reg, old(currentPage), n))
                              && currentPage == EndPageNode(n, old(currentPage))
                              && pages == old(pages) + NodePages(n, old(currentPage))
      decreases n, 1
    {
      hide YieldItems, FirstFault, EndPage, Encodable;
      match n
      case Elem(e) =>
        fault := WriteElement(e);
      case Text(s) =>
        for i := 0 to |s|
          invariant NulFree(s[..i])
        {
          if s[i] == 0 {
            return Some(NulInText);
          }
        }
        assert s[..|s|] == s;
        pages := pages + [currentPage];
        buf := buf + [STR_I];
        buf := buf + s;
        buf := buf + [0];
        SingleYield(Str(s));
        return None;
      case Opaque(b) =>
        pages := pages + [currentPage];
        buf := buf + [OPAQUE];
        var length := MbUint.Write(|b| % TWO_32);
        buf := buf + length;
        buf := buf + b;
        SingleYield(Blob(length, b));
        return None;
    }
  }

  /** The pages up to and including an element's tag. */
  function TagPages(was: seq<byte>, e: Element, page: byte): seq<byte> {
    was + (if e.page == page then [] else [page]) + [e.page]
  }

  lemma {:induction false} PagesStep(was: seq<byte>, e: Element, page: byte)
    ensures var inner := if e.children == [] then [] else EncoderPagesIn(e.children, e.page) + [EndPage(e)];
            was + NodePages(Elem(e), page) == TagPages(was, e, page) + inner
  {
    hide EncoderPagesIn, EndPage;
    var lead: seq<byte> := if e.page == page then [] else [page];
    assert NodePages(Elem(e), page) == lead + EncoderPages(e);
    Associative(was, lead, EncoderPages(e));
    if e.children != [] {
      var inner, last := EncoderPagesIn(e.children, e.page), [EndPage(e)];
      assert EncoderPages(e) == [e.page] + inner + last;
      Associative([e.page], inner, last);
      Associative(was + lead, [e.page], inner + last);
    } else {
      NoChildrenNoPages(e);
    }
  }

  lemma {:induction false} NoChildrenNoPages(e: Element)
    requires e.children == []
    ensures EncoderPages(e) == [e.page]
  {
  }

  /** Nothing is left to write after the last child. */
  lemma {:induction false} ChildrenDone(reg: Pages, nodes: seq<Node>)
    ensures nodes[0..] == nodes
    ensures forall page :: YieldItems(CanonAll(reg, page, nodes[|nodes|..])) == EncoderPagesIn(nodes[|nodes|..], page) == []
    ensures forall page :: EndPageAll(nodes[|nodes|..], page) == page
    ensures FirstFaultIn(reg, nodes[|nodes|..]).None?
  {
  }

  lemma {:induction false} ChildrenStep(reg: Pages, page: byte, nodes: seq<Node>, i: nat)
    requires i < |nodes|
    ensures var after := EndPageNode(nodes[i], page);
            && EndPageAll(nodes[i..], page) == EndPageAll(nodes[i + 1..], after)
            && YieldItems(CanonAll(reg, page, nodes[i..]))
            == YieldItems(CanonNode(reg, page, nodes[i])) + YieldItems(CanonAll(reg, after, nodes[i + 1..]))
    ensures EncoderPagesIn(nodes[i..], page)
         == NodePages(nodes[i], page) + EncoderPagesIn(nodes[i + 1..], EndPageNode(nodes[i], page))
    ensures FirstFaultIn(reg, nodes[i..])
         == if FaultOf(reg, nodes[i]).Some? then FaultOf(reg, nodes[i]) else FirstFaultIn(reg, nodes[i + 1..])
  {
    assert nodes[i..][0] == nodes[i] && nodes[i..][1..] == nodes[i + 1..];
    Shortest.YieldConcat(CanonNode(reg, page, nodes[i]), CanonAll(reg, EndPageNode(nodes[i], page), nodes[i + 1..]));
  }

  lemma {:induction false} SingleYield(item: Item)
    ensures YieldItems([item]) == YieldItem(item)
  {
    assert [item][1..] == [];
  }

  /** A child's bytes: the switch its page needs, its tag, and its content. */
  lemma {:induction false} ChildYield(reg: Pages, page: byte, e: Element)
    ensures YieldItems(CanonNode(reg, page, Elem(e)))
         == (if page == e.page then [] else [SWITCH_PAGE, e.page]) + Yield(Canon(reg, e))
  {
    var c := Canon(reg, e);
    SingleYield(Child(c));
    SingleYield(Switch(e.page));
    Shortest.YieldConcat(Lead(page, e.page), [Child(c)]);
  }

  function ElementStart(reg: Pages, page: byte, e: Element): Bytes {
    (if page == e.page then [] else [SWITCH_PAGE, e.page]) + [TagByte(reg, e)]
  }

  lemma {:induction false} ElementYield(reg: Pages, page: byte, e: Element)
    requires reg.WellFormed() && reg.TagID(e.page, e.name).Some?
    ensures YieldItems(CanonNode(reg, page, Elem(e)))
         == ElementStart(reg, page, e)
            + if e.children == [] then [] else YieldItems(CanonAll(reg, e.page, e.children)) + [END]
  {
    TagByteFlags(reg, e);
    ChildYield(reg, page, e);
  }

  function HeaderBytes(d: Document): Bytes {
    var f := Codec.Filled(d);
    [f.version] + MbUint.Encode(f.publicID) + MbUint.Encode(f.charset) + MbUint.Encode(0)
  }

  /** Writes the header with defaults filled in, then the root, and refines `Codec.Marshal`. */
  method Marshal(d: Document, reg: Pages) returns (r: Result<Bytes, Fault>)
    requires reg.WellFormed()
    ensures r == Codec.Marshal(reg, d)
  {
    hide YieldItems, FirstFault, Canon, Encodable;
    if d.root.None? {
      return Failure(NilRoot);
    }
    var root := d.root.value;
    var version := if d.version == 0 then Codec.DEFAULT_VERSION else d.version;
    var publicID := if d.publicID == 0 then Codec.DEFAULT_PUBLIC_ID else d.publicID;
    var charset := if d.charset == 0 then Codec.DEFAULT_CHARSET else d.charset;
    var p := MbUint.Write(publicID);
    var c := MbUint.Write(charset);
    var t := MbUint.Write(0);
    var header := [version];
    header := header + p;
    header := header + c;
    header := header + t;
    assert header == HeaderBytes(d);
    if root.page != 0 {
      header := header + [SWITCH_PAGE, root.page];
    }
    var enc := new Encoder(reg, header, root.page);
    var fault := enc.WriteElement(root);
    if fault.Some? {
      return Failure(fault.value);
    }
    HeaderLayout(reg, d, root);
    ChildYield(reg, root.page, root);
    assert HeaderBytes(d) + [] == HeaderBytes(d);
    assert [] + Yield(Canon(reg, root)) == Yield(Canon(reg, root));
    assert enc.buf == header + Yield(Canon(reg, root));
    return Success(enc.buf);
  }

  lemma {:induction false} HeaderLayout(reg: Pages, d: Document, root: Element)
    ensures Codec.YieldDoc(Codec.CanonDoc(reg, d, root))
         == HeaderBytes(d) + (if root.page != 0 then [SWITCH_PAGE, root.page] else []) + Yield(Canon(reg, root))
  {
    assert [root.page][1..] == [];
    var leading := Codec.CanonDoc(reg, d, root).leading;
    assert Codec.YieldLeading(leading) == if root.page == 0 then [] else [SWITCH_PAGE, root.page];
  }
}
