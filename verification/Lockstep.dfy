/** The page the decoder has active at every token it reads, and its agreement with the encoder's. */
module Lockstep {
  import opened Basics
  import opened Tree
  import opened Registry
  import opened Grammar
  import opened Parser
  import opened Printer
  import MbUint

  /** The active page at each token of an element that is read with success: its tag, its content and END. */
  function PagesRead(reg: Pages, page: byte, b: Bytes): seq<byte>
    requires ReadElement(reg, page, b).Ok?
    decreases |b|, 0
  {
    [page] + if HasContent(b[0]) then ContentPages(reg, page, b[1..]) else []
  }

  function ContentPages(reg: Pages, page: byte, b: Bytes): seq<byte>
    requires ReadContent(reg, page, b).Ok?
    decreases |b|, 1
  {
    if b[0] == END then [page]
    else if b[0] == SWITCH_PAGE then [page] + ContentPages(reg, b[1], b[2..])
    else if b[0] == STR_I then [page] + ContentPages(reg, page, CStr(b[1..]).value.1)
    else if b[0] == OPAQUE then [page] + ContentPages(reg, page, OpaqueBody(b[1..]).rest)
    else
      var child := ReadElement(reg, page, b);
      PagesRead(reg, page, b) + ContentPages(reg, child.page, child.rest)
  }

  /** For the bytes of a derivation, those are the pages its tokens are read under. */
  lemma {:induction false} PagesReadAre(reg: Pages, c: Cst, page: byte, e: Element, rest: Bytes)
    requires reg.WellFormed() && Derives(reg, c, page, e)
    ensures ReadElement(reg, page, Yield(c) + rest).Ok?
    ensures PagesRead(reg, page, Yield(c) + rest) == DecoderPages(c, page)
    decreases c, 1
  {
    hide ReadContent, DerivesItem, YieldItem, ContentPages;
    ReadsDerivation(reg, c, page, e, rest);
    var b := Yield(c) + rest;
    if HasContent(c.tag) {
      assert b[1..] == YieldItems(c.items) + [END] + rest;
      ContentPagesAre(reg, c.items, page, e.children, rest);
      Associative([page], DecoderPagesIn(c.items, page), [PageAfter(c, page)]);
    } else {
      assert c.items == [];
    }
  }

  /** The content is read with success, under the pages of these items and of END. */
  ghost predicate PagesMatch(reg: Pages, items: seq<Item>, page: byte, rest: Bytes) {
    var b := YieldItems(items) + [END] + rest;
    && ReadContent(reg, page, b).Ok?
    && ContentPages(reg, page, b) == DecoderPagesIn(items, page) + [PageAfterItems(items, page)]
  }

  /** The first item is read under its own pages, and what follows under those it would be on its own. */
  ghost predicate FirstMatches(reg: Pages, head: Item, page: byte, more: Bytes) {
    var after := PageAfterItem(head, page);
    && ReadContent(reg, after, more).Ok? && ReadContent(reg, page, YieldItem(head) + more).Ok?
    && ContentPages(reg, page, YieldItem(head) + more) == ItemPages(head, page) + ContentPages(reg, after, more)
  }

  lemma {:induction false} ContentPagesAre(reg: Pages, items: seq<Item>, page: byte, nodes: seq<Node>, rest: Bytes)
    requires reg.WellFormed() && DerivesAll(reg, items, page, nodes)
    ensures PagesMatch(reg, items, page, rest)
    decreases items, 0
  {
    hide PagesMatch, DerivesItem, YieldItem, YieldItems, ReadContent, PageAfterItem;
    if items == [] {
      EndMatches(reg, page, rest);
    } else {
      var head, tail, after := items[0], items[1..], PageAfterItem(items[0], page);
      var more := YieldItems(tail) + [END] + rest;
      assert items == [head] + tail;
      ItemGoesTo(head, page);
      if head.Switch? {
        ContentPagesAre(reg, tail, after, nodes, rest);
        TailReads(reg, tail, after, rest);
        SwitchMatches(reg, head, page, more);
      } else {
        ContentPagesAre(reg, tail, after, nodes[1..], rest);
        TailReads(reg, tail, after, rest);
        if head.Child? {
          var e := DerivedChild(reg, head, page, nodes[0]);
          assert head.c < head;
          PagesReadAre(reg, head.c, page, e, more);
          ChildMatches(reg, head.c, page, e, more);
        } else {
          LeafMatches(reg, head, page, nodes[0], more);
        }
      }
      ConsMatches(reg, head, tail, page, rest);
    }
  }

  lemma EndMatches(reg: Pages, page: byte, rest: Bytes)
    ensures PagesMatch(reg, [], page, rest)
  {
  }

  lemma {:induction false} ItemGoesTo(head: Item, page: byte)
    ensures head.Switch? ==> PageAfterItem(head, page) == head.page
    ensures head.Child? ==> PageAfterItem(head, page) == PageAfter(head.c, page)
  {
  }

  lemma {:induction false} TailReads(reg: Pages, tail: seq<Item>, after: byte, rest: Bytes)
    requires PagesMatch(reg, tail, after, rest)
    ensures ReadContent(reg, after, YieldItems(tail) + [END] + rest).Ok?
  {
  }

  lemma {:induction false} SwitchMatches(reg: Pages, head: Item, page: byte, more: Bytes)
    requires head.Switch? && ReadContent(reg, head.page, more).Ok?
    ensures FirstMatches(reg, head, page, more)
  {
    assert (YieldItem(head) + more)[2..] == more;
  }

  lemma {:induction false} LeafMatches(reg: Pages, head: Item, page: byte, n: Node, more: Bytes)
    requires DerivesItem(reg, head, page, n) && !head.Child? && ReadContent(reg, PageAfterItem(head, page), more).Ok?
    ensures FirstMatches(reg, head, page, more)
  {
    hide ReadContent, FirstMatches, ContentPages;
    match head
    case Str(s) => StrMatches(reg, page, s, more);
    case Blob(length, body) => BlobMatches(reg, page, length, body, more);
  }

  lemma {:induction false} StrMatches(reg: Pages, page: byte, s: Bytes, more: Bytes)
    requires NulFree(s) && ReadContent(reg, page, more).Ok?
    ensures FirstMatches(reg, Str(s), page, more)
  {
    hide ReadContent, CStr, NulFree;
    ReadsStr(reg, page, s, more);
    CStrReads(s, more);
    assert (YieldItem(Str(s)) + more)[1..] == s + [0] + more;
  }

  lemma {:induction false} BlobMatches(reg: Pages, page: byte, length: Bytes, body: Bytes, more: Bytes)
    requires |body| < TWO_32 && MbUint.Denotes(length, |body|) && ReadContent(reg, page, more).Ok?
    ensures FirstMatches(reg, Blob(length, body), page, more)
  {
    hide ReadContent, OpaqueBody, MbUint.Denotes;
    ReadsBlob(reg, page, length, body, more);
    ReadsOpaqueBody(length, body, more);
    assert (YieldItem(Blob(length, body)) + more)[1..] == length + (body + more);
  }

  lemma {:induction false} ChildMatches(reg: Pages, c: Cst, page: byte, e: Element, more: Bytes)
    requires reg.WellFormed() && Derives(reg, c, page, e) && ReadContent(reg, PageAfter(c, page), more).Ok?
    requires ReadElement(reg, page, Yield(c) + more).Ok? && PagesRead(reg, page, Yield(c) + more) == DecoderPages(c, page)
    ensures FirstMatches(reg, Child(c), page, more)
  {
    hide Derives, PagesRead, DecoderPages;
    ReadsDerivation(reg, c, page, e, more);
    DerivedTag(reg, c, page, e);
  }

  lemma {:induction false} DerivedTag(reg: Pages, c: Cst, page: byte, e: Element)
    requires reg.WellFormed() && Derives(reg, c, page, e)
    ensures !IsControl(c.tag)
  {
    TagsAreNotControl(reg, page, c.tag);
  }

  lemma {:induction false} ConsMatches(reg: Pages, head: Item, tail: seq<Item>, page: byte, rest: Bytes)
    requires PagesMatch(reg, tail, PageAfterItem(head, page), rest)
    requires FirstMatches(reg, head, page, YieldItems(tail) + [END] + rest)
    ensures PagesMatch(reg, [head] + tail, page, rest)
  {
    hide ReadContent, ContentPages, YieldItem, PageAfterItem, ItemPages;
    var items, after := [head] + tail, PageAfterItem(head, page);
    assert items[0] == head && items[1..] == tail;
    assert YieldItems(items) + [END] + rest == YieldItem(head) + (YieldItems(tail) + [END] + rest);
    Associative(ItemPages(head, page), DecoderPagesIn(tail, after), [PageAfterItems(tail, after)]);
  }

  /** Lock-step: reading back what the encoder wrote, the decoder is at every token on the page the encoder was on. */
  lemma {:induction false} DecoderKeepsStep(reg: Pages, e: Element, rest: Bytes)
    requires reg.WellFormed() && Encodable(reg, e) && OpaqueFits(e)
    ensures ReadElement(reg, e.page, Yield(Canon(reg, e)) + rest) == Ok(e, EndPage(e), rest)
    ensures PagesRead(reg, e.page, Yield(Canon(reg, e)) + rest) == EncoderPages(e)
  {
    CanonDerives(reg, e);
    CanonEndPage(reg, e);
    ReadsDerivation(reg, Canon(reg, e), e.page, e, rest);
    PagesReadAre(reg, Canon(reg, e), e.page, e, rest);
    PagesAgree(reg, e);
  }
}
