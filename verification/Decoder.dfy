/** The recursive-descent decoder: a position and an active page, updated by every read. */
module Decoding {
  import opened Basics
  import opened Tree
  import opened Registry
  import opened Grammar
  import opened Parser
  import opened Lockstep
  import Codec
  import MbUint

  class Decoder {
    const src: Bytes
    const reg: Pages
    var pos: nat
    var currentPage: byte
    /** `currentPage` as each token of the tree was read. */
    ghost var pages: seq<byte>

    /** The position never leaves the input. */
    ghost predicate Valid()
      reads this
    {
      pos <= |src|
    }

    ghost function Unread(): Bytes
      requires Valid()
      reads this
    {
      src[pos..]
    }

    constructor (src: Bytes, reg: Pages)
      ensures Valid() && this.src == src && this.reg == reg && pos == 0 && currentPage == 0 && pages == []
    {
      this.src, this.reg := src, reg;
      pos, currentPage, pages := 0, 0, [];
    }

    method ReadByte() returns (r: Result<byte, Error>)
      requires Valid()
      modifies this`pos
      ensures Valid()
      ensures if old(pos) < |src| then r == Success(src[old(pos)]) && pos == old(pos) + 1
              else r == Failure(UnexpectedEof) && pos == old(pos)
    {
      if pos >= |src| {
        return Failure(UnexpectedEof);
      }
      r := Success(src[pos]);
      pos := pos + 1;
    }

    /** 0xFF stands for the end of input; no token starts with it. */
    function PeekByte(): (b: byte)
      requires Valid()
      reads this
      ensures b == SWITCH_PAGE ==> Unread() != [] && Unread()[0] == SWITCH_PAGE
    {
      if pos >= |src| then 0xFF else src[pos]
    }

    method ReadN(n: nat) returns (r: Result<Bytes, Error>)
      requires Valid()
      modifies this`pos
      ensures Valid()
      ensures if n <= |old(Unread())| then r == Success(old(Unread())[..n]) && Unread() == old(Unread())[n..]
              else r == Failure(UnexpectedEof) && pos == old(pos)
    {
      if pos + n > |src| {
        return Failure(UnexpectedEof);
      }
      r := Success(src[pos..pos + n]);
      pos := pos + n;
      assert src[old(pos)..][..n] == src[old(pos)..pos] && src[old(pos)..][n..] == src[pos..];
    }

    method ReadMBUInt32() returns (r: Result<uint32, Error>)
      requires Valid()
      modifies this`pos
      ensures Valid() && pos >= old(pos)
      ensures match MbUint.ReadFrom(old(Unread()))
              case Ok(v, rest) => r == Success(v) && Unread() == rest
              case Err(e) => r == Failure(FromMb(e))
    {
      hide MbUint.Shifted;
      var v: uint32 := 0;
      ghost var outcome := MbUint.ReadFrom(Unread());
      for i := 0 to MbUint.MAX_SEPTETS
        invariant Valid() && pos >= old(pos)
        invariant outcome == MbUint.Decode(Unread(), v, MbUint.MAX_SEPTETS - i)
      {
        ghost var unread := Unread();
        var b := ReadByte();
        if b.Failure? {
          return Failure(b.error);
        }
        assert unread[0] == b.value && unread[1..] == Unread();
        v := MbUint.Shifted(v, b.value);
        if b.value < 0x80 {
          return Success(v);
        }
      }
      return Failure(IntegerTooLong);
    }

    method ReadCStr() returns (r: Result<Bytes, Error>)
      requires Valid()
      modifies this`pos
      ensures Valid() && pos >= old(pos)
      ensures match CStr(old(Unread()))
              case Some((s, rest)) => r == Success(s) && Unread() == rest
              case None => r == Failure(UnexpectedEof)
    {
      var start := pos;
      while pos < |src|
        invariant Valid() && pos >= start
        invariant NulFree(src[start..pos])
      {
        if src[pos] == 0 {
          CStrReads(src[start..pos], src[pos + 1..]);
          assert src[start..] == src[start..pos] + [0] + src[pos + 1..];
          r := Success(src[start..pos]);
          pos := pos + 1;
          return;
        }
        assert src[start..pos + 1] == src[start..pos] + [src[pos]];
        pos := pos + 1;
      }
      NoNulNoString(src[start..]);
      return Failure(UnexpectedEof);
    }

    /** Reads one element, any leading page switch having been consumed, and refines `Parser.ReadElement`. */
    method ReadElement() returns (r: Result<Element, Error>)
      requires Valid()
      modifies this
      ensures Valid()
      ensures match Parser.ReadElement(reg, old(currentPage), old(Unread()))
              case Ok(e, page, rest) => && r == Success(e) && currentPage == page && Unread() == rest && pos > old(pos)
                                        && pages == old(pages) + PagesRead(reg, old(currentPage), old(Unread()))
              case Err(e) => r == Failure(e)
      decreases |src| - pos, 0
    {
      var tagByte := ReadByte();
      if tagByte.Failure? {
        return Failure(tagByte.error);
      }
      var tag := tagByte.value;
      if tag == END {
        return Failure(UnexpectedEnd);
      }
      if HasAttributes(tag) {
        return Failure(AttributesUnsupported(tag));
      }
      var page := currentPage;
      pages := pages + [page];
      var name := reg.TagName(page, Identity(tag));
      if name.None? {
        return Failure(UnknownTag(Identity(tag), page));
      }
      if !HasContent(tag) {
        return Success(Element(page, name.value, []));
      }
      var content := ReadChildren();
      if content.Failure? {
        return Failure(content.error);
      }
      return Success(Element(page, name.value, content.value));
    }

    /** The element's content: children are appended until END; page switches between them stay in force. */
    method ReadChildren() returns (r: Result<seq<Node>, Error>)
      requires Valid()
      modifies this
      ensures Valid()
      ensures match ReadContent(reg, old(currentPage), old(Unread()))
              case Ok(nodes, page, rest) => && r == Success(nodes) && currentPage == page && Unread() == rest && pos >= old(pos)
                                            && pages == old(pages) + ContentPages(reg, old(currentPage), old(Unread()))
              case Err(e) => r == Failure(e)
      decreases |src| - pos, 2
    {
      hide ReadContent, ContentPages, Ahead, ChildRead;
      var children := [];
      ghost var outcome := Ahead(reg, [], pages, currentPage, Unread());
      AheadAtStart(reg, pages, currentPage, Unread());
      while true
        invariant Valid() && pos >= old(pos)
        invariant outcome == Ahead(reg, children, pages, currentPage, Unread())
        decreases |src| - pos
      {
        ghost var unread, start := Unread(), pos;
        AheadOneToken(reg, children, pages, currentPage, unread);
        var next := ReadByte();
        if next.Failure? {
          return Failure(next.error);
        }
        assert unread[0] == next.value && unread[1..] == Unread();
        if next.value == END {
          pages := pages + [currentPage];
          return Success(children);
        } else if next.value == SWITCH_PAGE {
          var page := ReadByte();
          if page.Failure? {
            return Failure(page.error);
          }
          assert unread[1] == page.value && unread[2..] == Unread();
          pages := pages + [currentPage];
          currentPage := page.value;
          continue;
        }
        ghost var before, page := pages, currentPage;
        var child := ReadChild(next.value, start);
        if child.Failure? {
          AheadFails(reg, children, before, page, unread, child.error);
          return Failure(child.error);
        }
        AheadChild(reg, children, child.value, before, page, unread, pages, currentPage, Unread());
        children := children + [child.value];
      }
    }

    /** One text, blob or child element whose first byte has just been read. */
    method ReadChild(next: byte, ghost start: nat) returns (r: Result<Node, Error>)
      requires Valid() && pos == start + 1 && src[start] == next && next != END && next != SWITCH_PAGE
      modifies this
      ensures Valid()
      ensures match r
              case Success(n) => && pos > start
                                 && ChildRead(reg, n, old(pages), old(currentPage), src[start..], pages, currentPage, Unread())
              case Failure(e) => ReadContent(reg, old(currentPage), src[start..]) == Err(e)
      decreases |src| - start, 1
    {
      assert src[start..][0] == next && src[start..][1..] == Unread();
      if next == STR_I {
        pages := pages + [currentPage];
        var s := ReadCStr();
        return match s case Success(v) => Success(Text(v)) case Failure(e) => Failure(e);
      } else if next == OPAQUE {
        pages := pages + [currentPage];
        var body := ReadOpaque();
        return match body case Success(v) => Success(Opaque(v)) case Failure(e) => Failure(e);
      } else {
        pos := pos - 1; // push back: it is the child's tag byte
        var child := ReadElement();
        return match child case Success(v) => Success(Elem(v)) case Failure(e) => Failure(e);
      }
    }

    /** Skips the string table, drains the page switches before the root, and reads the root. */
    method ReadBody(strTabLen: uint32) returns (r: Result<Element, Error>)
      requires Valid() && currentPage == 0
      modifies this
      ensures Valid()
      ensures match Codec.ReadBody(reg, strTabLen, old(Unread()))
              case Ok(e, page, rest) => r == Success(e) && currentPage == page && Unread() == rest
              case Err(e) => r == Failure(e)
    {
      if strTabLen > 0 {
        var table := ReadN(strTabLen);
        if table.Failure? {
          return Failure(table.error);
        }
      }
      ghost var drained := Codec.DrainSwitches(0, Unread());
      while PeekByte() == SWITCH_PAGE
        invariant Valid() && drained == Codec.DrainSwitches(currentPage, Unread())
        decreases |src| - pos
      {
        ghost var unread := Unread();
        var _ := ReadByte();
        var page := ReadByte();
        if page.Failure? {
          return Failure(page.error);
        }
        assert unread[1] == page.value && unread[2..] == Unread();
        currentPage := page.value;
      }
      r := ReadElement();
    }

    method ReadOpaque() returns (r: Result<Bytes, Error>)
      requires Valid()
      modifies this`pos
      ensures Valid() && pos >= old(pos)
      ensures match OpaqueBody(old(Unread()))
              case Ok(body, _, rest) => r == Success(body) && Unread() == rest
              case Err(e) => r == Failure(e)
    {
      var n := ReadMBUInt32();
      if n.Failure? {
        return Failure(n.error);
      }
      r := ReadN(n.value);
    }
  }

  lemma {:induction false} NoNulNoString(b: Bytes)
    requires NulFree(b)
    ensures CStr(b).None?
  {
    if b != [] { NoNulNoString(b[1..]); }
  }

  /** The outcome of reading on: the children with those gathered so far, and the pages with those of the tokens so far. */
  ghost function Ahead(reg: Pages, children: seq<Node>, pages: seq<byte>, page: byte, b: Bytes)
    : Parsed<(seq<Node>, seq<byte>)>
  {
    match ReadContent(reg, page, b)
    case Err(e) => Err(e)
    case Ok(nodes, after, rest) => Ok((children + nodes, pages + ContentPages(reg, page, b)), after, rest)
  }

  lemma {:induction false} AheadAtStart(reg: Pages, pages: seq<byte>, page: byte, b: Bytes)
    ensures Ahead(reg, [], pages, page, b)
         == match ReadContent(reg, page, b)
            case Ok(nodes, after, rest) => Ok((nodes, pages + ContentPages(reg, page, b)), after, rest)
            case Err(e) => Err(e)
  {
    hide ReadContent, ContentPages;
    var r := ReadContent(reg, page, b);
    assert r.Ok? ==> [] + r.value == r.value;
  }

  /** At the end of input, at END and at a page switch. */
  lemma AheadOneToken(reg: Pages, children: seq<Node>, pages: seq<byte>, page: byte, b: Bytes)
    ensures var r := Ahead(reg, children, pages, page, b);
            && (b == [] ==> r == Err(UnexpectedEof))
            && (b != [] && b[0] == END ==> r == Ok((children, pages + [page]), page, b[1..]))
            && (b != [] && b[0] == SWITCH_PAGE ==>
                  r == if |b| < 2 then Err(UnexpectedEof) else Ahead(reg, children, pages + [page], b[1], b[2..]))
  {
    assert children + [] == children;
    if |b| >= 2 && b[0] == SWITCH_PAGE && ReadContent(reg, b[1], b[2..]).Ok? {
      Associative(pages, [page], ContentPages(reg, b[1], b[2..]));
    }
  }

  /** A child was read: it comes before the other children, and its pages before the other pages. */
  ghost predicate ChildRead(reg: Pages, n: Node, pages: seq<byte>, page: byte, b: Bytes,
                            pages': seq<byte>, page': byte, b': Bytes)
  {
    var r, r' := ReadContent(reg, page, b), ReadContent(reg, page', b');
    && r == Prepend(n, r')
    && (r.Ok? ==> pages' + ContentPages(reg, page', b') == pages + ContentPages(reg, page, b))
  }

  lemma AheadChild(reg: Pages, children: seq<Node>, n: Node, pages: seq<byte>, page: byte, b: Bytes,
                   pages': seq<byte>, page': byte, b': Bytes)
    requires ChildRead(reg, n, pages, page, b, pages', page', b')
    ensures Ahead(reg, children, pages, page, b) == Ahead(reg, children + [n], pages', page', b')
  {
    hide ReadContent, ContentPages;
    var r := ReadContent(reg, page', b');
    if r.Ok? { Associative(children, [n], r.value); }
  }

  lemma {:induction false} AheadFails(reg: Pages, children: seq<Node>, pages: seq<byte>, page: byte, b: Bytes, e: Error)
    requires ReadContent(reg, page, b) == Err(e)
    ensures Ahead(reg, children, pages, page, b) == Err(e)
  {
    hide ReadContent, ContentPages;
  }

  /** Total on every input: a document or an error, exactly as `Codec.Unmarshal` says. */
  method Unmarshal(b: Bytes, reg: Pages) returns (r: Result<Document, Error>)
    ensures r == Codec.Unmarshal(reg, b)
  {
    var d := new Decoder(b, reg);
    var version := d.ReadByte();
    if version.Failure? {
      return Failure(version.error);
    }
    var publicID := d.ReadMBUInt32();
    if publicID.Failure? {
      return Failure(publicID.error);
    }
    var charset := d.ReadMBUInt32();
    if charset.Failure? {
      return Failure(charset.error);
    }
    var strTabLen := d.ReadMBUInt32();
    if strTabLen.Failure? {
      return Failure(strTabLen.error);
    }
    var root := d.ReadBody(strTabLen.value);
    if root.Failure? {
      return Failure(root.error);
    }
    return Success(Document(version.value, publicID.value, charset.value, Some(root.value)));
  }
}
