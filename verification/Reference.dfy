/** The byte format with every token spelled out, as WBXML 1.3 numbers them, and that the codec writes and reads it. */
module Reference {
  import opened Basics
  import opened Tree
  import opened Registry
  import opened Printer
  import Codec
  import Encoding
  import Grammar
  import MbUint
  import Parser
  import Shortest

  // ---- Writing ------------------------------------------------------------

  /** Section 5.1: seven bits a byte, most significant first, with the top bit on all but the last. */
  function Integer(v: uint32): Bytes {
    if v < 0x80 then [v]
    else if v < 0x4000 then [0x80 + v / 0x80, v % 0x80]
    else if v < 0x20_0000 then [0x80 + v / 0x4000, 0x80 + v / 0x80 % 0x80, v % 0x80]
    else if v < 0x1000_0000 then [0x80 + v / 0x20_0000, 0x80 + v / 0x4000 % 0x80, 0x80 + v / 0x80 % 0x80, v % 0x80]
    else [0x80 + v / 0x1000_0000, 0x80 + v / 0x20_0000 % 0x80, 0x80 + v / 0x4000 % 0x80, 0x80 + v / 0x80 % 0x80, v % 0x80]
  }

  function Id(reg: Pages, e: Element): byte {
    match reg.TagID(e.page, e.name) case Some(id) => id case None => 0
  }

  /** Section 5.8: SWITCH_PAGE is 00, END is 01, STR_I is 03, OPAQUE is C3, and 40 marks a tag with content. */
  function Spelled(reg: Pages, page: byte, n: Node): seq<int>
    decreases n, 1
  {
    match n
    case Text(s) => [0x03] + s + [0x00]
    case Opaque(b) => [0xC3] + Integer(|b| % 0x1_0000_0000) + b
    case Elem(e) =>
      (if e.page == page then [] else [0x00, e.page])
      + if e.children == [] then [Id(reg, e)]
        else [Id(reg, e) + 0x40] + SpelledAll(reg, e.page, e.children) + [0x01]
  }

  function SpelledAll(reg: Pages, page: byte, nodes: seq<Node>): seq<int>
    decreases nodes, 0
  {
    if nodes == [] then [] else Spelled(reg, page, nodes[0]) + SpelledAll(reg, EndPageNode(nodes[0], page), nodes[1..])
  }

  /** Version 1.3, public id 1 and UTF-8 stand for zero header fields; the string table is empty, and page 0 active. */
  function SpelledDocument(reg: Pages, d: Document): seq<int>
    requires d.root.Some?
  {
    [if d.version == 0 then 0x03 else d.version] + Integer(if d.publicID == 0 then 0x01 else d.publicID)
    + Integer(if d.charset == 0 then 0x6A else d.charset) + [0x00] + Spelled(reg, 0, Elem(d.root.value))
  }

  lemma {:induction false} LeadingOf(u: nat)
    ensures u == 0 ==> MbUint.Leading(u) == []
    ensures 0 < u < 0x80 ==> MbUint.Leading(u) == [0x80 + u]
    ensures u >= 0x80 ==> MbUint.Leading(u) == MbUint.Leading(u / 0x80) + [0x80 + u % 0x80]
  {
    if 0 < u < 0x80 { assert MbUint.Leading(u / 0x80) == []; }
  }

  lemma IntegerIsEncoded(v: uint32)
    ensures MbUint.Encode(v) == Integer(v)
  {
    hide MbUint.Leading;
    LeadingOf(v / 0x80);
    LeadingOf(v / 0x80 / 0x80);
    LeadingOf(v / 0x80 / 0x80 / 0x80);
    LeadingOf(v / 0x80 / 0x80 / 0x80 / 0x80);
    Quotients(v);
  }

  lemma Quotients(v: uint32)
    ensures v / 0x80 / 0x80 == v / 0x4000 && v / 0x4000 / 0x80 == v / 0x20_0000 && v / 0x20_0000 / 0x80 == v / 0x1000_0000
    ensures v / 0x1000_0000 < 0x10
  {
  }

  lemma {:induction false} NodeIsSpelled(reg: Pages, page: byte, n: Node)
    requires reg.WellFormed() && EncodableNode(reg, n)
    ensures Grammar.YieldItems(CanonNode(reg, page, n)) == Spelled(reg, page, n)
    decreases n, 1
  {
    hide Canon, MbUint.Encode, Integer, EncodableAll, Grammar.YieldItems;
    match n
    case Text(s) => Encoding.SingleYield(Grammar.Str(s));
    case Opaque(b) =>
      Encoding.SingleYield(Grammar.Blob(MbUint.Encode(|b| % 0x1_0000_0000), b));
      IntegerIsEncoded(|b| % 0x1_0000_0000);
    case Elem(e) =>
      ChildrenAreEncodable(reg, e);
      NodesAreSpelled(reg, e.page, e.children);
      Encoding.ElementYield(reg, page, e);
      TagIsSpelled(reg, e);
      var lead: seq<int> := if e.page == page then [] else [0x00, e.page];
      assert Encoding.ElementStart(reg, page, e) == lead + [TagByte(reg, e)];
      Associative<int>(lead, [TagByte(reg, e)], SpelledAll(reg, e.page, e.children) + [0x01]);
      Associative<int>([TagByte(reg, e)], SpelledAll(reg, e.page, e.children), [0x01]);
  }

  lemma {:induction false} ChildrenAreEncodable(reg: Pages, e: Element)
    requires EncodableNode(reg, Elem(e))
    ensures EncodableAll(reg, e.children) && reg.TagID(e.page, e.name).Some?
  {
  }

  lemma TagIsSpelled(reg: Pages, e: Element)
    requires reg.WellFormed() && reg.TagID(e.page, e.name).Some?
    ensures TagByte(reg, e) == if e.children == [] then Id(reg, e) else Id(reg, e) + 0x40
  {
    reg.LookupsAgree(e.page, Id(reg, e), e.name);
  }

  lemma {:induction false} NodesAreSpelled(reg: Pages, page: byte, nodes: seq<Node>)
    requires reg.WellFormed() && EncodableAll(reg, nodes)
    ensures Grammar.YieldItems(CanonAll(reg, page, nodes)) == SpelledAll(reg, page, nodes)
    decreases nodes, 0
  {
    hide CanonNode, Spelled, EncodableNode;
    if nodes != [] {
      var after := EndPageNode(nodes[0], page);
      NodeIsSpelled(reg, page, nodes[0]);
      NodesAreSpelled(reg, after, nodes[1..]);
      Shortest.YieldConcat(CanonNode(reg, page, nodes[0]), CanonAll(reg, after, nodes[1..]));
    }
  }

  /** Every document that can be encoded is written as the spelling says, byte for byte. */
  lemma MarshalIsSpelled(reg: Pages, d: Document)
    requires reg.WellFormed() && Codec.Marshal(reg, d).Success?
    ensures Codec.Marshal(reg, d).value == SpelledDocument(reg, d)
  {
    hide MbUint.Encode, Integer, Spelled, Canon, Grammar.Yield, FirstFault;
    var root, f := d.root.value, Codec.Filled(d);
    IntegerIsEncoded(f.publicID);
    IntegerIsEncoded(f.charset);
    IntegerIsEncoded(0);
    assert Integer(0) == [0x00] by { ZeroIsOneByte(); }
    EncodableRoot(reg, d);
    NodeIsSpelled(reg, 0, Elem(root));
    Encoding.ChildYield(reg, 0, root);
    Encoding.HeaderLayout(reg, d, root);
    var header, lead := Encoding.HeaderBytes(d), if root.page != 0 then [Grammar.SWITCH_PAGE, root.page] else [];
    Associative(header, lead, Grammar.Yield(Canon(reg, root)));
  }

  lemma ZeroIsOneByte()
    ensures Integer(0) == [0x00]
  {
  }

  lemma {:induction false} EncodableRoot(reg: Pages, d: Document)
    requires Codec.Marshal(reg, d).Success?
    ensures d.root.Some? && EncodableNode(reg, Elem(d.root.value))
  {
  }

  // ---- Reading ------------------------------------------------------------

  /** What is spelled is read back, header defaults included, whatever follows it. */
  lemma SpelledIsRead(reg: Pages, d: Document, b: Bytes, trailing: Bytes)
    requires reg.WellFormed() && Codec.Marshal(reg, d).Success? && OpaqueFits(d.root.value) && b == SpelledDocument(reg, d)
    ensures Codec.Unmarshal(reg, b + trailing)
         == Success(Document(if d.version == 0 then 0x03 else d.version, if d.publicID == 0 then 0x01 else d.publicID,
                             if d.charset == 0 then 0x6A else d.charset, d.root))
  {
    hide Codec.Marshal, OpaqueFits, SpelledDocument, Codec.ReadDocument;
    MarshalIsSpelled(reg, d);
    Codec.DecodesEncoded(reg, d, trailing);
  }

  /** What follows version 1.3, public id 1, UTF-8 and the length of the string table. */
  function Headed(tableLength: byte, rest: Bytes): Bytes { [0x03, 0x01, 0x6A, tableLength] + rest }

  /** A root without content on the page that is switched to before it. */
  function Bare(page: byte, id: byte): Bytes { [0x00, page, id] }

  /** A root whose only content is a switch to page 7. */
  function Switching(page: byte, id: byte): Bytes
    requires id <= 0x3F
  {
    [0x00, page, id + 0x40, 0x00, 0x07, 0x01]
  }

  /** The decoder takes more than the encoder writes: a string table is skipped, and page switches may come before the root
      and at the end of an element. */
  lemma ExtrasAreSkipped(reg: Pages, page: byte, id: byte, name: string, table: Bytes, trailing: Bytes)
    requires reg.WellFormed() && reg.TagID(page, name) == Some(id) && |table| < 0x80
    ensures id <= 0x3F
    ensures Codec.Unmarshal(reg, Headed(|table|, table + Bare(page, id) + trailing))
         == Success(Document(0x03, 0x01, 0x6A, Some(Element(page, name, []))))
    ensures Codec.Unmarshal(reg, Headed(0, Switching(page, id) + trailing))
         == Success(Document(0x03, 0x01, 0x6A, Some(Element(page, name, []))))
  {
    hide Codec.ReadDocument, MbUint.Denotes, Headed, Bare, Switching;
    reg.LookupsAgree(page, id, name);
    SmallIntegers(|table|);
    SmallIntegers(0);
    var d := Document(0x03, 0x01, 0x6A, Some(Element(page, name, [])));
    var plain := Codec.DocCst(0x03, [0x01], [0x6A], [|table|], table, [page], Grammar.Cst(id, []));
    SpellsPlain(page, id, table, trailing);
    Codec.ReadsDocument(reg, plain, d, trailing);
    var items := [Grammar.Switch(0x07)];
    assert items[1..] == [];
    var switched := Codec.DocCst(0x03, [0x01], [0x6A], [0x00], [], [page], Grammar.Cst(id + 0x40, items));
    SpellsSwitched(page, id, trailing);
    Codec.ReadsDocument(reg, switched, d, trailing);
  }

  lemma SmallIntegers(n: nat)
    requires n < 0x80
    ensures MbUint.Denotes([n], n) && MbUint.Denotes([0x01], 0x01) && MbUint.Denotes([0x6A], 0x6A)
  {
    assert [n][1..] == [] && [0x01 as byte][1..] == [] && [0x6A as byte][1..] == [];
  }

  lemma SpellsPlain(page: byte, id: byte, table: Bytes, trailing: Bytes)
    requires |table| < 0x80 && id <= 0x3F
    ensures Codec.YieldDoc(Codec.DocCst(0x03, [0x01], [0x6A], [|table|], table, [page], Grammar.Cst(id, []))) + trailing
         == Headed(|table|, table + Bare(page, id) + trailing)
  {
    var one := [page];
    assert one[1..] == [];
    assert Codec.YieldLeading(one) == [0x00, page];
    assert Grammar.Yield(Grammar.Cst(id, [])) == [id];
  }

  lemma SpellsSwitched(page: byte, id: byte, trailing: Bytes)
    requires id <= 0x3F
    ensures Codec.YieldDoc(Codec.DocCst(0x03, [0x01], [0x6A], [0x00], [], [page],
                                        Grammar.Cst(id + 0x40, [Grammar.Switch(0x07)]))) + trailing
         == Headed(0, Switching(page, id) + trailing)
  {
    var one, items := [page], [Grammar.Switch(0x07)];
    assert one[1..] == [] && items[1..] == [];
    assert Codec.YieldLeading(one) == [0x00, page];
    assert Grammar.YieldItems(items) == [0x00, 0x07];
    assert Grammar.Yield(Grammar.Cst(id + 0x40, items)) == [id + 0x40, 0x00, 0x07, 0x01];
  }

  /** An integer of more than five bytes is refused, and so is one that the input ends in. */
  lemma LongIntegersAreRefused(p: Bytes, rest: Bytes)
    requires forall i | 0 <= i < |p| :: p[i] >= 0x80
    ensures |p| >= 5 || rest == [] ==> MbUint.ReadFrom(p + rest).Err?
  {
    var b, r := p + rest, MbUint.ReadFrom(p + rest);
    if r.Ok? {
      MbUint.ReadIffForm(b, r.value, r.rest);
      var n := |b| - |r.rest|;
      assert MbUint.IsForm(b[..n]) && b[..n][n - 1] == b[n - 1] < 0x80;
      assert n > |p|;
      assert |p| < n <= 5 && n <= |p| + |rest|;
    }
  }

  /** And it refuses the rest: no input at all, a header alone, a root that is END, carries attributes or is unknown to its
      page, and a table longer than the input. */
  lemma OthersAreRefused(reg: Pages, tag: byte, table: byte, rest: Bytes)
    requires reg.WellFormed()
    ensures Codec.Unmarshal(reg, []).Failure? && Codec.Unmarshal(reg, Headed(0, [])).Failure?
    ensures tag == 0x01 || tag >= 0x80 || (tag != 0x00 && reg.TagName(0, tag % 0x40).None?) ==>
              Codec.Unmarshal(reg, Headed(0, [tag] + rest)).Failure?
    ensures table < 0x80 && |rest| < table ==> Codec.Unmarshal(reg, Headed(table, rest)).Failure?
  {
    hide Headed, Codec.ReadUint;
    ReadsHeader(0, []);
    ReadsHeader(0, [tag] + rest);
    assert ([tag] + rest)[0..] == [tag] + rest;
    if table < 0x80 { ReadsHeader(table, rest); }
  }

  /** The three header integers, in one byte each. */
  lemma ReadsHeader(table: byte, rest: Bytes)
    requires table < 0x80
    ensures var b := Headed(table, rest);
            && b != []
            && Codec.ReadUint(b[1..]) == Parser.Ok(0x01, 0, [0x6A, table] + rest)
            && Codec.ReadUint([0x6A, table] + rest) == Parser.Ok(0x6A, 0, [table] + rest)
            && Codec.ReadUint([table] + rest) == Parser.Ok(table, 0, rest)
  {
    hide MbUint.Denotes, Codec.ReadUint;
    SmallIntegers(table);
    var b := Headed(table, rest);
    assert b[1..] == [0x01] + ([0x6A, table] + rest);
    assert [0x6A, table] + rest == [0x6A] + ([table] + rest);
    Codec.ReadsUint([0x01], 0x01, [0x6A, table] + rest);
    Codec.ReadsUint([0x6A], 0x6A, [table] + rest);
    Codec.ReadsUint([table], table, rest);
  }
}
