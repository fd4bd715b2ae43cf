/** Whole documents: `Marshal` and `Unmarshal` as functions, and what holds between them on every input. */
module Codec {
  import opened Basics
  import opened Tree
  import opened Registry
  import opened Grammar
  import opened Printer
  import opened Parser
  import Shortest
  import MbUint

  const DEFAULT_VERSION: byte := 0x03
  const DEFAULT_PUBLIC_ID: uint32 := 0x01
  const DEFAULT_CHARSET: uint32 := 0x6A

  /** The document with its zero header fields replaced by the defaults. */
  function Filled(d: Document): Document {
    d.(version := if d.version == 0 then DEFAULT_VERSION else d.version,
       publicID := if d.publicID == 0 then DEFAULT_PUBLIC_ID else d.publicID,
       charset := if d.charset == 0 then DEFAULT_CHARSET else d.charset)
  }

  // ---- The document grammar -----------------------------------------------

  /** The start production: header, string table, page switches before the root, and the root. */
  datatype DocCst = DocCst(version: byte, publicID: Bytes, charset: Bytes, tableLength: Bytes, table: Bytes,
                           leading: seq<byte>, root: Cst)

  function YieldDoc(c: DocCst): Bytes {
    [c.version] + (c.publicID + (c.charset + (c.tableLength + (c.table + (YieldLeading(c.leading) + Yield(c.root))))))
  }

  function YieldLeading(pages: seq<byte>): Bytes {
    if pages == [] then [] else [SWITCH_PAGE, pages[0]] + YieldLeading(pages[1..])
  }

  function LeadingPage(pages: seq<byte>, page: byte): byte {
    if pages == [] then page else LeadingPage(pages[1..], pages[0])
  }

  ghost predicate DerivesDoc(reg: Pages, c: DocCst, d: Document) {
    && c.version == d.version
    && MbUint.Denotes(c.publicID, d.publicID) && MbUint.Denotes(c.charset, d.charset)
    && |c.table| < TWO_32 && MbUint.Denotes(c.tableLength, |c.table|)
    && d.root.Some? && Derives(reg, c.root, LeadingPage(c.leading, 0), d.root.value)
  }

  // ---- Unmarshal ----------------------------------------------------------

  function ReadUint(b: Bytes): (r: Parsed<uint32>)
    ensures r.Ok? ==> |r.rest| < |b|
  {
    match MbUint.ReadFrom(b)
    case Err(e) => Err(FromMb(e))
    case Ok(v, rest) => Ok(v, 0, rest)
  }

  /** Page switches before the root. */
  function DrainSwitches(page: byte, b: Bytes): (r: Parsed<()>)
    decreases |b|
  {
    if b == [] || b[0] != SWITCH_PAGE then Ok((), page, b)
    else if |b| < 2 then Err(UnexpectedEof)
    else DrainSwitches(b[1], b[2..])
  }

  /** Everything after the three header integers: the string table is skipped. */
  function ReadBody(reg: Pages, tableLength: uint32, b: Bytes): Parsed<Element> {
    if tableLength > |b| then Err(UnexpectedEof)
    else
      match DrainSwitches(0, b[tableLength..])
      case Err(e) => Err(e)
      case Ok(_, page, rest) => ReadElement(reg, page, rest)
  }

  /** The document and the bytes left over after it. */
  function ReadDocument(reg: Pages, b: Bytes): Parsed<Document> {
    if b == [] then Err(UnexpectedEof)
    else
      match ReadUint(b[1..])
      case Err(e) => Err(e)
      case Ok(publicID, _, b1) =>
        match ReadUint(b1)
        case Err(e) => Err(e)
        case Ok(charset, _, b2) =>
          match ReadUint(b2)
          case Err(e) => Err(e)
          case Ok(tableLength, _, b3) =>
            match ReadBody(reg, tableLength, b3)
            case Err(e) => Err(e)
            case Ok(root, page, rest) => Ok(Document(b[0], publicID, charset, Some(root)), page, rest)
  }

  function Unmarshal(reg: Pages, b: Bytes): Result<Document, Parser.Error> {
    match ReadDocument(reg, b)
    case Err(e) => Failure(e)
    case Ok(d, _, _) => Success(d)
  }

  lemma ReadsUint(p: Bytes, v: uint32, rest: Bytes)
    requires MbUint.Denotes(p, v)
    ensures ReadUint(p + rest) == Ok(v, 0, rest)
  {
    assert (p + rest)[..|p|] == p;
    MbUint.ReadIffForm(p + rest, v, rest);
  }

  lemma UintHasForm(b: Bytes) returns (p: Bytes)
    requires ReadUint(b).Ok?
    ensures b == p + ReadUint(b).rest && MbUint.Denotes(p, ReadUint(b).value)
  {
    var r := MbUint.ReadFrom(b);
    MbUint.ReadIffForm(b, r.value, r.rest);
    p := b[..|b| - |r.rest|];
  }

  lemma {:induction false} DrainsLeading(pages: seq<byte>, page: byte, b: Bytes)
    requires b != [] && b[0] != SWITCH_PAGE
    ensures DrainSwitches(page, YieldLeading(pages) + b) == Ok((), LeadingPage(pages, page), b)
    decreases pages
  {
    if pages == [] {
      assert YieldLeading(pages) + b == b;
    } else {
      assert (YieldLeading(pages) + b)[2..] == YieldLeading(pages[1..]) + b;
      DrainsLeading(pages[1..], pages[0], b);
    }
  }

  lemma {:induction false} DrainedPages(page: byte, b: Bytes) returns (pages: seq<byte>)
    requires DrainSwitches(page, b).Ok?
    ensures b == YieldLeading(pages) + DrainSwitches(page, b).rest
    ensures LeadingPage(pages, page) == DrainSwitches(page, b).page
    decreases |b|
  {
    if b == [] || b[0] != SWITCH_PAGE {
      pages := [];
    } else {
      var more := DrainedPages(b[1], b[2..]);
      pages := [b[1]] + more;
      assert pages[1..] == more;
      Associative([SWITCH_PAGE, b[1]], YieldLeading(more), DrainSwitches(b[1], b[2..]).rest);
      assert b == [SWITCH_PAGE, b[1]] + b[2..];
    }
  }

  lemma {:induction false} ReadsBody(reg: Pages, c: DocCst, root: Element, rest: Bytes)
    requires reg.WellFormed() && Derives(reg, c.root, LeadingPage(c.leading, 0), root) && |c.table| < TWO_32
    ensures ReadBody(reg, |c.table|, c.table + (YieldLeading(c.leading) + (Yield(c.root) + rest)))
         == Ok(root, PageAfter(c.root, root.page), rest)
  {
    var b4 := Yield(c.root) + rest;
    var b3 := YieldLeading(c.leading) + b4;
    assert (c.table + b3)[|c.table|..] == b3;
    TagsAreNotControl(reg, root.page, c.root.tag);
    DrainsLeading(c.leading, 0, b4);
    ReadsDerivation(reg, c.root, root.page, root, rest);
  }

  lemma Reassociate(c: DocCst, rest: Bytes)
    ensures YieldDoc(c) + rest
         == [c.version] + (c.publicID + (c.charset + (c.tableLength + (c.table + (YieldLeading(c.leading) + (Yield(c.root) + rest))))))
  {
  }

  /** Completeness of the decoder against the document grammar, whatever follows. */
  lemma ReadsDocument(reg: Pages, c: DocCst, d: Document, rest: Bytes)
    requires reg.WellFormed() && DerivesDoc(reg, c, d)
    ensures ReadDocument(reg, YieldDoc(c) + rest) == Ok(d, PageAfter(c.root, d.root.value.page), rest)
  {
    Reassociate(c, rest);
    var b3 := c.table + (YieldLeading(c.leading) + (Yield(c.root) + rest));
    var b2 := c.tableLength + b3;
    var b1 := c.charset + b2;
    ReadsUint(c.publicID, d.publicID, b1);
    ReadsUint(c.charset, d.charset, b2);
    ReadsUint(c.tableLength, |c.table|, b3);
    ReadsBody(reg, c, d.root.value, rest);
    assert (YieldDoc(c) + rest)[1..] == c.publicID + b1;
  }

  lemma BodyHasDerivation(reg: Pages, tableLength: uint32, b: Bytes) returns (table: Bytes, leading: seq<byte>, root: Cst)
    requires ReadBody(reg, tableLength, b).Ok?
    ensures var r := ReadBody(reg, tableLength, b);
            && |table| == tableLength
            && b == table + (YieldLeading(leading) + (Yield(root) + r.rest))
            && Derives(reg, root, LeadingPage(leading, 0), r.value) && PageAfter(root, r.value.page) == r.page
  {
    table := b[..tableLength];
    leading := DrainedPages(0, b[tableLength..]);
    var drained := DrainSwitches(0, b[tableLength..]);
    root := ReadHasDerivation(reg, drained.page, drained.rest);
    assert b == table + b[tableLength..];
  }

  /** Soundness of the decoder: every accepted input is a derivation of what was returned, then the rest. */
  lemma DocumentHasDerivation(reg: Pages, b: Bytes) returns (c: DocCst)
    requires ReadDocument(reg, b).Ok?
    ensures var r := ReadDocument(reg, b);
            b == YieldDoc(c) + r.rest && DerivesDoc(reg, c, r.value) && PageAfter(c.root, r.value.root.value.page) == r.page
  {
    var publicID := UintHasForm(b[1..]);
    var b1 := ReadUint(b[1..]).rest;
    var charset := UintHasForm(b1);
    var b2 := ReadUint(b1).rest;
    var tableLength := UintHasForm(b2);
    var b3 := ReadUint(b2).rest;
    var table, leading, root := BodyHasDerivation(reg, ReadUint(b2).value, b3);
    c := DocCst(b[0], publicID, charset, tableLength, table, leading, root);
    var r := ReadDocument(reg, b);
    Reassociate(c, r.rest);
    assert b == [b[0]] + b[1..];
  }

  // ---- Marshal ------------------------------------------------------------

  function CanonDoc(reg: Pages, d: Document, root: Element): DocCst {
    var f := Filled(d);
    DocCst(f.version, MbUint.Encode(f.publicID), MbUint.Encode(f.charset), MbUint.Encode(0), [],
           if root.page == 0 then [] else [root.page], Canon(reg, root))
  }

  function Marshal(reg: Pages, d: Document): Result<Bytes, Fault> {
    match d.root
    case None => Failure(NilRoot)
    case Some(root) =>
      match FirstFault(reg, root)
      case Some(f) => Failure(f)
      case None => Success(YieldDoc(CanonDoc(reg, d, root)))
  }

  lemma CanonDocDerives(reg: Pages, d: Document)
    requires reg.WellFormed() && Marshal(reg, d).Success? && OpaqueFits(d.root.value)
    ensures DerivesDoc(reg, CanonDoc(reg, d, d.root.value), Filled(d))
  {
    CanonDerives(reg, d.root.value);
    MbUint.EncodeDenotes(Filled(d).publicID);
    MbUint.EncodeDenotes(Filled(d).charset);
    MbUint.EncodeDenotes(0);
  }

  // ---- Decoding what was encoded ------------------------------------------

  /** For every tree whose tags are registered, whose text is NUL-free and whose blobs fit, and any trailing bytes. */
  lemma DecodesEncoded(reg: Pages, d: Document, trailing: Bytes)
    requires reg.WellFormed() && Marshal(reg, d).Success? && OpaqueFits(d.root.value)
    ensures ReadDocument(reg, Marshal(reg, d).value + trailing) == Ok(Filled(d), EndPage(d.root.value), trailing)
  {
    CanonDocDerives(reg, d);
    CanonEndPage(reg, d.root.value);
    ReadsDocument(reg, CanonDoc(reg, d, d.root.value), Filled(d), trailing);
  }

  /** `Marshal` succeeds exactly on a root with registered tags and NUL-free text, and then `Unmarshal` gives the
      document back, defaults filled in, exactly when every opaque blob is shorter than 2^32 bytes. */
  lemma {:induction false} RoundTrip(reg: Pages, d: Document)
    requires reg.WellFormed()
    ensures Marshal(reg, d).Success? <==> d.root.Some? && Encodable(reg, d.root.value)
    ensures Marshal(reg, d).Success? ==>
              (Unmarshal(reg, Marshal(reg, d).value) == Success(Filled(d)) <==> OpaqueFits(d.root.value))
  {
    if Marshal(reg, d).Success? {
      var b := Marshal(reg, d).value;
      if OpaqueFits(d.root.value) {
        DecodesEncoded(reg, d, []);
        assert b + [] == b;
      }
      if Unmarshal(reg, b) == Success(Filled(d)) {
        DecodedIsEncodable(reg, b);
      }
    }
  }

  /** The encoder accepts a blob of 2^32 bytes, writes its length as 0, and the document does not survive. */
  lemma OversizeBlobIsLost(reg: Pages, name: string)
    requires reg.WellFormed() && reg.TagID(0, name).Some?
    ensures var d := DocumentOf(Element(0, name, [Opaque(seq(TWO_32, _ => 0))]));
            Marshal(reg, d).Success? && Unmarshal(reg, Marshal(reg, d).value) != Success(Filled(d))
  {
    var blob: Bytes := seq(TWO_32, _ => 0);
    hide EncodableAll, OpaqueFitsAll;
    SingleNode(reg, Opaque(blob));
    RoundTrip(reg, DocumentOf(Element(0, name, [Opaque(blob)])));
  }

  /** The output is self-delimiting and injective up to defaults: equal streams hold equal documents. */
  lemma MarshalIsInjective(reg: Pages, d: Document, t: Bytes, d': Document, t': Bytes)
    requires reg.WellFormed() && Marshal(reg, d).Success? && Marshal(reg, d').Success?
    requires OpaqueFits(d.root.value) && OpaqueFits(d'.root.value)
    requires Marshal(reg, d).value + t == Marshal(reg, d').value + t'
    ensures Filled(d) == Filled(d') && t == t'
  {
    DecodesEncoded(reg, d, t);
    DecodesEncoded(reg, d', t');
  }

  // ---- Encoding what was decoded ------------------------------------------

  lemma {:induction false} DecodedIsEncodable(reg: Pages, b: Bytes)
    requires reg.WellFormed() && ReadDocument(reg, b).Ok?
    ensures var d := ReadDocument(reg, b).value;
            d.root.Some? && Encodable(reg, d.root.value) && OpaqueFits(d.root.value)
  {
    var c := DocumentHasDerivation(reg, b);
    DerivedIsEncodable(reg, c.root, LeadingPage(c.leading, 0), ReadDocument(reg, b).value.root.value);
  }

  /** Marshal after Unmarshal is total on accepted inputs, loses only zero header fields, and is idempotent. */
  lemma Canonicalises(reg: Pages, b: Bytes)
    requires reg.WellFormed()
    ensures Unmarshal(reg, b).Success? ==>
              var d := Unmarshal(reg, b).value;
              && Marshal(reg, d).Success?
              && Unmarshal(reg, Marshal(reg, d).value) == Success(Filled(d))
              && Marshal(reg, Filled(d)) == Marshal(reg, d)
  {
    if Unmarshal(reg, b).Success? {
      DecodedIsEncodable(reg, b);
      RoundTrip(reg, Unmarshal(reg, b).value);
    }
  }

  /** The bytes a document is written as, all of its blobs fitting their length. */
  ghost predicate Produces(reg: Pages, d: Document, b: Bytes) {
    d.root.Some? && OpaqueFits(d.root.value) && Marshal(reg, d) == Success(b)
  }

  /** Decoding and encoding gives the same bytes back exactly for the inputs the encoder can produce. */
  lemma ByteEqualIffProduced(reg: Pages, b: Bytes)
    requires reg.WellFormed()
    ensures (Unmarshal(reg, b).Success? && Marshal(reg, Unmarshal(reg, b).value) == Success(b)) <==> exists d :: Produces(reg, d, b)
  {
    hide Marshal, Unmarshal, Encodable;
    if Unmarshal(reg, b).Success? && Marshal(reg, Unmarshal(reg, b).value) == Success(b) {
      AcceptedIsEncodable(reg, b);
      assert Produces(reg, Unmarshal(reg, b).value, b);
    }
    if d :| Produces(reg, d, b) {
      RoundTrip(reg, d);
      FilledMarshalsAlike(reg, d);
    }
  }

  lemma AcceptedIsEncodable(reg: Pages, b: Bytes)
    requires reg.WellFormed() && Unmarshal(reg, b).Success?
    ensures Unmarshal(reg, b).value.root.Some? && OpaqueFits(Unmarshal(reg, b).value.root.value)
  {
    DecodedIsEncodable(reg, b);
  }

  lemma FilledMarshalsAlike(reg: Pages, d: Document)
    ensures Filled(Filled(d)) == Filled(d) && Marshal(reg, Filled(d)) == Marshal(reg, d)
  {
  }

  /** What follows an accepted document never changes what is read. */
  lemma AcceptedPrefixDecides(reg: Pages, b: Bytes, t: Bytes)
    requires reg.WellFormed()
    ensures var r := ReadDocument(reg, b);
            r.Ok? ==> ReadDocument(reg, b + t) == Ok(r.value, r.page, r.rest + t)
  {
    var r := ReadDocument(reg, b);
    if r.Ok? {
      var c := DocumentHasDerivation(reg, b);
      ReadsDocument(reg, c, r.value, r.rest + t);
      Associative(YieldDoc(c), r.rest, t);
    }
  }

  // ---- Size ---------------------------------------------------------------

  lemma {:induction false} LeadingCost(pages: seq<byte>, page: byte)
    ensures |YieldLeading(pages)| >= 2 * Shortest.Differ(page, LeadingPage(pages, page))
    decreases pages
  {
    if pages != [] { LeadingCost(pages[1..], pages[0]); }
  }

  lemma HeaderCost(reg: Pages, c: DocCst, d: Document)
    requires DerivesDoc(reg, c, d)
    ensures |c.publicID| >= |MbUint.Encode(Filled(d).publicID)|
    ensures |c.charset| >= |MbUint.Encode(Filled(d).charset)|
    ensures |c.tableLength| >= |MbUint.Encode(0)|
  {
    MbUint.EncodeIsShortest(c.publicID, d.publicID);
    MbUint.EncodeIsShortest(c.charset, d.charset);
    assert |MbUint.Encode(0)| == |MbUint.Encode(0x01)| == |MbUint.Encode(0x6A)| == 1;
  }

  lemma YieldDocLength(c: DocCst)
    ensures |YieldDoc(c)| == 1 + |c.publicID| + |c.charset| + |c.tableLength| + |c.table| + |YieldLeading(c.leading)| + |Yield(c.root)|
  {
  }

  lemma BodyCost(reg: Pages, c: DocCst, d: Document)
    requires reg.WellFormed() && DerivesDoc(reg, c, d)
    ensures var canon := CanonDoc(reg, d, d.root.value);
            |YieldLeading(c.leading)| + |Yield(c.root)| >= |YieldLeading(canon.leading)| + |Yield(canon.root)|
  {
    var root := d.root.value;
    LeadingCost(c.leading, 0);
    assert [root.page][1..] == [];
    assert |YieldLeading(CanonDoc(reg, d, root).leading)| == 2 * Shortest.Differ(0, root.page);
    Shortest.BytesNeeded(reg, c.root, root.page, root);
    Shortest.SwitchesNeeded(reg, c.root, root.page, root);
    Shortest.CanonSwitches(reg, root);
  }

  lemma CanonIsShortest(reg: Pages, c: DocCst, d: Document)
    requires reg.WellFormed() && DerivesDoc(reg, c, d)
    ensures |YieldDoc(CanonDoc(reg, d, d.root.value))| <= |YieldDoc(c)|
  {
    HeaderCost(reg, c, d);
    BodyCost(reg, c, d);
    YieldDocLength(c);
    YieldDocLength(CanonDoc(reg, d, d.root.value));
  }

  /** No input that decodes to a document is shorter than the encoding `Marshal` gives it. */
  lemma MarshalIsShortest(reg: Pages, b: Bytes)
    requires reg.WellFormed()
    ensures Unmarshal(reg, b).Success? ==>
              && Marshal(reg, Unmarshal(reg, b).value).Success?
              && |Marshal(reg, Unmarshal(reg, b).value).value| <= |b| - |ReadDocument(reg, b).rest|
  {
    if Unmarshal(reg, b).Success? {
      var c := DocumentHasDerivation(reg, b);
      DecodedIsEncodable(reg, b);
      CanonIsShortest(reg, c, Unmarshal(reg, b).value);
    }
  }

  /** `Marshal` writes one page switch for each page change of the tags in document order, starting from page 0,
      and no input that decodes to the same document holds fewer. */
  lemma SwitchesAreMinimal(reg: Pages, c: DocCst, d: Document)
    requires reg.WellFormed() && DerivesDoc(reg, c, d)
    ensures var canon := CanonDoc(reg, d, d.root.value);
            |canon.leading| + Switches(canon.root) == Shortest.Changes(0, Preorder(d.root.value))
            <= |c.leading| + Switches(c.root)
  {
    var root := d.root.value;
    Shortest.CanonSwitches(reg, root);
    Shortest.SwitchesNeeded(reg, c.root, root.page, root);
    LeadingCount(c.leading, 0);
  }

  lemma {:induction false} LeadingCount(pages: seq<byte>, page: byte)
    ensures |pages| >= Shortest.Differ(page, LeadingPage(pages, page))
    decreases pages
  {
    if pages != [] { LeadingCount(pages[1..], pages[0]); }
  }
}
