/** The body grammar of WBXML 1.3 (section 5.3), as concrete syntax trees threaded by the active code page.

    A concrete tree records what the bytes spell, page switches included; `Derives` says which element it
    stands for. The parser and the printer are both proved against this, never against each other. */
module Grammar {
  import opened Basics
  import opened Tree
  import opened Registry
  import MbUint

  const SWITCH_PAGE: byte := 0x00
  const END: byte := 0x01
  const STR_I: byte := 0x03
  const OPAQUE: byte := 0xC3
  const CONTENT_FLAG: byte := 0x40
  const ATTRS_FLAG: byte := 0x80

  predicate HasContent(tag: byte) { tag / CONTENT_FLAG % 2 == 1 }
  predicate HasAttributes(tag: byte) { tag >= ATTRS_FLAG }
  function Identity(tag: byte): byte { tag % CONTENT_FLAG }

  predicate IsControl(b: byte) { b in {SWITCH_PAGE, END, STR_I, OPAQUE} }

  predicate NulFree(s: Bytes) { forall i | 0 <= i < |s| :: s[i] != 0 }

  /** Over a registry built by `Add`, a tag byte is never mistaken for a control token, with or without content. */
  lemma TagsAreNotControl(reg: Pages, page: byte, tag: byte)
    requires reg.WellFormed() && !HasAttributes(tag) && reg.TagName(page, Identity(tag)).Some?
    ensures !IsControl(tag)
  {
    reg.LookupsAgree(page, Identity(tag), reg.TagName(page, Identity(tag)).value);
  }

  // ---- Concrete syntax ----------------------------------------------------

  /** A tag byte and, when its content flag is set, the items up to END. */
  datatype Cst = Cst(tag: byte, items: seq<Item>)

  datatype Item =
    | Switch(page: byte)
    | Str(s: Bytes)
    | Blob(length: Bytes, body: Bytes)
    | Child(c: Cst)

  function Yield(c: Cst): (b: Bytes)
    ensures b != [] && b[0] == c.tag
    decreases c, 2
  {
    [c.tag] + if HasContent(c.tag) then YieldItems(c.items) + [END] else []
  }

  function YieldItems(items: seq<Item>): Bytes
    decreases items, 0
  {
    if items == [] then [] else YieldItem(items[0]) + YieldItems(items[1..])
  }

  function YieldItem(item: Item): Bytes
    decreases item, 1
  {
    match item
    case Switch(page) => [SWITCH_PAGE, page]
    case Str(s) => [STR_I] + s + [0]
    case Blob(length, body) => [OPAQUE] + length + body
    case Child(c) => Yield(c)
  }

  /** The page in force after the tree: its last switch, or the page before it. */
  function PageAfter(c: Cst, page: byte): byte
    decreases c, 2
  {
    PageAfterItems(c.items, page)
  }

  function PageAfterItems(items: seq<Item>, page: byte): byte
    decreases items, 0
  {
    if items == [] then page else PageAfterItems(items[1..], PageAfterItem(items[0], page))
  }

  function PageAfterItem(item: Item, page: byte): byte
    decreases item, 1
  {
    match item
    case Switch(p) => p
    case Child(c) => PageAfter(c, page)
    case _ => page
  }

  /** `c`, read with `page` active, stands for `e`. */
  ghost predicate Derives(reg: Pages, c: Cst, page: byte, e: Element)
    decreases c, 2
  {
    && !HasAttributes(c.tag)
    && e.page == page
    && reg.TagName(page, Identity(c.tag)) == Some(e.name)
    && (!HasContent(c.tag) ==> c.items == [])
    && DerivesAll(reg, c.items, page, e.children)
  }

  ghost predicate DerivesAll(reg: Pages, items: seq<Item>, page: byte, nodes: seq<Node>)
    decreases items, 0
  {
    if items == [] then nodes == []
    else if items[0].Switch? then DerivesAll(reg, items[1..], items[0].page, nodes)
    else
      && nodes != []
      && DerivesItem(reg, items[0], page, nodes[0])
      && DerivesAll(reg, items[1..], PageAfterItem(items[0], page), nodes[1..])
  }

  ghost predicate DerivesItem(reg: Pages, item: Item, page: byte, n: Node)
    decreases item, 1
  {
    match item
    case Switch(_) => false
    case Str(s) => n == Text(s) && NulFree(s)
    case Blob(length, body) => n == Opaque(body) && |body| < TWO_32 && MbUint.Denotes(length, |body|)
    case Child(c) => n.Elem? && Derives(reg, c, page, n.e)
  }

  /** The strict BNF: a page switch stands only directly before a tag. */
  predicate Strict(c: Cst)
    decreases c, 1
  {
    StrictAll(c.items)
  }

  predicate StrictAll(items: seq<Item>)
    decreases items, 0
  {
    items == [] ||
    var head := items[0];
    && (head.Switch? ==> |items| > 1 && items[1].Child?)
    && (head.Child? ==> assert head.c < head; Strict(head.c))
    && StrictAll(items[1..])
  }

  function Switches(c: Cst): nat
    decreases c, 1
  {
    SwitchesIn(c.items)
  }

  function SwitchesIn(items: seq<Item>): nat
    decreases items, 0
  {
    if items == [] then 0
    else
      var head := items[0];
      (match head
       case Switch(_) => 1
       case Child(c) => assert c < head; Switches(c)
       case _ => 0)
      + SwitchesIn(items[1..])
  }
}
