/** The encoder switches pages as rarely as any encoding can, and no accepted encoding is shorter than its own. */
module Shortest {
  import opened Basics
  import opened Tree
  import opened Registry
  import opened Grammar
  import opened Printer
  import MbUint

  /** The number of page changes along a sequence of tags, starting from an active page. */
  function Changes(page: byte, s: seq<Element>): nat
    decreases s
  {
    if s == [] then 0 else Differ(page, s[0].page) + Changes(s[0].page, s[1..])
  }

  function Differ(a: byte, b: byte): nat {
    if a == b then 0 else 1
  }

  function LastPage(page: byte, s: seq<Element>): byte {
    if s == [] then page else s[|s| - 1].page
  }

  lemma {:induction false} ChangesConcat(page: byte, s: seq<Element>, t: seq<Element>)
    ensures Changes(page, s + t) == Changes(page, s) + Changes(LastPage(page, s), t)
    decreases s
  {
    if s == [] {
      assert s + t == t;
    } else {
      assert (s + t)[1..] == s[1..] + t;
      ChangesConcat(s[0].page, s[1..], t);
    }
  }

  /** Starting from another page costs at most one switch, and nothing if it also ends elsewhere. */
  lemma {:induction false} StartShift(m: byte, m': byte, s: seq<Element>)
    ensures Changes(m, s) + Differ(LastPage(m, s), LastPage(m', s)) <= Changes(m', s) + Differ(m, m')
  {
  }

  lemma {:induction false} SwitchesConcat(a: seq<Item>, b: seq<Item>)
    ensures SwitchesIn(a + b) == SwitchesIn(a) + SwitchesIn(b)
    decreases a
  {
    if a == [] {
      assert a + b == b;
    } else {
      assert (a + b)[1..] == a[1..] + b;
      SwitchesConcat(a[1..], b);
    }
  }

  // ---- The number of switches the encoder emits ---------------------------

  lemma {:induction false} LastPageIsEndPage(e: Element, page: byte)
    ensures LastPage(page, Preorder(e)) == EndPage(e)
    decreases e, 1
  {
    LastPageIsEndPageAll(e.children, e.page);
  }

  lemma {:induction false} LastPageIsEndPageAll(nodes: seq<Node>, page: byte)
    ensures LastPage(page, PreorderAll(nodes)) == EndPageAll(nodes, page)
    decreases nodes, 0
  {
    if nodes != [] {
      LastPageIsEndPageAll(nodes[1..], EndPageNode(nodes[0], page));
      if nodes[0].Elem? {
        assert nodes[0].e < nodes[0];
        LastPageIsEndPage(nodes[0].e, page);
      }
    }
  }

  /** One switch for every page change in document order, and no other. */
  lemma {:induction false} CanonSwitches(reg: Pages, e: Element)
    ensures Changes(e.page, Preorder(e)) == Switches(Canon(reg, e))
    decreases e, 1
  {
    CanonAllSwitches(reg, e.page, e.children);
    assert Preorder(e)[1..] == PreorderAll(e.children);
  }

  lemma {:induction false} CanonAllSwitches(reg: Pages, page: byte, nodes: seq<Node>)
    ensures SwitchesIn(CanonAll(reg, page, nodes)) == Changes(page, PreorderAll(nodes))
    decreases nodes, 0
  {
    if nodes != [] {
      var n, after := nodes[0], EndPageNode(nodes[0], page);
      var rest := PreorderAll(nodes[1..]);
      SwitchesConcat(CanonNode(reg, page, n), CanonAll(reg, after, nodes[1..]));
      CanonAllSwitches(reg, after, nodes[1..]);
      if n.Elem? {
        assert n.e < n;
        CanonSwitches(reg, n.e);
        CanonChildSwitches(reg, page, n.e);
        LastPageIsEndPage(n.e, page);
        ChangesConcat(page, Preorder(n.e), rest);
      } else {
        assert PreorderAll(nodes) == rest;
      }
    }
  }

  lemma {:induction false} CanonChildSwitches(reg: Pages, page: byte, e: Element)
    requires Changes(e.page, Preorder(e)) == Switches(Canon(reg, e))
    ensures SwitchesIn(CanonNode(reg, page, Elem(e))) == Changes(page, Preorder(e))
  {
    var child := [Child(Canon(reg, e))];
    assert child[1..] == [] && SwitchesIn(child) == Switches(Canon(reg, e));
    SwitchesConcat(Lead(page, e.page), child);
    assert [Switch(e.page)][1..] == [];
  }

  // ---- No derivation switches less often ----------------------------------

  /** Every derivation pays for each page change, and once more if it ends on a page the encoder would not. */
  lemma {:induction false} SwitchesNeeded(reg: Pages, c: Cst, page: byte, e: Element)
    requires Derives(reg, c, page, e)
    ensures Switches(c) >= Changes(page, Preorder(e)) + Differ(PageAfter(c, page), EndPage(e))
    decreases c, 1
  {
    SwitchesNeededAll(reg, c.items, page, e.children);
    assert Preorder(e)[1..] == PreorderAll(e.children);
  }

  lemma {:induction false} SwitchesNeededAll(reg: Pages, items: seq<Item>, page: byte, nodes: seq<Node>)
    requires DerivesAll(reg, items, page, nodes)
    ensures SwitchesIn(items) >= Changes(page, PreorderAll(nodes)) + Differ(PageAfterItems(items, page), EndPageAll(nodes, page))
    decreases items, 0
  {
    LastPageIsEndPageAll(nodes, page);
    if items != [] {
      var head, tail := items[0], items[1..];
      if head.Switch? {
        SwitchesNeededAll(reg, tail, head.page, nodes);
        LastPageIsEndPageAll(nodes, head.page);
        StartShift(page, head.page, PreorderAll(nodes));
      } else {
        var rest, mid := PreorderAll(nodes[1..]), PageAfterItem(head, page);
        SwitchesNeededAll(reg, tail, mid, nodes[1..]);
        LastPageIsEndPageAll(nodes[1..], mid);
        if head.Child? {
          assert head.c < head;
          var e := nodes[0].e;
          SwitchesNeeded(reg, head.c, page, e);
          LastPageIsEndPage(e, page);
          LastPageIsEndPageAll(nodes[1..], EndPage(e));
          ChangesConcat(page, Preorder(e), rest);
          StartShift(EndPage(e), mid, rest);
        } else {
          assert PreorderAll(nodes) == rest;
        }
      }
    }
  }

  // ---- No derivation is shorter -------------------------------------------

  lemma {:induction false} YieldConcat(a: seq<Item>, b: seq<Item>)
    ensures YieldItems(a + b) == YieldItems(a) + YieldItems(b)
    decreases a
  {
    if a == [] {
      assert a + b == b;
    } else {
      assert (a + b)[1..] == a[1..] + b;
      YieldConcat(a[1..], b);
    }
  }

  /** Leaving switches aside, no derivation spends fewer bytes than the canonical one. */
  lemma {:induction false} BytesNeeded(reg: Pages, c: Cst, page: byte, e: Element)
    requires reg.WellFormed() && Derives(reg, c, page, e)
    ensures |Yield(c)| - 2 * Switches(c) >= |Yield(Canon(reg, e))| - 2 * Switches(Canon(reg, e))
    decreases c, 1
  {
    DerivedIsEncodable(reg, c, page, e);
    TagByteFlags(reg, e);
    BytesNeededAll(reg, c.items, page, e.children, e.page);
  }

  lemma {:induction false} BytesNeededAll(reg: Pages, items: seq<Item>, page: byte, nodes: seq<Node>, from: byte)
    requires reg.WellFormed() && DerivesAll(reg, items, page, nodes)
    ensures |YieldItems(items)| - 2 * SwitchesIn(items)
         >= |YieldItems(CanonAll(reg, from, nodes))| - 2 * SwitchesIn(CanonAll(reg, from, nodes))
    decreases items, 0
  {
    if items != [] {
      var head, tail := items[0], items[1..];
      if head.Switch? {
        BytesNeededAll(reg, tail, head.page, nodes, from);
      } else {
        var canon, after := CanonNode(reg, from, nodes[0]), EndPageNode(nodes[0], from);
        BytesNeededAll(reg, tail, PageAfterItem(head, page), nodes[1..], after);
        if head.Child? {
          assert head.c < head;
          BytesNeeded(reg, head.c, page, nodes[0].e);
        }
        BytesNeededItem(reg, head, page, nodes[0], from);
        YieldConcat(canon, CanonAll(reg, after, nodes[1..]));
        SwitchesConcat(canon, CanonAll(reg, after, nodes[1..]));
        assert SwitchesIn(items) == SwitchesIn([head]) + SwitchesIn(tail) by {
          SwitchesConcat([head], tail);
          assert [head] + tail == items;
        }
      }
    }
  }

  /** Beyond its switches, an item of the canonical form costs what its last token costs. */
  lemma {:induction false} LeadIsFree(from: byte, to: byte, last: Item)
    ensures var items := Lead(from, to) + [last];
            |YieldItems(items)| - 2 * SwitchesIn(items) == |YieldItem(last)| - 2 * SwitchesIn([last])
  {
    YieldConcat(Lead(from, to), [last]);
    SwitchesConcat(Lead(from, to), [last]);
    assert [last][1..] == [] && [Switch(to)][1..] == [];
  }

  lemma {:induction false} BytesNeededItem(reg: Pages, head: Item, page: byte, n: Node, from: byte)
    requires reg.WellFormed() && DerivesItem(reg, head, page, n)
    requires head.Child? ==> |Yield(head.c)| - 2 * Switches(head.c) >= |Yield(Canon(reg, n.e))| - 2 * Switches(Canon(reg, n.e))
    ensures |YieldItem(head)| - 2 * SwitchesIn([head])
         >= |YieldItems(CanonNode(reg, from, n))| - 2 * SwitchesIn(CanonNode(reg, from, n))
  {
    hide Derives, Canon, Yield, Switches, MbUint.Encode;
    assert [head][1..] == [];
    var canon := CanonNode(reg, from, n);
    match n
    case Elem(e) =>
      LeadIsFree(from, e.page, Child(Canon(reg, e)));
      assert [Child(Canon(reg, e))][1..] == [];
    case Text(s) =>
      LeadIsFree(0, 0, Str(s));
      assert Lead(0, 0) + [Str(s)] == canon;
    case Opaque(b) =>
      MbUint.EncodeIsShortest(head.length, |head.body|);
      LeadIsFree(0, 0, canon[0]);
      assert Lead(0, 0) + [canon[0]] == canon;
  }
}
