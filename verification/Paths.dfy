/** What a reader finds at a path of pages and names: the yardstick for the trees the client builds. */
module Paths {
  import opened Basics
  import opened Tree

  type Path = seq<(byte, string)>

  /** The text of every element at the end of the path, in document order. */
  function Texts(nodes: seq<Node>, path: Path): seq<Bytes>
    decreases |path|, 1, |nodes|
  {
    if nodes == [] then [] else TextsAt(nodes[0], path) + Texts(nodes[1..], path)
  }

  function TextsAt(n: Node, path: Path): seq<Bytes>
    decreases |path|, 0, 0
  {
    if path == [] || !n.Elem? || (n.e.page, n.e.name) != path[0] then []
    else if |path| == 1 then [TextContent(n.e.children)]
    else Texts(n.e.children, path[1..])
  }

  lemma {:induction false} TextsConcat(a: seq<Node>, b: seq<Node>, path: Path)
    ensures Texts(a + b, path) == Texts(a, path) + Texts(b, path)
    decreases |a|
  {
    hide TextsAt;
    if a == [] {
      assert a + b == b;
    } else {
      assert (a + b)[1..] == a[1..] + b;
      TextsConcat(a[1..], b, path);
    }
  }

  lemma {:induction false} TextsOne(n: Node, path: Path)
    ensures Texts([n], path) == TextsAt(n, path)
  {
    assert [n][1..] == [];
  }

  /** A leaf has its text at its own path, and nothing below. */
  lemma {:induction false} LeafTexts(page: byte, name: string, v: Bytes, path: Path)
    ensures Texts([E(page, name, [Text(v)])], path) == if path == [(page, name)] then [v] else []
  {
    var text := [Text(v)];
    TextsOne(E(page, name, text), path);
    assert text[1..] == [] && TextContent(text) == v + [] == v;
    if |path| > 1 { TextsOne(Text(v), path[1..]); }
  }

  /** A branch has at a longer path what its children have at the rest of it. */
  lemma {:induction false} BranchTexts(page: byte, name: string, children: seq<Node>, path: Path)
    requires |path| > 1
    ensures Texts([E(page, name, children)], path) == if path[0] == (page, name) then Texts(children, path[1..]) else []
  {
    TextsOne(E(page, name, children), path);
  }

  // ---- Direct children ----------------------------------------------------

  /** The first child element of this name. */
  function Child(children: seq<Node>, name: string): Option<Element> {
    if children == [] then None
    else if children[0].Elem? && children[0].e.name == name then Some(children[0].e)
    else Child(children[1..], name)
  }

  lemma {:induction false} ChildConcat(a: seq<Node>, b: seq<Node>, name: string)
    ensures Child(a + b, name) == if Child(a, name).Some? then Child(a, name) else Child(b, name)
    decreases a
  {
    if a == [] {
      assert a + b == b;
    } else {
      assert (a + b)[1..] == a[1..] + b;
      ChildConcat(a[1..], b, name);
    }
  }

  /** A search to depth one looks at the children's names only. */
  lemma {:induction false} NearIsChild(e: Element, name: string)
    requires e.name != name
    ensures FindShallow(e, name, 1) == Child(e.children, name)
  {
    ShallowIsChild(e.children, name);
  }

  lemma {:induction false} ShallowIsChild(children: seq<Node>, name: string)
    ensures FindShallowIn(children, name, 0) == Child(children, name)
    decreases children
  {
    if children != [] { ShallowIsChild(children[1..], name); }
  }

  lemma {:induction false} FindInConcat(a: seq<Node>, b: seq<Node>, name: string)
    ensures FindIn(a + b, name) == if FindIn(a, name).Some? then FindIn(a, name) else FindIn(b, name)
    decreases a
  {
    if a == [] {
      assert a + b == b;
    } else {
      assert (a + b)[1..] == a[1..] + b && (a + b)[0] == a[0];
      FindInConcat(a[1..], b, name);
    }
  }

  /** A search through one node: a leaf of text holds nothing but itself. */
  lemma {:induction false} FindInOne(n: Node, name: string)
    ensures FindIn([n], name) == if n.Elem? then Find(n.e, name) else None
  {
    assert [n][1..] == [];
  }

  lemma {:induction false} FindLeaf(page: byte, leaf: string, v: Bytes, name: string)
    ensures var e := Element(page, leaf, [Text(v)]); Find(e, name) == if leaf == name then Some(e) else None
    ensures TextContent([Text(v)]) == v
  {
    FindInOne(Text(v), name);
    var text := [Text(v)];
    assert text[1..] == [] && TextContent(text) == v + [] == v;
  }
}
