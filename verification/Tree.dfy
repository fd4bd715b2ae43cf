/** Documents: a finite rose tree of elements, text and opaque blobs, and the searches over it. */
module Tree {
  import opened Basics

  datatype Element = Element(page: byte, name: string, children: seq<Node>)

  datatype Node = Elem(e: Element) | Text(s: Bytes) | Opaque(b: Bytes)

  /** Zero header fields stand for the defaults; `root` is None where the source has a nil pointer. */
  datatype Document = Document(version: byte, publicID: uint32, charset: uint32, root: Option<Element>)

  function E(page: byte, name: string, children: seq<Node>): Node {
    Elem(Element(page, name, children))
  }

  function DocumentOf(root: Element): Document {
    Document(0, 0, 0, Some(root))
  }

  // ---- Text content -------------------------------------------------------

  function TextContent(children: seq<Node>): Bytes {
    if children == [] then []
    else (if children[0].Text? then children[0].s else []) + TextContent(children[1..])
  }

  /** The text of a list is the texts in it, in order: elements and blobs have none, nor have the texts below them. */
  lemma {:induction false} TextIsJoined(a: seq<Node>, b: seq<Node>)
    ensures TextContent(a + b) == TextContent(a) + TextContent(b)
    ensures forall s :: TextContent([Text(s)]) == s
    ensures forall e :: TextContent([Elem(e)]) == []
    ensures forall s :: TextContent([Opaque(s)]) == []
    decreases a
  {
    forall n: Node ensures TextContent([n]) == if n.Text? then n.s else [] { OneText(n); }
    if a == [] {
      assert a + b == b;
    } else {
      assert (a + b)[1..] == a[1..] + b;
      TextIsJoined(a[1..], b);
    }
  }

  lemma OneText(n: Node)
    ensures TextContent([n]) == if n.Text? then n.s else []
  {
    var nodes := [n];
    assert nodes[1..] == [] && TextContent(nodes[1..]) == [];
  }

  method CollectText(e: Element) returns (sb: Bytes)
    ensures sb == TextContent(e.children)
  {
    sb := [];
    for i := 0 to |e.children|
      invariant TextContent(e.children) == sb + TextContent(e.children[i..])
    {
      var c := e.children[i];
      assert e.children[i..][1..] == e.children[i + 1..];
      if c.Text? {
        sb := sb + c.s;
      }
    }
  }

  // ---- Pre-order flattening and the searches ------------------------------

  /** The element and every element below it, in document order. */
  function Preorder(e: Element): (s: seq<Element>)
    ensures s != [] && s[0] == e
    decreases e, 1
  {
    [e] + PreorderAll(e.children)
  }

  function PreorderAll(children: seq<Node>): seq<Element>
    decreases children, 0
  {
    if children == [] then []
    else (if children[0].Elem? then assert children[0].e < children[0]; Preorder(children[0].e) else []) + PreorderAll(children[1..])
  }

  function Named(s: seq<Element>, name: string): seq<Element> {
    if s == [] then []
    else (if s[0].name == name then [s[0]] else []) + Named(s[1..], name)
  }

  function First(s: seq<Element>): Option<Element> {
    if s == [] then None else Some(s[0])
  }

  function Find(e: Element, name: string): Option<Element>
    decreases e, 1
  {
    if e.name == name then Some(e) else FindIn(e.children, name)
  }

  function FindIn(children: seq<Node>, name: string): Option<Element>
    decreases children, 0
  {
    if children == [] then None
    else if children[0].Elem? && (assert children[0].e < children[0]; Find(children[0].e, name).Some?) then
      Find(children[0].e, name)
    else FindIn(children[1..], name)
  }

  lemma ChildIsSmaller(e: Element, i: nat)
    requires i < |e.children| && e.children[i].Elem?
    ensures e.children[i].e < e
  {
    assert e.children[i].e < e.children[i];
  }

  lemma {:induction false} NamedStep(children: seq<Node>, i: nat, name: string)
    requires i < |children|
    ensures Named(PreorderAll(children[i..]), name)
         == (if children[i].Elem? then Named(Preorder(children[i].e), name) else [])
            + Named(PreorderAll(children[i + 1..]), name)
  {
    assert children[i..][0] == children[i] && children[i..][1..] == children[i + 1..];
    if children[i].Elem? {
      NamedConcat(Preorder(children[i].e), PreorderAll(children[i + 1..]), name);
    } else {
      assert PreorderAll(children[i..]) == PreorderAll(children[i + 1..]);
    }
  }

  lemma {:induction false} NamedPreorder(e: Element, name: string)
    ensures Named(Preorder(e), name) == (if e.name == name then [e] else []) + Named(PreorderAll(e.children), name)
    ensures e.children[0..] == e.children && Named(PreorderAll(e.children[|e.children|..]), name) == []
  {
    assert [e][1..] == [];
    NamedConcat([e], PreorderAll(e.children), name);
  }

  /** The accumulating search: matches are appended in document order. */
  method FindAll(e: Element, name: string) returns (out: seq<Element>)
    ensures out == Named(Preorder(e), name)
    decreases e
  {
    hide Preorder, PreorderAll, Named;
    out := if e.name == name then [e] else [];
    NamedPreorder(e, name);
    for i := 0 to |e.children|
      invariant Named(Preorder(e), name) == out + Named(PreorderAll(e.children[i..]), name)
    {
      NamedStep(e.children, i, name);
      if e.children[i].Elem? {
        ChildIsSmaller(e, i);
        var below := FindAll(e.children[i].e, name);
        Associative(out, below, Named(PreorderAll(e.children[i + 1..]), name));
        out := out + below;
      }
    }
  }

  lemma {:induction false} NamedConcat(s: seq<Element>, t: seq<Element>, name: string)
    ensures Named(s + t, name) == Named(s, name) + Named(t, name)
    decreases s
  {
    if s == [] {
      assert s + t == t;
    } else {
      NamedConcat(s[1..], t, name);
      assert (s + t)[0] == s[0] && (s + t)[1..] == s[1..] + t;
      var head := if s[0].name == name then [s[0]] else [];
      assert head + (Named(s[1..], name) + Named(t, name)) == (head + Named(s[1..], name)) + Named(t, name);
    }
  }

  /** `Find` is the head of `FindAll`'s answer, or nothing when that is empty. */
  lemma {:induction false} FindIsFirstNamed(e: Element, name: string)
    ensures Find(e, name) == First(Named(Preorder(e), name))
    decreases e, 1
  {
    assert Preorder(e)[1..] == PreorderAll(e.children);
    FindInIsFirstNamed(e.children, name);
  }

  lemma {:induction false} FindInIsFirstNamed(children: seq<Node>, name: string)
    ensures FindIn(children, name) == First(Named(PreorderAll(children), name))
    decreases children, 0
  {
    if children != [] {
      FindInIsFirstNamed(children[1..], name);
      if children[0].Elem? {
        assert children[0].e < children[0];
        FindIsFirstNamed(children[0].e, name);
        NamedConcat(Preorder(children[0].e), PreorderAll(children[1..]), name);
      } else {
        assert PreorderAll(children) == PreorderAll(children[1..]);
      }
    }
  }

  // ---- Bounded-depth search -----------------------------------------------

  /** The nodes of `Preorder` no deeper than `depth` (a negative depth, never decremented to zero, is unbounded). */
  function Shallow(e: Element, depth: int): (s: seq<Element>)
    decreases e, 1
  {
    [e] + if depth == 0 then [] else ShallowAll(e.children, depth - 1)
  }

  function ShallowAll(children: seq<Node>, depth: int): seq<Element>
    decreases children, 0
  {
    if children == [] then []
    else (if children[0].Elem? then assert children[0].e < children[0]; Shallow(children[0].e, depth) else [])
         + ShallowAll(children[1..], depth)
  }

  function FindShallow(e: Element, name: string, depth: int): Option<Element>
    decreases e, 1
  {
    if e.name == name then Some(e)
    else if depth == 0 then None
    else FindShallowIn(e.children, name, depth - 1)
  }

  function FindShallowIn(children: seq<Node>, name: string, depth: int): Option<Element>
    decreases children, 0
  {
    if children == [] then None
    else if children[0].Elem? && (assert children[0].e < children[0]; FindShallow(children[0].e, name, depth).Some?) then
      FindShallow(children[0].e, name, depth)
    else FindShallowIn(children[1..], name, depth)
  }

  lemma {:induction false} FindShallowIsFirst(e: Element, name: string, depth: int)
    ensures FindShallow(e, name, depth) == First(Named(Shallow(e, depth), name))
    decreases e, 1
  {
    if depth == 0 {
      assert Shallow(e, depth)[1..] == [];
    } else {
      assert Shallow(e, depth)[1..] == ShallowAll(e.children, depth - 1);
      FindShallowInIsFirst(e.children, name, depth - 1);
    }
  }

  lemma {:induction false} FindShallowInIsFirst(children: seq<Node>, name: string, depth: int)
    ensures FindShallowIn(children, name, depth) == First(Named(ShallowAll(children, depth), name))
    decreases children, 0
  {
    if children != [] {
      FindShallowInIsFirst(children[1..], name, depth);
      if children[0].Elem? {
        assert children[0].e < children[0];
        FindShallowIsFirst(children[0].e, name, depth);
        NamedConcat(Shallow(children[0].e, depth), ShallowAll(children[1..], depth), name);
      } else {
        assert ShallowAll(children, depth) == ShallowAll(children[1..], depth);
      }
    }
  }

  function Height(e: Element): nat
    decreases e, 1
  {
    HeightAll(e.children)
  }

  /** One more than the height of the tallest child element, zero if there is none. */
  function HeightAll(children: seq<Node>): nat
    decreases children, 0
  {
    if children == [] then 0
    else
      var first := if children[0].Elem? then assert children[0].e < children[0]; 1 + Height(children[0].e) else 0;
      var rest := HeightAll(children[1..]);
      if first > rest then first else rest
  }

  /** Once the depth reaches the tree's height, the bounded search is `Find`. */
  lemma {:induction false} DeepEnoughIsFind(e: Element, name: string, depth: int)
    requires depth >= Height(e)
    ensures FindShallow(e, name, depth) == Find(e, name)
    decreases e, 1
  {
    if depth == 0 {
      NoElements(e.children, name);
    } else {
      DeepEnoughIsFindIn(e.children, name, depth - 1);
    }
  }

  lemma {:induction false} DeepEnoughIsFindIn(children: seq<Node>, name: string, depth: int)
    requires depth + 1 >= HeightAll(children)
    ensures FindShallowIn(children, name, depth) == FindIn(children, name)
    decreases children, 0
  {
    if children != [] {
      if children[0].Elem? {
        assert children[0].e < children[0];
        DeepEnoughIsFind(children[0].e, name, depth);
      }
      DeepEnoughIsFindIn(children[1..], name, depth);
    }
  }

  lemma {:induction false} NoElements(children: seq<Node>, name: string)
    requires HeightAll(children) == 0
    ensures FindIn(children, name) == None
  {
    if children != [] { NoElements(children[1..], name); }
  }
}
