/** One date override of a recurring event: its element tree, and its survival over the wire. */
module Exceptions {
  import opened Basics
  import opened Tree
  import opened Registry
  import opened Decimal
  import Grammar
  import Printer
  import Codec
  import opened R = Recurrence

  datatype Exception = Exception(exceptionStartTime: int, deleted: bool, subject: Bytes, location: Bytes,
                                 startTime: int, endTime: int, allDayEvent: bool, busyStatus: int64,
                                 reminder: int64, body: Bytes)

  const NO_EXCEPTION := Exception(0, false, [], [], 0, 0, false, 0, 0, [])

  datatype Part = OriginalStart | Deleted | Subject | Location | Start | End | AllDay | Busy | Reminder

  function NameOfPart(part: Part): string {
    match part
    case OriginalStart => "ExceptionStartTime"
    case Deleted => "Deleted"
    case Subject => "Subject"
    case Location => "Location"
    case Start => "StartTime"
    case End => "EndTime"
    case AllDay => "AllDayEvent"
    case Busy => "BusyStatus"
    case Reminder => "Reminder"
  }

  function PartNamed(name: string): Option<Part> {
    match name
    case "ExceptionStartTime" => Some(OriginalStart)
    case "Deleted" => Some(Deleted)
    case "Subject" => Some(Subject)
    case "Location" => Some(Location)
    case "StartTime" => Some(Start)
    case "EndTime" => Some(End)
    case "AllDayEvent" => Some(AllDay)
    case "BusyStatus" => Some(Busy)
    case "Reminder" => Some(Reminder)
    case _ => None
  }

  // ---- To tree ------------------------------------------------------------

  /** A deleted instance carries its original start and the flag, and nothing else. */
  function Parts(f: TimeFormat, x: Exception): seq<(Part, Bytes)> {
    [(OriginalStart, f.format(x.exceptionStartTime))]
    + if x.deleted then [(Deleted, ONE)] else Words(x) + Times(f, x) + Numbers(x)
  }

  function Words(x: Exception): seq<(Part, Bytes)> {
    When(x.subject != [], Subject, x.subject) + When(x.location != [], Location, x.location)
  }

  function Times(f: TimeFormat, x: Exception): seq<(Part, Bytes)> {
    When(x.startTime != 0 && f.format(x.startTime) != [], Start, f.format(x.startTime))
    + When(x.endTime != 0 && f.format(x.endTime) != [], End, f.format(x.endTime))
  }

  function Numbers(x: Exception): seq<(Part, Bytes)> {
    When(x.allDayEvent, AllDay, ONE)
    + When(x.busyStatus > 0, Busy, Itoa(x.busyStatus))
    + When(x.reminder > 0, Reminder, Itoa(x.reminder))
  }

  function PartLeaves(parts: seq<(Part, Bytes)>): seq<Node> {
    if parts == [] then [] else [Leaf(NameOfPart(parts[0].0), parts[0].1)] + PartLeaves(parts[1..])
  }

  function BodyNode(body: Bytes): Node {
    E(AIR_SYNC_BASE, "Body", [E(AIR_SYNC_BASE, "Type", [Text(ONE)]), E(AIR_SYNC_BASE, "Data", [Text(body)])])
  }

  function BodyNodes(x: Exception): seq<Node> {
    if x.deleted || x.body == [] then [] else [BodyNode(x.body)]
  }

  function ExceptionTree(f: TimeFormat, x: Exception): Element {
    Element(CALENDAR, "Exception", PartLeaves(Parts(f, x)) + BodyNodes(x))
  }

  // ---- From tree ----------------------------------------------------------

  function SetPart(f: TimeFormat, x: Exception, part: Part, v: Bytes): Exception {
    match part
    case OriginalStart => x.(exceptionStartTime := f.Parse(v))
    case Deleted => x.(deleted := v == ONE)
    case Subject => x.(subject := v)
    case Location => x.(location := v)
    case Start => x.(startTime := f.Parse(v))
    case End => x.(endTime := f.Parse(v))
    case AllDay => x.(allDayEvent := v == ONE)
    case Busy => x.(busyStatus := Atoi(v))
    case Reminder => x.(reminder := Atoi(v))
  }

  /** The text of the last Data element on the AirSyncBase page, or what was there before. */
  function DataIn(nodes: seq<Node>, body: Bytes): Bytes
    decreases nodes
  {
    if nodes == [] then body
    else
      var n := nodes[0];
      DataIn(nodes[1..], if n.Elem? && n.e.page == AIR_SYNC_BASE && n.e.name == "Data" then TextContent(n.e.children) else body)
  }

  function SetFromNode(f: TimeFormat, x: Exception, n: Node): Exception {
    if !n.Elem? then x
    else if n.e.name == "Body" then x.(body := DataIn(n.e.children, x.body))
    else
      match PartNamed(n.e.name)
      case None => x
      case Some(part) => SetPart(f, x, part, TextContent(n.e.children))
  }

  function ParseNodes(f: TimeFormat, x: Exception, nodes: seq<Node>): Exception
    decreases nodes
  {
    if nodes == [] then x else ParseNodes(f, SetFromNode(f, x, nodes[0]), nodes[1..])
  }

  function ParseException(f: TimeFormat, e: Element): Exception {
    ParseNodes(f, NO_EXCEPTION, e.children)
  }

  function SetParts(f: TimeFormat, x: Exception, parts: seq<(Part, Bytes)>): Exception
    decreases parts
  {
    if parts == [] then x else SetParts(f, SetPart(f, x, parts[0].0, parts[0].1), parts[1..])
  }

  lemma PartNamesAreDistinct(part: Part)
    ensures PartNamed(NameOfPart(part)) == Some(part) && NameOfPart(part) != "Body"
  {
  }

  lemma SetFromLeaf(f: TimeFormat, x: Exception, part: Part, v: Bytes)
    ensures SetFromNode(f, x, Leaf(NameOfPart(part), v)) == SetPart(f, x, part, v)
  {
    PartNamesAreDistinct(part);
    LeafText(v);
  }

  lemma {:induction false} LeavesReadAsParts(f: TimeFormat, x: Exception, parts: seq<(Part, Bytes)>)
    ensures ParseNodes(f, x, PartLeaves(parts)) == SetParts(f, x, parts)
    decreases parts
  {
    if parts != [] {
      var (part, v) := parts[0];
      SetFromLeaf(f, x, part, v);
      LeavesReadAsParts(f, SetPart(f, x, part, v), parts[1..]);
      assert PartLeaves(parts)[1..] == PartLeaves(parts[1..]);
    }
  }

  lemma {:induction false} ParseNodesConcat(f: TimeFormat, x: Exception, a: seq<Node>, b: seq<Node>)
    ensures ParseNodes(f, x, a + b) == ParseNodes(f, ParseNodes(f, x, a), b)
    decreases a
  {
    if a == [] {
      assert a + b == b;
    } else {
      assert (a + b)[1..] == a[1..] + b;
      ParseNodesConcat(f, SetFromNode(f, x, a[0]), a[1..], b);
    }
  }

  lemma {:induction false} SetPartsConcat(f: TimeFormat, x: Exception, a: seq<(Part, Bytes)>, b: seq<(Part, Bytes)>)
    ensures SetParts(f, x, a + b) == SetParts(f, SetParts(f, x, a), b)
    decreases a
  {
    if a == [] {
      assert a + b == b;
    } else {
      assert (a + b)[1..] == a[1..] + b;
      SetPartsConcat(f, SetPart(f, x, a[0].0, a[0].1), a[1..], b);
    }
  }

  lemma {:induction false} ThenPart(f: TimeFormat, x: Exception, a: seq<(Part, Bytes)>, c: bool, part: Part, v: Bytes)
    ensures SetParts(f, x, a + When(c, part, v)) == if c then SetPart(f, SetParts(f, x, a), part, v) else SetParts(f, x, a)
  {
    SetPartsConcat(f, x, a, When(c, part, v));
    assert [(part, v)][1..] == [];
  }

  // ---- The round trip -----------------------------------------------------

  /** The timestamps the tree carries are kept by the format. */
  predicate TimesKept(f: TimeFormat, x: Exception) {
    && f.Keeps(x.exceptionStartTime)
    && (x.startTime == 0 || f.Keeps(x.startTime))
    && (x.endTime == 0 || f.Keeps(x.endTime))
  }

  /** What the tree is read back as: a deleted instance keeps only its start and flag, negative numbers become zero. */
  function Kept(x: Exception): Exception {
    if x.deleted then NO_EXCEPTION.(exceptionStartTime := x.exceptionStartTime, deleted := true)
    else x.(busyStatus := Floor(x.busyStatus), reminder := Floor(x.reminder))
  }

  lemma {:induction false} WordsReadBack(f: TimeFormat, b: Exception, x: Exception)
    requires b.subject == b.location == []
    ensures SetParts(f, b, Words(x)) == b.(subject := x.subject, location := x.location)
  {
    var a := When(x.subject != [], Subject, x.subject);
    assert [] + a == a;
    ThenPart(f, b, [], x.subject != [], Subject, x.subject);
    ThenPart(f, b, a, x.location != [], Location, x.location);
  }

  lemma {:induction false} TimesReadBack(f: TimeFormat, b: Exception, x: Exception)
    requires TimesKept(f, x) && b.startTime == b.endTime == 0
    ensures SetParts(f, b, Times(f, x)) == b.(startTime := x.startTime, endTime := x.endTime)
  {
    var a := When(x.startTime != 0 && f.format(x.startTime) != [], Start, f.format(x.startTime));
    assert [] + a == a;
    ThenPart(f, b, [], x.startTime != 0 && f.format(x.startTime) != [], Start, f.format(x.startTime));
    ThenPart(f, b, a, x.endTime != 0 && f.format(x.endTime) != [], End, f.format(x.endTime));
  }

  lemma {:induction false} NumbersReadBack(f: TimeFormat, b: Exception, x: Exception)
    requires !b.allDayEvent && b.busyStatus == b.reminder == 0
    ensures SetParts(f, b, Numbers(x))
         == b.(allDayEvent := x.allDayEvent, busyStatus := Floor(x.busyStatus), reminder := Floor(x.reminder))
  {
    hide Itoa, Atoi;
    AtoiOfItoa(x.busyStatus);
    AtoiOfItoa(x.reminder);
    var a := When(x.allDayEvent, AllDay, ONE);
    assert [] + a == a;
    ThenPart(f, b, [], x.allDayEvent, AllDay, ONE);
    ThenPart(f, b, a, x.busyStatus > 0, Busy, Itoa(x.busyStatus));
    a := a + When(x.busyStatus > 0, Busy, Itoa(x.busyStatus));
    ThenPart(f, b, a, x.reminder > 0, Reminder, Itoa(x.reminder));
  }

  lemma {:induction false} PartsReadBack(f: TimeFormat, x: Exception)
    requires TimesKept(f, x)
    ensures SetParts(f, NO_EXCEPTION, Parts(f, x)) == if x.deleted then Kept(x) else Kept(x).(body := [])
  {
    var start := [(OriginalStart, f.format(x.exceptionStartTime))];
    assert [] + start == start;
    ThenPart(f, NO_EXCEPTION, [], true, OriginalStart, f.format(x.exceptionStartTime));
    var b1 := SetParts(f, NO_EXCEPTION, start);
    assert b1 == NO_EXCEPTION.(exceptionStartTime := x.exceptionStartTime);
    if x.deleted {
      ThenPart(f, NO_EXCEPTION, start, true, Deleted, ONE);
    } else {
      var rest := Words(x) + Times(f, x) + Numbers(x);
      SetPartsConcat(f, NO_EXCEPTION, start, rest);
      SetPartsConcat(f, b1, Words(x) + Times(f, x), Numbers(x));
      SetPartsConcat(f, b1, Words(x), Times(f, x));
      WordsReadBack(f, b1, x);
      var b2 := SetParts(f, b1, Words(x));
      TimesReadBack(f, b2, x);
      NumbersReadBack(f, SetParts(f, b2, Times(f, x)), x);
    }
  }

  lemma {:induction false} BodyReadsBack(f: TimeFormat, b: Exception, x: Exception)
    requires b.body == []
    ensures ParseNodes(f, b, BodyNodes(x)) == if x.deleted then b else b.(body := x.body)
  {
    if !x.deleted && x.body != [] {
      var kind, data := E(AIR_SYNC_BASE, "Type", [Text(ONE)]), E(AIR_SYNC_BASE, "Data", [Text(x.body)]);
      LeafText(x.body);
      assert [kind, data][1..] == [data] && [data][1..] == [];
      assert DataIn([data], b.body) == x.body;
      assert BodyNodes(x)[1..] == [];
    }
  }

  /** Read back as the same exception exactly when its numbers are not negative or it is deleted and otherwise empty. */
  lemma ExceptionTreeRoundTrip(f: TimeFormat, x: Exception)
    requires TimesKept(f, x)
    ensures ParseException(f, ExceptionTree(f, x)) == Kept(x)
    ensures ParseException(f, ExceptionTree(f, x)) == x
       <==> if x.deleted then x == NO_EXCEPTION.(exceptionStartTime := x.exceptionStartTime, deleted := true)
            else x.busyStatus >= 0 && x.reminder >= 0
  {
    ParseNodesConcat(f, NO_EXCEPTION, PartLeaves(Parts(f, x)), BodyNodes(x));
    LeavesReadAsParts(f, NO_EXCEPTION, Parts(f, x));
    PartsReadBack(f, x);
    BodyReadsBack(f, SetParts(f, NO_EXCEPTION, Parts(f, x)), x);
  }

  // ---- Over the wire ------------------------------------------------------

  ghost predicate ExceptionRegistered(reg: Pages) {
    && reg.WellFormed()
    && reg.TagID(CALENDAR, "Exception").Some?
    && (forall part: Part :: reg.TagID(CALENDAR, NameOfPart(part)).Some?)
    && (forall name | name in {"Body", "Type", "Data"} :: reg.TagID(AIR_SYNC_BASE, name).Some?)
  }

  /** The texts the tree carries hold no NUL: a deleted instance carries none. */
  predicate TextsNulFree(x: Exception) {
    x.deleted || (Grammar.NulFree(x.subject) && Grammar.NulFree(x.location) && Grammar.NulFree(x.body))
  }

  predicate AllNulFree(parts: seq<(Part, Bytes)>) {
    forall p | p in parts :: Grammar.NulFree(p.1)
  }

  lemma {:induction false} PartLeavesEncodable(reg: Pages, parts: seq<(Part, Bytes)>)
    requires ExceptionRegistered(reg)
    ensures Printer.EncodableAll(reg, PartLeaves(parts)) <==> AllNulFree(parts)
    ensures Printer.OpaqueFitsAll(PartLeaves(parts))
    decreases parts
  {
    if parts != [] {
      var leaf, rest := PartLeaves(parts)[0], PartLeaves(parts[1..]);
      LeafEncodable(reg, CALENDAR, NameOfPart(parts[0].0), parts[0].1);
      PartLeavesEncodable(reg, parts[1..]);
      Printer.SingleNode(reg, leaf);
      Printer.EncodableConcat(reg, [leaf], rest);
      assert AllNulFree(parts) <==> Grammar.NulFree(parts[0].1) && AllNulFree(parts[1..]) by {
        assert parts == [parts[0]] + parts[1..];
      }
    }
  }

  lemma PartsNulFree(f: TimeFormat, x: Exception)
    requires TimesKept(f, x)
    ensures AllNulFree(Parts(f, x)) <==> x.deleted || (Grammar.NulFree(x.subject) && Grammar.NulFree(x.location))
  {
    ItoaIsNulFree(x.busyStatus);
    ItoaIsNulFree(x.reminder);
    assert AllNulFree(Numbers(x)) && AllNulFree(Times(f, x));
    assert AllNulFree(Words(x)) <==> Grammar.NulFree(x.subject) && Grammar.NulFree(x.location) by {
      if x.subject != [] { assert (Subject, x.subject) in Words(x); }
      if x.location != [] { assert (Location, x.location) in Words(x); }
    }
    if !x.deleted {
      assert forall p | p in Words(x) :: p in Parts(f, x);
    }
  }

  lemma {:induction false} BodyEncodable(reg: Pages, x: Exception)
    requires ExceptionRegistered(reg)
    ensures Printer.EncodableAll(reg, BodyNodes(x)) <==> x.deleted || Grammar.NulFree(x.body)
    ensures Printer.OpaqueFitsAll(BodyNodes(x))
  {
    if !x.deleted && x.body != [] {
      var kind, data := E(AIR_SYNC_BASE, "Type", [Text(ONE)]), E(AIR_SYNC_BASE, "Data", [Text(x.body)]);
      LeafEncodable(reg, AIR_SYNC_BASE, "Type", ONE);
      LeafEncodable(reg, AIR_SYNC_BASE, "Data", x.body);
      Printer.SingleNode(reg, data);
      var kids := [kind, data];
      assert kids[1..] == [data];
      assert Printer.EncodableAll(reg, kids) <==> Printer.EncodableNode(reg, data);
      assert Printer.OpaqueFitsAll(kids);
      Printer.SingleNode(reg, BodyNode(x.body));
    }
  }

  /** An exception can be sent exactly when the texts it carries hold no NUL, and is then received as `Kept` says:
      unchanged unless it is deleted or a number is negative. */
  lemma ExceptionSurvivesTheWire(reg: Pages, f: TimeFormat, x: Exception)
    requires ExceptionRegistered(reg) && TimesKept(f, x)
    ensures var sent := Codec.Marshal(reg, DocumentOf(ExceptionTree(f, x)));
            && (sent.Success? <==> TextsNulFree(x))
            && (sent.Success? ==>
                  && Codec.Unmarshal(reg, sent.value).Success?
                  && Codec.Unmarshal(reg, sent.value).value.root == Some(ExceptionTree(f, x))
                  && ParseException(f, ExceptionTree(f, x)) == Kept(x))
  {
    PartsNulFree(f, x);
    BodyEncodable(reg, x);
    PartLeavesEncodable(reg, Parts(f, x));
    Printer.EncodableConcat(reg, PartLeaves(Parts(f, x)), BodyNodes(x));
    Codec.RoundTrip(reg, DocumentOf(ExceptionTree(f, x)));
    ExceptionTreeRoundTrip(f, x);
  }

  // ---- Building and reading step by step ----------------------------------

  lemma {:induction false} PartLeavesConcat(a: seq<(Part, Bytes)>, b: seq<(Part, Bytes)>)
    ensures PartLeaves(a + b) == PartLeaves(a) + PartLeaves(b)
    decreases a
  {
    if a == [] {
      assert a + b == b;
    } else {
      assert (a + b)[1..] == a[1..] + b;
      PartLeavesConcat(a[1..], b);
    }
  }

  method AppendPart(children: seq<Node>, ghost parts: seq<(Part, Bytes)>, c: bool, part: Part, v: Bytes)
    returns (grown: seq<Node>, ghost all: seq<(Part, Bytes)>)
    requires children == PartLeaves(parts)
    ensures grown == PartLeaves(parts + When(c, part, v)) && all == parts + When(c, part, v)
  {
    all := parts + When(c, part, v);
    PartLeavesConcat(parts, When(c, part, v));
    assert [(part, v)][1..] == [];
    grown := if c then children + [Leaf(NameOfPart(part), v)] else children;
  }

  method AppendWordsAndTimes(f: TimeFormat, x: Exception, start: seq<Node>, ghost first: seq<(Part, Bytes)>)
    returns (kids: seq<Node>)
    requires start == PartLeaves(first)
    ensures kids == PartLeaves(first + (Words(x) + Times(f, x)))
  {
    ghost var all;
    kids, all := AppendPart(start, first, x.subject != [], Subject, x.subject);
    kids, all := AppendPart(kids, all, x.location != [], Location, x.location);
    Associative(first, When(x.subject != [], Subject, x.subject), When(x.location != [], Location, x.location));
    kids, all := AppendPart(kids, all, x.startTime != 0 && f.format(x.startTime) != [], Start, f.format(x.startTime));
    ghost var early := When(x.startTime != 0 && f.format(x.startTime) != [], Start, f.format(x.startTime));
    kids, all := AppendPart(kids, all, x.endTime != 0 && f.format(x.endTime) != [], End, f.format(x.endTime));
    ghost var late := When(x.endTime != 0 && f.format(x.endTime) != [], End, f.format(x.endTime));
    Associative(first + Words(x), early, late);
    Associative(first, Words(x), Times(f, x));
  }

  method AppendNumbers(x: Exception, start: seq<Node>, ghost first: seq<(Part, Bytes)>) returns (kids: seq<Node>)
    requires start == PartLeaves(first)
    ensures kids == PartLeaves(first + Numbers(x))
  {
    ghost var all;
    kids, all := AppendPart(start, first, x.allDayEvent, AllDay, ONE);
    kids, all := AppendPart(kids, all, x.busyStatus > 0, Busy, Itoa(x.busyStatus));
    kids, all := AppendPart(kids, all, x.reminder > 0, Reminder, Itoa(x.reminder));
    ghost var flag, busy := When(x.allDayEvent, AllDay, ONE), When(x.busyStatus > 0, Busy, Itoa(x.busyStatus));
    Associative(first, flag, busy);
    Associative(first, flag + busy, When(x.reminder > 0, Reminder, Itoa(x.reminder)));
  }

  method ExceptionToWBXML(f: TimeFormat, x: Exception) returns (e: Element)
    ensures e == ExceptionTree(f, x)
  {
    var kids: seq<Node> := [];
    ghost var all: seq<(Part, Bytes)> := [];
    kids, all := AppendPart(kids, all, true, OriginalStart, f.format(x.exceptionStartTime));
    if x.deleted {
      kids, all := AppendPart(kids, all, true, Deleted, ONE);
      return Element(CALENDAR, "Exception", kids);
    }
    kids := AppendWordsAndTimes(f, x, kids, all);
    kids := AppendNumbers(x, kids, all + (Words(x) + Times(f, x)));
    Associative(all, Words(x) + Times(f, x), Numbers(x));
    if x.body != [] {
      kids := kids + [BodyNode(x.body)];
    }
    e := Element(CALENDAR, "Exception", kids);
  }

  method ReadException(f: TimeFormat, e: Element) returns (x: Exception)
    ensures x == ParseException(f, e)
  {
    x := NO_EXCEPTION;
    for i := 0 to |e.children|
      invariant ParseException(f, e) == ParseNodes(f, x, e.children[i..])
    {
      var c := e.children[i];
      assert e.children[i..][0] == c && e.children[i..][1..] == e.children[i + 1..];
      if !c.Elem? {
        continue;
      }
      if c.e.name == "Body" {
        var body := ReadBody(c.e, x.body);
        x := x.(body := body);
      } else if PartNamed(c.e.name).Some? {
        var v := CollectText(c.e);
        x := SetPart(f, x, PartNamed(c.e.name).value, v);
      }
    }
  }

  method ReadBody(e: Element, before: Bytes) returns (body: Bytes)
    ensures body == DataIn(e.children, before)
  {
    body := before;
    for i := 0 to |e.children|
      invariant DataIn(e.children, before) == DataIn(e.children[i..], body)
    {
      var n := e.children[i];
      assert e.children[i..][0] == n && e.children[i..][1..] == e.children[i + 1..];
      if n.Elem? && n.e.page == AIR_SYNC_BASE && n.e.name == "Data" {
        body := CollectText(n.e);
      }
    }
  }
}
