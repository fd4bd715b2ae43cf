/** Recurrence patterns and per-instance exceptions as element trees, and their survival over the wire. */
module Recurrence {
  import opened Basics
  import opened Tree
  import opened Registry
  import opened Decimal
  import Grammar
  import Printer
  import Codec

  const CALENDAR: byte := 4
  const AIR_SYNC_BASE: byte := 17

  /** The timestamp format, abstractly: a timestamp is a number, with zero for Go's zero time. */
  datatype TimeFormat = TimeFormat(format: int -> Bytes, parse: Bytes -> Option<int>) {

    /** This timestamp is written as non-empty NUL-free text that is parsed back to it. */
    predicate Keeps(t: int) {
      format(t) != [] && Grammar.NulFree(format(t)) && parse(format(t)) == Some(t)
    }

    /** Text that is not a timestamp leaves the zero time. */
    function Parse(v: Bytes): int {
      match parse(v) case Some(t) => t case None => 0
    }
  }

  const ONE: Bytes := [ZERO + 1]

  function Floor(n: int64): int64 { if n >= 0 then n else 0 }

  // ---- Leaves: child elements holding one text ----------------------------

  function Leaf(name: string, v: Bytes): Node {
    E(CALENDAR, name, [Text(v)])
  }

  lemma LeafText(v: Bytes)
    ensures TextContent([Text(v)]) == v
  {
    assert [Text(v)][1..] == [];
  }

  function When<T>(c: bool, field: T, v: Bytes): seq<(T, Bytes)> {
    if c then [(field, v)] else []
  }

  // ---- Recurrence ---------------------------------------------------------

  datatype Recurrence = Recurrence(kind: int64, interval: int64, until: int, occurrences: int64, dayOfWeek: int64,
                                   dayOfMonth: int64, weekOfMonth: int64, monthOfYear: int64, isLeapMonth: bool,
                                   firstDayOfWeek: int64, calendarType: int64)

  const NO_RECURRENCE := Recurrence(0, 0, 0, 0, 0, 0, 0, 0, false, 0, 0)

  datatype Field = Kind | Interval | Occurrences | Until | DayOfWeek | DayOfMonth | WeekOfMonth | MonthOfYear
                 | CalendarType | FirstDayOfWeek | IsLeapMonth

  function NameOf(field: Field): string {
    match field
    case Kind => "Recurrence_Type"
    case Interval => "Recurrence_Interval"
    case Occurrences => "Recurrence_Occurrences"
    case Until => "Recurrence_Until"
    case DayOfWeek => "Recurrence_DayOfWeek"
    case DayOfMonth => "Recurrence_DayOfMonth"
    case WeekOfMonth => "Recurrence_WeekOfMonth"
    case MonthOfYear => "Recurrence_MonthOfYear"
    case CalendarType => "CalendarType"
    case FirstDayOfWeek => "FirstDayOfWeek"
    case IsLeapMonth => "IsLeapMonth"
  }

  function FieldNamed(name: string): Option<Field> {
    match name
    case "Recurrence_Type" => Some(Kind)
    case "Recurrence_Interval" => Some(Interval)
    case "Recurrence_Occurrences" => Some(Occurrences)
    case "Recurrence_Until" => Some(Until)
    case "Recurrence_DayOfWeek" => Some(DayOfWeek)
    case "Recurrence_DayOfMonth" => Some(DayOfMonth)
    case "Recurrence_WeekOfMonth" => Some(WeekOfMonth)
    case "Recurrence_MonthOfYear" => Some(MonthOfYear)
    case "CalendarType" => Some(CalendarType)
    case "FirstDayOfWeek" => Some(FirstDayOfWeek)
    case "IsLeapMonth" => Some(IsLeapMonth)
    case _ => None
  }

  /** The fields written, in order; those that are zero, or not positive where the source asks for that, are omitted. */
  function Fields(f: TimeFormat, r: Recurrence): seq<(Field, Bytes)> {
    Extent(f, r) + Days(r) + Months(r) + Calendar(r)
  }

  function Extent(f: TimeFormat, r: Recurrence): seq<(Field, Bytes)> {
    [(Kind, Itoa(r.kind))]
    + When(r.interval > 0, Interval, Itoa(r.interval))
    + When(r.occurrences > 0, Occurrences, Itoa(r.occurrences))
    + When(r.until != 0, Until, f.format(r.until))
  }

  function Days(r: Recurrence): seq<(Field, Bytes)> {
    When(r.dayOfWeek != 0, DayOfWeek, Itoa(r.dayOfWeek))
    + When(r.dayOfMonth != 0, DayOfMonth, Itoa(r.dayOfMonth))
  }

  function Months(r: Recurrence): seq<(Field, Bytes)> {
    When(r.weekOfMonth != 0, WeekOfMonth, Itoa(r.weekOfMonth))
    + When(r.monthOfYear != 0, MonthOfYear, Itoa(r.monthOfYear))
  }

  function Calendar(r: Recurrence): seq<(Field, Bytes)> {
    When(r.calendarType > 0, CalendarType, Itoa(r.calendarType))
    + When(r.firstDayOfWeek > 0, FirstDayOfWeek, Itoa(r.firstDayOfWeek))
    + When(r.isLeapMonth, IsLeapMonth, ONE)
  }

  function Leaves(fields: seq<(Field, Bytes)>): seq<Node> {
    if fields == [] then [] else [Leaf(NameOf(fields[0].0), fields[0].1)] + Leaves(fields[1..])
  }

  function ToTree(f: TimeFormat, r: Recurrence): Element {
    Element(CALENDAR, "Recurrence", Leaves(Fields(f, r)))
  }

  function Set(f: TimeFormat, r: Recurrence, field: Field, v: Bytes): Recurrence {
    match field
    case Kind => r.(kind := Atoi(v))
    case Interval => r.(interval := Atoi(v))
    case Occurrences => r.(occurrences := Atoi(v))
    case Until => r.(until := f.Parse(v))
    case DayOfWeek => r.(dayOfWeek := Atoi(v))
    case DayOfMonth => r.(dayOfMonth := Atoi(v))
    case WeekOfMonth => r.(weekOfMonth := Atoi(v))
    case MonthOfYear => r.(monthOfYear := Atoi(v))
    case CalendarType => r.(calendarType := Atoi(v))
    case FirstDayOfWeek => r.(firstDayOfWeek := Atoi(v))
    case IsLeapMonth => r.(isLeapMonth := v == ONE)
  }

  /** What one child sets: nothing, unless it is an element with a known name. */
  function SetFrom(f: TimeFormat, r: Recurrence, n: Node): Recurrence {
    if n.Elem? && FieldNamed(n.e.name).Some? then Set(f, r, FieldNamed(n.e.name).value, TextContent(n.e.children)) else r
  }

  function FromChildren(f: TimeFormat, r: Recurrence, nodes: seq<Node>): Recurrence
    decreases nodes
  {
    if nodes == [] then r else FromChildren(f, SetFrom(f, r, nodes[0]), nodes[1..])
  }

  function FromTree(f: TimeFormat, e: Element): Recurrence {
    FromChildren(f, NO_RECURRENCE, e.children)
  }

  function FromFields(f: TimeFormat, r: Recurrence, fields: seq<(Field, Bytes)>): Recurrence
    decreases fields
  {
    if fields == [] then r else FromFields(f, Set(f, r, fields[0].0, fields[0].1), fields[1..])
  }

  lemma NamesAreDistinct(field: Field)
    ensures FieldNamed(NameOf(field)) == Some(field)
  {
  }

  lemma {:induction false} LeavesReadAsFields(f: TimeFormat, r: Recurrence, fields: seq<(Field, Bytes)>)
    ensures FromChildren(f, r, Leaves(fields)) == FromFields(f, r, fields)
    decreases fields
  {
    if fields != [] {
      var (field, v) := fields[0];
      NamesAreDistinct(field);
      LeafText(v);
      assert SetFrom(f, r, Leaf(NameOf(field), v)) == Set(f, r, field, v);
      LeavesReadAsFields(f, Set(f, r, field, v), fields[1..]);
      assert Leaves(fields)[1..] == Leaves(fields[1..]);
    }
  }

  lemma {:induction false} FromFieldsConcat(f: TimeFormat, r: Recurrence, a: seq<(Field, Bytes)>, b: seq<(Field, Bytes)>)
    ensures FromFields(f, r, a + b) == FromFields(f, FromFields(f, r, a), b)
    decreases a
  {
    if a == [] {
      assert a + b == b;
    } else {
      assert (a + b)[1..] == a[1..] + b;
      FromFieldsConcat(f, Set(f, r, a[0].0, a[0].1), a[1..], b);
    }
  }

  /** Appending a field that may be omitted. */
  lemma {:induction false} ThenField(f: TimeFormat, r: Recurrence, a: seq<(Field, Bytes)>, c: bool, field: Field,
                                     v: Bytes)
    ensures FromFields(f, r, a + When(c, field, v))
         == if c then Set(f, FromFields(f, r, a), field, v) else FromFields(f, r, a)
  {
    FromFieldsConcat(f, r, a, When(c, field, v));
    assert [(field, v)][1..] == [];
  }

  predicate NonNegative(r: Recurrence) {
    && r.kind >= 0 && r.interval >= 0 && r.occurrences >= 0 && r.dayOfWeek >= 0 && r.dayOfMonth >= 0
    && r.weekOfMonth >= 0 && r.monthOfYear >= 0 && r.calendarType >= 0 && r.firstDayOfWeek >= 0
  }

  lemma {:induction false} ExtentReadsBack(f: TimeFormat, r: Recurrence)
    requires r.until == 0 || f.Keeps(r.until)
    ensures FromFields(f, NO_RECURRENCE, Extent(f, r))
         == NO_RECURRENCE.(kind := Floor(r.kind), interval := Floor(r.interval), occurrences := Floor(r.occurrences), until := r.until)
  {
    AtoiOfItoa(r.kind);
    AtoiOfItoa(r.interval);
    AtoiOfItoa(r.occurrences);
    var b := NO_RECURRENCE;
    assert [(Kind, Itoa(r.kind))][1..] == [];
    var a := [(Kind, Itoa(r.kind))];
    ThenField(f, b, a, r.interval > 0, Interval, Itoa(r.interval));
    a := a + When(r.interval > 0, Interval, Itoa(r.interval));
    ThenField(f, b, a, r.occurrences > 0, Occurrences, Itoa(r.occurrences));
    a := a + When(r.occurrences > 0, Occurrences, Itoa(r.occurrences));
    ThenField(f, b, a, r.until != 0, Until, f.format(r.until));
  }

  lemma {:induction false} DaysReadBack(f: TimeFormat, b: Recurrence, r: Recurrence)
    requires b.dayOfWeek == b.dayOfMonth == 0
    ensures FromFields(f, b, Days(r)) == b.(dayOfWeek := Floor(r.dayOfWeek), dayOfMonth := Floor(r.dayOfMonth))
  {
    AtoiOfItoa(r.dayOfWeek);
    AtoiOfItoa(r.dayOfMonth);
    var a := When(r.dayOfWeek != 0, DayOfWeek, Itoa(r.dayOfWeek));
    assert [] + a == a;
    ThenField(f, b, [], r.dayOfWeek != 0, DayOfWeek, Itoa(r.dayOfWeek));
    ThenField(f, b, a, r.dayOfMonth != 0, DayOfMonth, Itoa(r.dayOfMonth));
  }

  lemma {:induction false} MonthsReadBack(f: TimeFormat, b: Recurrence, r: Recurrence)
    requires b.weekOfMonth == b.monthOfYear == 0
    ensures FromFields(f, b, Months(r)) == b.(weekOfMonth := Floor(r.weekOfMonth), monthOfYear := Floor(r.monthOfYear))
  {
    AtoiOfItoa(r.weekOfMonth);
    AtoiOfItoa(r.monthOfYear);
    var a := When(r.weekOfMonth != 0, WeekOfMonth, Itoa(r.weekOfMonth));
    assert [] + a == a;
    ThenField(f, b, [], r.weekOfMonth != 0, WeekOfMonth, Itoa(r.weekOfMonth));
    ThenField(f, b, a, r.monthOfYear != 0, MonthOfYear, Itoa(r.monthOfYear));
  }

  lemma {:induction false} CalendarReadsBack(f: TimeFormat, b: Recurrence, r: Recurrence)
    requires b.calendarType == b.firstDayOfWeek == 0 && !b.isLeapMonth
    ensures FromFields(f, b, Calendar(r))
         == b.(calendarType := Floor(r.calendarType), firstDayOfWeek := Floor(r.firstDayOfWeek), isLeapMonth := r.isLeapMonth)
  {
    hide Itoa, Atoi;
    AtoiOfItoa(r.calendarType);
    AtoiOfItoa(r.firstDayOfWeek);
    var a := When(r.calendarType > 0, CalendarType, Itoa(r.calendarType));
    assert [] + a == a;
    ThenField(f, b, [], r.calendarType > 0, CalendarType, Itoa(r.calendarType));
    ThenField(f, b, a, r.firstDayOfWeek > 0, FirstDayOfWeek, Itoa(r.firstDayOfWeek));
    a := a + When(r.firstDayOfWeek > 0, FirstDayOfWeek, Itoa(r.firstDayOfWeek));
    ThenField(f, b, a, r.isLeapMonth, IsLeapMonth, ONE);
  }

  /** The pattern with every negative number replaced by zero: what its tree is read back as. */
  function Floored(r: Recurrence): Recurrence {
    Recurrence(Floor(r.kind), Floor(r.interval), r.until, Floor(r.occurrences), Floor(r.dayOfWeek),
               Floor(r.dayOfMonth), Floor(r.weekOfMonth), Floor(r.monthOfYear), r.isLeapMonth,
               Floor(r.firstDayOfWeek), Floor(r.calendarType))
  }

  lemma TreeReadsBack(f: TimeFormat, r: Recurrence)
    requires r.until == 0 || f.Keeps(r.until)
    ensures FromTree(f, ToTree(f, r)) == Floored(r)
  {
    LeavesReadAsFields(f, NO_RECURRENCE, Fields(f, r));
    FromFieldsConcat(f, NO_RECURRENCE, Extent(f, r) + Days(r) + Months(r), Calendar(r));
    FromFieldsConcat(f, NO_RECURRENCE, Extent(f, r) + Days(r), Months(r));
    FromFieldsConcat(f, NO_RECURRENCE, Extent(f, r), Days(r));
    ExtentReadsBack(f, r);
    var b1 := FromFields(f, NO_RECURRENCE, Extent(f, r));
    DaysReadBack(f, b1, r);
    var b2 := FromFields(f, b1, Days(r));
    MonthsReadBack(f, b2, r);
    CalendarReadsBack(f, FromFields(f, b2, Months(r)), r);
  }

  /** The tree is read back as the same pattern exactly when none of its numbers is negative. */
  lemma TreeRoundTrip(f: TimeFormat, r: Recurrence)
    requires r.until == 0 || f.Keeps(r.until)
    ensures FromTree(f, ToTree(f, r)) == r <==> NonNegative(r)
  {
    TreeReadsBack(f, r);
  }

  // ---- Over the wire ------------------------------------------------------

  ghost predicate Registered(reg: Pages) {
    && reg.WellFormed()
    && reg.TagID(CALENDAR, "Recurrence").Some?
    && forall field: Field :: reg.TagID(CALENDAR, NameOf(field)).Some?
  }

  lemma ItoaIsNulFree(n: int64)
    ensures Grammar.NulFree(Itoa(n))
  {
    if n > MIN_INT64 {
      ItoaIsCanonical(n);
      if n < 0 { assert Itoa(n) == [MINUS] + Itoa(n)[1..]; }
    }
  }

  lemma OneIsNulFree()
    ensures Grammar.NulFree(ONE)
  {
  }

  lemma FieldsAreNulFree(f: TimeFormat, r: Recurrence)
    requires r.until == 0 || f.Keeps(r.until)
    ensures forall p | p in Fields(f, r) :: Grammar.NulFree(p.1)
  {
    hide Itoa, Grammar.NulFree;
    forall n: int64 ensures Grammar.NulFree(Itoa(n)) { ItoaIsNulFree(n); }
    OneIsNulFree();
    assert forall p | p in Extent(f, r) :: Grammar.NulFree(p.1);
    assert forall p | p in Days(r) :: Grammar.NulFree(p.1);
    assert forall p | p in Months(r) :: Grammar.NulFree(p.1);
    assert forall p | p in Calendar(r) :: Grammar.NulFree(p.1);
  }

  lemma {:induction false} LeafEncodable(reg: Pages, page: byte, name: string, v: Bytes)
    requires reg.TagID(page, name).Some?
    ensures Printer.EncodableNode(reg, E(page, name, [Text(v)])) <==> Grammar.NulFree(v)
    ensures Printer.OpaqueFitsNode(E(page, name, [Text(v)]))
  {
    Printer.SingleNode(reg, Text(v));
  }

  lemma {:induction false} LeavesEncodable(reg: Pages, fields: seq<(Field, Bytes)>)
    requires Registered(reg) && forall p | p in fields :: Grammar.NulFree(p.1)
    ensures Printer.EncodableAll(reg, Leaves(fields)) && Printer.OpaqueFitsAll(Leaves(fields))
    decreases fields
  {
    if fields != [] {
      LeafEncodable(reg, CALENDAR, NameOf(fields[0].0), fields[0].1);
      LeavesEncodable(reg, fields[1..]);
      assert Leaves(fields)[1..] == Leaves(fields[1..]);
    }
  }

  /** To tree, Marshal, Unmarshal and from tree: every pattern can be sent, and the one received is the one sent
      exactly when none of its numbers is negative. */
  lemma SurvivesTheWire(reg: Pages, f: TimeFormat, r: Recurrence)
    requires Registered(reg) && (r.until == 0 || f.Keeps(r.until))
    ensures var sent := Codec.Marshal(reg, DocumentOf(ToTree(f, r)));
            && sent.Success? && Codec.Unmarshal(reg, sent.value).Success?
            && Codec.Unmarshal(reg, sent.value).value.root.Some?
            && (FromTree(f, Codec.Unmarshal(reg, sent.value).value.root.value) == r <==> NonNegative(r))
  {
    FieldsAreNulFree(f, r);
    LeavesEncodable(reg, Fields(f, r));
    Codec.RoundTrip(reg, DocumentOf(ToTree(f, r)));
    TreeRoundTrip(f, r);
  }

  // ---- Building and reading step by step ----------------------------------

  lemma {:induction false} LeavesConcat(a: seq<(Field, Bytes)>, b: seq<(Field, Bytes)>)
    ensures Leaves(a + b) == Leaves(a) + Leaves(b)
    decreases a
  {
    if a == [] {
      assert a + b == b;
    } else {
      assert (a + b)[1..] == a[1..] + b;
      LeavesConcat(a[1..], b);
    }
  }

  method AppendLeaf(children: seq<Node>, ghost fields: seq<(Field, Bytes)>, c: bool, field: Field, v: Bytes)
    returns (grown: seq<Node>, ghost all: seq<(Field, Bytes)>)
    requires children == Leaves(fields)
    ensures grown == Leaves(fields + When(c, field, v)) && all == fields + When(c, field, v)
  {
    all := fields + When(c, field, v);
    LeavesConcat(fields, When(c, field, v));
    assert [(field, v)][1..] == [];
    grown := if c then children + [Leaf(NameOf(field), v)] else children;
  }

  method AppendExtent(f: TimeFormat, r: Recurrence) returns (kids: seq<Node>)
    ensures kids == Leaves(Extent(f, r))
  {
    kids := [];
    ghost var all := [];
    kids, all := AppendLeaf(kids, all, true, Kind, Itoa(r.kind));
    kids, all := AppendLeaf(kids, all, r.interval > 0, Interval, Itoa(r.interval));
    kids, all := AppendLeaf(kids, all, r.occurrences > 0, Occurrences, Itoa(r.occurrences));
    kids, all := AppendLeaf(kids, all, r.until != 0, Until, f.format(r.until));
    assert all == Extent(f, r);
  }

  method RecurrenceToWBXML(f: TimeFormat, r: Recurrence) returns (e: Element)
    ensures e == ToTree(f, r)
  {
    var kids := AppendExtent(f, r);
    ghost var all, before := Extent(f, r), Extent(f, r);
    kids, all := AppendLeaf(kids, all, r.dayOfWeek != 0, DayOfWeek, Itoa(r.dayOfWeek));
    ghost var group := When(r.dayOfWeek != 0, DayOfWeek, Itoa(r.dayOfWeek));
    kids, all := AppendLeaf(kids, all, r.dayOfMonth != 0, DayOfMonth, Itoa(r.dayOfMonth));
    Associative(before, group, When(r.dayOfMonth != 0, DayOfMonth, Itoa(r.dayOfMonth)));
    before := all;
    kids, all := AppendLeaf(kids, all, r.weekOfMonth != 0, WeekOfMonth, Itoa(r.weekOfMonth));
    group := When(r.weekOfMonth != 0, WeekOfMonth, Itoa(r.weekOfMonth));
    kids, all := AppendLeaf(kids, all, r.monthOfYear != 0, MonthOfYear, Itoa(r.monthOfYear));
    Associative(before, group, When(r.monthOfYear != 0, MonthOfYear, Itoa(r.monthOfYear)));
    before := all;
    kids, all := AppendLeaf(kids, all, r.calendarType > 0, CalendarType, Itoa(r.calendarType));
    group := When(r.calendarType > 0, CalendarType, Itoa(r.calendarType));
    kids, all := AppendLeaf(kids, all, r.firstDayOfWeek > 0, FirstDayOfWeek, Itoa(r.firstDayOfWeek));
    Associative(before, group, When(r.firstDayOfWeek > 0, FirstDayOfWeek, Itoa(r.firstDayOfWeek)));
    group := group + When(r.firstDayOfWeek > 0, FirstDayOfWeek, Itoa(r.firstDayOfWeek));
    kids, all := AppendLeaf(kids, all, r.isLeapMonth, IsLeapMonth, ONE);
    Associative(before, group, When(r.isLeapMonth, IsLeapMonth, ONE));
    e := Element(CALENDAR, "Recurrence", kids);
  }

  method RecurrenceFromWBXML(f: TimeFormat, e: Element) returns (r: Recurrence)
    ensures r == FromTree(f, e)
  {
    r := NO_RECURRENCE;
    for i := 0 to |e.children|
      invariant FromTree(f, e) == FromChildren(f, r, e.children[i..])
    {
      var c := e.children[i];
      assert e.children[i..][1..] == e.children[i + 1..];
      if !c.Elem? || FieldNamed(c.e.name).None? {
        continue;
      }
      var v := CollectText(c.e);
      r := Set(f, r, FieldNamed(c.e.name).value, v);
    }
  }
}
