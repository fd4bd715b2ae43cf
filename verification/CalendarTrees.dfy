/** Recurrences and exceptions by name: what a server finds in the trees the client builds, and what the client makes of
    each element a server may write. */
module CalendarTrees {
  import opened Basics
  import opened Tree
  import opened Paths
  import opened Decimal
  import R = Recurrence
  import X = Exceptions

  function If(c: bool, v: Bytes): seq<Bytes> { if c then [v] else [] }

  /** An unreadable time is the zero time. */
  function TimeIn(f: R.TimeFormat, v: Bytes): int { match f.parse(v) case Some(t) => t case None => 0 }

  // ---- Recurrence ---------------------------------------------------------

  function InRecurrence(f: R.TimeFormat, r: R.Recurrence, name: string): seq<Bytes> {
    Texts([Elem(R.ToTree(f, r))], [(4, "Recurrence"), (4, name)])
  }

  /** The values of a field among those written. */
  function Values(fields: seq<(R.Field, Bytes)>, field: R.Field): seq<Bytes> {
    if fields == [] then [] else If(fields[0].0 == field, fields[0].1) + Values(fields[1..], field)
  }

  lemma {:induction false} ValuesConcat(a: seq<(R.Field, Bytes)>, b: seq<(R.Field, Bytes)>, field: R.Field)
    ensures Values(a + b, field) == Values(a, field) + Values(b, field)
    decreases a
  {
    if a == [] {
      assert a + b == b;
    } else {
      assert (a + b)[1..] == a[1..] + b;
      ValuesConcat(a[1..], b, field);
    }
  }

  lemma {:induction false} ValuesWhen(c: bool, field: R.Field, v: Bytes, at: R.Field)
    ensures Values(R.When(c, field, v), at) == If(c && field == at, v)
  {
    assert [(field, v)][1..] == [];
  }

  lemma {:induction false} LeavesAt(fields: seq<(R.Field, Bytes)>, field: R.Field)
    ensures Texts(R.Leaves(fields), [(4, R.NameOf(field))]) == Values(fields, field)
    decreases fields
  {
    hide Texts, TextsAt, R.NameOf;
    if fields == [] {
      NoLeaves(field);
    } else {
      var head, tail := [R.Leaf(R.NameOf(fields[0].0), fields[0].1)], R.Leaves(fields[1..]);
      LeavesAt(fields[1..], field);
      assert R.Leaves(fields) == head + tail;
      TextsConcat(head, tail, [(4, R.NameOf(field))]);
      LeafTexts(4, R.NameOf(fields[0].0), fields[0].1, [(4, R.NameOf(field))]);
      SameName(fields[0].0, field);
    }
  }

  lemma NoLeaves(field: R.Field)
    ensures Texts([], [(4, R.NameOf(field))]) == []
  {
  }

  lemma SameName(a: R.Field, b: R.Field)
    ensures [(4 as byte, R.NameOf(b))] == [(4, R.NameOf(a))] <==> a == b
  {
    R.NamesAreDistinct(a);
    R.NamesAreDistinct(b);
    var x, y := [(4 as byte, R.NameOf(b))], [(4 as byte, R.NameOf(a))];
    if x == y { assert x[0] == y[0]; }
  }

  lemma {:induction false} FieldIsFound(f: R.TimeFormat, r: R.Recurrence, field: R.Field)
    ensures InRecurrence(f, r, R.NameOf(field)) == Values(R.Fields(f, r), field)
  {
    hide Texts, TextsAt, R.NameOf, R.Fields;
    LeavesAt(R.Fields(f, r), field);
    var path: Path := [(4, "Recurrence"), (4, R.NameOf(field))];
    assert path[1..] == [(4, R.NameOf(field))];
    BranchTexts(4, "Recurrence", R.Leaves(R.Fields(f, r)), path);
  }

  /** What is written of a field: nothing when it is unset. */
  function Written(f: R.TimeFormat, r: R.Recurrence, at: R.Field): seq<Bytes> {
    match at
    case Kind => [Itoa(r.kind)]
    case Interval => If(r.interval > 0, Itoa(r.interval))
    case Occurrences => If(r.occurrences > 0, Itoa(r.occurrences))
    case Until => If(r.until != 0, f.format(r.until))
    case DayOfWeek => If(r.dayOfWeek != 0, Itoa(r.dayOfWeek))
    case DayOfMonth => If(r.dayOfMonth != 0, Itoa(r.dayOfMonth))
    case WeekOfMonth => If(r.weekOfMonth != 0, Itoa(r.weekOfMonth))
    case MonthOfYear => If(r.monthOfYear != 0, Itoa(r.monthOfYear))
    case CalendarType => If(r.calendarType > 0, Itoa(r.calendarType))
    case FirstDayOfWeek => If(r.firstDayOfWeek > 0, Itoa(r.firstDayOfWeek))
    case IsLeapMonth => If(r.isLeapMonth, [0x31])
  }

  lemma {:induction false} ValueOf(f: R.TimeFormat, r: R.Recurrence, at: R.Field)
    ensures Values(R.Fields(f, r), at) == Written(f, r, at)
  {
    hide Values, Itoa;
    var e, d, m, c := R.Extent(f, r), R.Days(r), R.Months(r), R.Calendar(r);
    ValuesConcat(e + d + m, c, at);
    ValuesConcat(e + d, m, at);
    ValuesConcat(e, d, at);
    ExtentValues(f, r, at);
    OtherValues(r, at);
  }

  lemma {:induction false} ExtentValues(f: R.TimeFormat, r: R.Recurrence, at: R.Field)
    ensures Values(R.Extent(f, r), at)
         == If(at == R.Kind, Itoa(r.kind)) + If(r.interval > 0 && R.Interval == at, Itoa(r.interval))
            + If(r.occurrences > 0 && R.Occurrences == at, Itoa(r.occurrences))
            + If(r.until != 0 && R.Until == at, f.format(r.until))
  {
    hide Values, Itoa, R.When;
    var a, b := R.When(true, R.Kind, Itoa(r.kind)), R.When(r.interval > 0, R.Interval, Itoa(r.interval));
    var c, d := R.When(r.occurrences > 0, R.Occurrences, Itoa(r.occurrences)), R.When(r.until != 0, R.Until, f.format(r.until));
    assert a == [(R.Kind, Itoa(r.kind))] by { AlwaysWhen(R.Kind, Itoa(r.kind)); }
    ValuesConcat(a + b + c, d, at);
    ValuesConcat(a + b, c, at);
    ValuesConcat(a, b, at);
    ValuesWhen(true, R.Kind, Itoa(r.kind), at);
    ValuesWhen(r.interval > 0, R.Interval, Itoa(r.interval), at);
    ValuesWhen(r.occurrences > 0, R.Occurrences, Itoa(r.occurrences), at);
    ValuesWhen(r.until != 0, R.Until, f.format(r.until), at);
  }

  lemma AlwaysWhen<T>(field: T, v: Bytes)
    ensures R.When(true, field, v) == [(field, v)]
  {
  }

  lemma {:induction false} OtherValues(r: R.Recurrence, at: R.Field)
    ensures Values(R.Days(r), at) == If(r.dayOfWeek != 0 && R.DayOfWeek == at, Itoa(r.dayOfWeek))
                                     + If(r.dayOfMonth != 0 && R.DayOfMonth == at, Itoa(r.dayOfMonth))
    ensures Values(R.Months(r), at) == If(r.weekOfMonth != 0 && R.WeekOfMonth == at, Itoa(r.weekOfMonth))
                                       + If(r.monthOfYear != 0 && R.MonthOfYear == at, Itoa(r.monthOfYear))
    ensures Values(R.Calendar(r), at) == If(r.calendarType > 0 && R.CalendarType == at, Itoa(r.calendarType))
                                         + If(r.firstDayOfWeek > 0 && R.FirstDayOfWeek == at, Itoa(r.firstDayOfWeek))
                                         + If(r.isLeapMonth && R.IsLeapMonth == at, [0x31])
  {
    hide Values, Itoa, R.When;
    ValuesWhen(r.dayOfWeek != 0, R.DayOfWeek, Itoa(r.dayOfWeek), at);
    ValuesWhen(r.dayOfMonth != 0, R.DayOfMonth, Itoa(r.dayOfMonth), at);
    ValuesConcat(R.When(r.dayOfWeek != 0, R.DayOfWeek, Itoa(r.dayOfWeek)),
                 R.When(r.dayOfMonth != 0, R.DayOfMonth, Itoa(r.dayOfMonth)), at);
    ValuesWhen(r.weekOfMonth != 0, R.WeekOfMonth, Itoa(r.weekOfMonth), at);
    ValuesWhen(r.monthOfYear != 0, R.MonthOfYear, Itoa(r.monthOfYear), at);
    ValuesConcat(R.When(r.weekOfMonth != 0, R.WeekOfMonth, Itoa(r.weekOfMonth)),
                 R.When(r.monthOfYear != 0, R.MonthOfYear, Itoa(r.monthOfYear)), at);
    var a := R.When(r.calendarType > 0, R.CalendarType, Itoa(r.calendarType));
    var b := R.When(r.firstDayOfWeek > 0, R.FirstDayOfWeek, Itoa(r.firstDayOfWeek));
    var c := R.When(r.isLeapMonth, R.IsLeapMonth, [0x31]);
    ValuesWhen(r.calendarType > 0, R.CalendarType, Itoa(r.calendarType), at);
    ValuesWhen(r.firstDayOfWeek > 0, R.FirstDayOfWeek, Itoa(r.firstDayOfWeek), at);
    ValuesWhen(r.isLeapMonth, R.IsLeapMonth, [0x31], at);
    ValuesConcat(a, b, at);
    ValuesConcat(a + b, c, at);
  }

  lemma FoundUnder(f: R.TimeFormat, r: R.Recurrence, at: R.Field, name: string)
    requires R.NameOf(at) == name
    ensures InRecurrence(f, r, name) == Written(f, r, at)
  {
    hide Written, InRecurrence, R.NameOf, Values, Itoa, R.Fields;
    FieldIsFound(f, r, at);
    ValueOf(f, r, at);
  }

  /** Every field of a recurrence is found under its own name, once, and only if it is written at all. */
  lemma RecurrenceIsFound(f: R.TimeFormat, r: R.Recurrence)
    ensures InRecurrence(f, r, "Recurrence_Type") == [Itoa(r.kind)]
    ensures InRecurrence(f, r, "Recurrence_Interval") == (if r.interval > 0 then [Itoa(r.interval)] else [])
    ensures InRecurrence(f, r, "Recurrence_Occurrences") == (if r.occurrences > 0 then [Itoa(r.occurrences)] else [])
    ensures InRecurrence(f, r, "Recurrence_Until") == (if r.until != 0 then [f.format(r.until)] else [])
    ensures InRecurrence(f, r, "Recurrence_DayOfWeek") == (if r.dayOfWeek != 0 then [Itoa(r.dayOfWeek)] else [])
    ensures InRecurrence(f, r, "Recurrence_DayOfMonth") == (if r.dayOfMonth != 0 then [Itoa(r.dayOfMonth)] else [])
    ensures InRecurrence(f, r, "Recurrence_WeekOfMonth") == (if r.weekOfMonth != 0 then [Itoa(r.weekOfMonth)] else [])
    ensures InRecurrence(f, r, "Recurrence_MonthOfYear") == (if r.monthOfYear != 0 then [Itoa(r.monthOfYear)] else [])
    ensures InRecurrence(f, r, "CalendarType") == (if r.calendarType > 0 then [Itoa(r.calendarType)] else [])
    ensures InRecurrence(f, r, "FirstDayOfWeek") == (if r.firstDayOfWeek > 0 then [Itoa(r.firstDayOfWeek)] else [])
    ensures InRecurrence(f, r, "IsLeapMonth") == (if r.isLeapMonth then [[0x31]] else [])
  {
    hide InRecurrence, Values, Itoa, R.Fields;
    FoundUnder(f, r, R.Kind, "Recurrence_Type");
    FoundUnder(f, r, R.Interval, "Recurrence_Interval");
    FoundUnder(f, r, R.Occurrences, "Recurrence_Occurrences");
    FoundUnder(f, r, R.Until, "Recurrence_Until");
    FoundUnder(f, r, R.DayOfWeek, "Recurrence_DayOfWeek");
    FoundUnder(f, r, R.DayOfMonth, "Recurrence_DayOfMonth");
    FoundUnder(f, r, R.WeekOfMonth, "Recurrence_WeekOfMonth");
    FoundUnder(f, r, R.MonthOfYear, "Recurrence_MonthOfYear");
    FoundUnder(f, r, R.CalendarType, "CalendarType");
    FoundUnder(f, r, R.FirstDayOfWeek, "FirstDayOfWeek");
    FoundUnder(f, r, R.IsLeapMonth, "IsLeapMonth");
  }

  lemma {:induction false} FromChildrenLast(f: R.TimeFormat, r: R.Recurrence, a: seq<Node>, n: Node)
    ensures R.FromChildren(f, r, a + [n]) == R.SetFrom(f, R.FromChildren(f, r, a), n)
    decreases a
  {
    hide R.SetFrom;
    if a == [] {
      assert a + [n] == [n] && [n][1..] == [];
    } else {
      assert (a + [n])[1..] == a[1..] + [n];
      FromChildrenLast(f, R.SetFrom(f, r, a[0]), a[1..], n);
    }
  }

  /** What the client has read once a further child comes. */
  function ReadOn(f: R.TimeFormat, page: byte, name: string, children: seq<Node>, child: string, v: Bytes): R.Recurrence {
    R.FromTree(f, Element(page, name, children + [E(page, child, [Text(v)])]))
  }

  /** Every element of a recurrence sets the field its name says, whatever was set before. */
  lemma RecurrenceIsRead(f: R.TimeFormat, page: byte, name: string, before: seq<Node>, v: Bytes)
    ensures var was := R.FromTree(f, Element(page, name, before));
            && ReadOn(f, page, name, before, "Recurrence_Type", v) == was.(kind := Atoi(v))
            && ReadOn(f, page, name, before, "Recurrence_Interval", v) == was.(interval := Atoi(v))
            && ReadOn(f, page, name, before, "Recurrence_Occurrences", v) == was.(occurrences := Atoi(v))
            && ReadOn(f, page, name, before, "Recurrence_Until", v) == was.(until := TimeIn(f, v))
            && ReadOn(f, page, name, before, "Recurrence_DayOfWeek", v) == was.(dayOfWeek := Atoi(v))
            && ReadOn(f, page, name, before, "Recurrence_DayOfMonth", v) == was.(dayOfMonth := Atoi(v))
            && ReadOn(f, page, name, before, "Recurrence_WeekOfMonth", v) == was.(weekOfMonth := Atoi(v))
            && ReadOn(f, page, name, before, "Recurrence_MonthOfYear", v) == was.(monthOfYear := Atoi(v))
            && ReadOn(f, page, name, before, "CalendarType", v) == was.(calendarType := Atoi(v))
            && ReadOn(f, page, name, before, "FirstDayOfWeek", v) == was.(firstDayOfWeek := Atoi(v))
            && ReadOn(f, page, name, before, "IsLeapMonth", v) == was.(isLeapMonth := v == [0x31])
  {
    hide Atoi, R.FromTree, R.Set, R.FieldNamed, ReadOn, TimeIn;
    ReadsOneMore(f, page, name, before, "Recurrence_Type", v);
    ReadsOneMore(f, page, name, before, "Recurrence_Interval", v);
    ReadsOneMore(f, page, name, before, "Recurrence_Occurrences", v);
    ReadsOneMore(f, page, name, before, "Recurrence_Until", v);
    ReadsOneMore(f, page, name, before, "Recurrence_DayOfWeek", v);
    ReadsOneMore(f, page, name, before, "Recurrence_DayOfMonth", v);
    ReadsOneMore(f, page, name, before, "Recurrence_WeekOfMonth", v);
    ReadsOneMore(f, page, name, before, "Recurrence_MonthOfYear", v);
    ReadsOneMore(f, page, name, before, "CalendarType", v);
    ReadsOneMore(f, page, name, before, "FirstDayOfWeek", v);
    ReadsOneMore(f, page, name, before, "IsLeapMonth", v);
    RecurrenceNames();
    FieldsAreSet(f, R.FromTree(f, Element(page, name, before)), v);
  }

  lemma ReadsOneMore(f: R.TimeFormat, page: byte, name: string, before: seq<Node>, child: string, v: Bytes)
    ensures ReadOn(f, page, name, before, child, v)
         == match R.FieldNamed(child)
            case Some(field) => R.Set(f, R.FromTree(f, Element(page, name, before)), field, v)
            case None => R.FromTree(f, Element(page, name, before))
  {
    hide R.FromChildren, R.Set, R.FieldNamed;
    R.LeafText(v);
    FromChildrenLast(f, R.NO_RECURRENCE, before, E(page, child, [Text(v)]));
  }

  lemma RecurrenceNames()
    ensures R.FieldNamed("Recurrence_Type") == Some(R.Kind) && R.FieldNamed("Recurrence_Interval") == Some(R.Interval)
    ensures R.FieldNamed("Recurrence_Occurrences") == Some(R.Occurrences) && R.FieldNamed("Recurrence_Until") == Some(R.Until)
    ensures R.FieldNamed("Recurrence_DayOfWeek") == Some(R.DayOfWeek)
    ensures R.FieldNamed("Recurrence_DayOfMonth") == Some(R.DayOfMonth)
    ensures R.FieldNamed("Recurrence_WeekOfMonth") == Some(R.WeekOfMonth)
    ensures R.FieldNamed("Recurrence_MonthOfYear") == Some(R.MonthOfYear)
    ensures R.FieldNamed("CalendarType") == Some(R.CalendarType) && R.FieldNamed("FirstDayOfWeek") == Some(R.FirstDayOfWeek)
    ensures R.FieldNamed("IsLeapMonth") == Some(R.IsLeapMonth)
  {
  }

  lemma FieldsAreSet(f: R.TimeFormat, was: R.Recurrence, v: Bytes)
    ensures R.Set(f, was, R.Kind, v) == was.(kind := Atoi(v)) && R.Set(f, was, R.Interval, v) == was.(interval := Atoi(v))
    ensures R.Set(f, was, R.Occurrences, v) == was.(occurrences := Atoi(v))
    ensures R.Set(f, was, R.Until, v) == was.(until := TimeIn(f, v))
    ensures R.Set(f, was, R.DayOfWeek, v) == was.(dayOfWeek := Atoi(v))
    ensures R.Set(f, was, R.DayOfMonth, v) == was.(dayOfMonth := Atoi(v))
    ensures R.Set(f, was, R.WeekOfMonth, v) == was.(weekOfMonth := Atoi(v))
    ensures R.Set(f, was, R.MonthOfYear, v) == was.(monthOfYear := Atoi(v))
    ensures R.Set(f, was, R.CalendarType, v) == was.(calendarType := Atoi(v))
    ensures R.Set(f, was, R.FirstDayOfWeek, v) == was.(firstDayOfWeek := Atoi(v))
    ensures R.Set(f, was, R.IsLeapMonth, v) == was.(isLeapMonth := v == [0x31])
  {
    hide Atoi;
  }

  /** Reading starts from an empty recurrence, and an element of any other name changes nothing. */
  lemma OtherNamesAreIgnored(f: R.TimeFormat, page: byte, name: string, before: seq<Node>, v: Bytes, other: string)
    requires other !in ["Recurrence_Type", "Recurrence_Interval", "Recurrence_Occurrences", "Recurrence_Until",
                        "Recurrence_DayOfWeek", "Recurrence_DayOfMonth", "Recurrence_WeekOfMonth", "Recurrence_MonthOfYear",
                        "CalendarType", "FirstDayOfWeek", "IsLeapMonth"]
    ensures R.FromTree(f, Element(page, name, [])) == R.Recurrence(0, 0, 0, 0, 0, 0, 0, 0, false, 0, 0)
    ensures ReadOn(f, page, name, before, other, v) == R.FromTree(f, Element(page, name, before))
  {
    hide R.FromTree, R.Set, ReadOn;
    ReadsOneMore(f, page, name, before, other, v);
    NothingRead(f, page, name);
  }

  lemma NothingRead(f: R.TimeFormat, page: byte, name: string)
    ensures R.FromTree(f, Element(page, name, [])) == R.Recurrence(0, 0, 0, 0, 0, 0, 0, 0, false, 0, 0)
  {
  }

  // ---- Exceptions ---------------------------------------------------------

  function InException(f: R.TimeFormat, x: X.Exception, path: Path): seq<Bytes> {
    Texts([Elem(X.ExceptionTree(f, x))], [(4, "Exception")] + path)
  }

  function PartValues(parts: seq<(X.Part, Bytes)>, part: X.Part): seq<Bytes> {
    if parts == [] then [] else If(parts[0].0 == part, parts[0].1) + PartValues(parts[1..], part)
  }

  lemma {:induction false} PartValuesConcat(a: seq<(X.Part, Bytes)>, b: seq<(X.Part, Bytes)>, part: X.Part)
    ensures PartValues(a + b, part) == PartValues(a, part) + PartValues(b, part)
    decreases a
  {
    if a == [] {
      assert a + b == b;
    } else {
      assert (a + b)[1..] == a[1..] + b;
      PartValuesConcat(a[1..], b, part);
    }
  }

  lemma {:induction false} PartValuesWhen(c: bool, part: X.Part, v: Bytes, at: X.Part)
    ensures PartValues(R.When(c, part, v), at) == If(c && part == at, v)
  {
    assert [(part, v)][1..] == [];
  }

  /** The leaves of the parts, at any path that names no part on the calendar page as well as at those that do. */
  lemma {:induction false} PartLeavesAt(parts: seq<(X.Part, Bytes)>, part: X.Part, below: Path)
    requires below != []
    ensures Texts(X.PartLeaves(parts), [(4, X.NameOfPart(part))]) == PartValues(parts, part)
    ensures Texts(X.PartLeaves(parts), [(17, "Body")] + below) == []
    decreases parts
  {
    hide Texts, TextsAt, X.NameOfPart;
    if parts == [] {
      NoPartLeaves(part, below);
    } else {
      var head, tail := [R.Leaf(X.NameOfPart(parts[0].0), parts[0].1)], X.PartLeaves(parts[1..]);
      PartLeavesAt(parts[1..], part, below);
      assert X.PartLeaves(parts) == head + tail;
      TextsConcat(head, tail, [(4, X.NameOfPart(part))]);
      TextsConcat(head, tail, [(17, "Body")] + below);
      LeafTexts(4, X.NameOfPart(parts[0].0), parts[0].1, [(4, X.NameOfPart(part))]);
      LeafTexts(4, X.NameOfPart(parts[0].0), parts[0].1, [(17, "Body")] + below);
      SamePart(parts[0].0, part);
    }
  }

  lemma {:induction false} NoPartLeaves(part: X.Part, below: Path)
    ensures Texts([], [(4, X.NameOfPart(part))]) == [] && Texts([], [(17, "Body")] + below) == []
  {
  }

  lemma SamePart(a: X.Part, b: X.Part)
    ensures [(4 as byte, X.NameOfPart(b))] == [(4, X.NameOfPart(a))] <==> a == b
  {
    X.PartNamesAreDistinct(a);
    X.PartNamesAreDistinct(b);
    var x, y := [(4 as byte, X.NameOfPart(b))], [(4 as byte, X.NameOfPart(a))];
    if x == y { assert x[0] == y[0]; }
  }

  lemma {:induction false} PartIsFound(f: R.TimeFormat, x: X.Exception, part: X.Part)
    ensures InException(f, x, [(4, X.NameOfPart(part))]) == PartValues(X.Parts(f, x), part)
  {
    hide Texts, TextsAt, X.NameOfPart, X.Parts;
    var at: Path, path: Path := [(4, X.NameOfPart(part))], [(4, "Exception"), (4, X.NameOfPart(part))];
    PartLeavesAt(X.Parts(f, x), part, at);
    assert path[1..] == at && [(4 as byte, "Exception")] + at == path;
    BranchTexts(4, "Exception", X.PartLeaves(X.Parts(f, x)) + X.BodyNodes(x), path);
    TextsConcat(X.PartLeaves(X.Parts(f, x)), X.BodyNodes(x), at);
    NotInBody(x, at);
  }

  lemma {:induction false} NotInBody(x: X.Exception, at: Path)
    requires |at| == 1 && at[0].0 == 4
    ensures Texts(X.BodyNodes(x), at) == []
  {
    if X.BodyNodes(x) != [] { TextsOne(X.BodyNode(x.body), at); }
  }

  lemma {:induction false} PartValueOf(f: R.TimeFormat, x: X.Exception, at: X.Part)
    ensures PartValues(X.Parts(f, x), at)
         == if at == X.OriginalStart then [f.format(x.exceptionStartTime)]
            else if x.deleted then If(at == X.Deleted, [0x31])
            else
              match at
              case Subject => If(x.subject != [], x.subject)
              case Location => If(x.location != [], x.location)
              case Start => If(x.startTime != 0 && f.format(x.startTime) != [], f.format(x.startTime))
              case End => If(x.endTime != 0 && f.format(x.endTime) != [], f.format(x.endTime))
              case AllDay => If(x.allDayEvent, [0x31])
              case Busy => If(x.busyStatus > 0, Itoa(x.busyStatus))
              case Reminder => If(x.reminder > 0, Itoa(x.reminder))
              case _ => []
  {
    hide PartValues, Itoa;
    var start := R.When(true, X.OriginalStart, f.format(x.exceptionStartTime));
    AlwaysWhen(X.OriginalStart, f.format(x.exceptionStartTime));
    PartValuesWhen(true, X.OriginalStart, f.format(x.exceptionStartTime), at);
    if x.deleted {
      AlwaysWhen(X.Deleted, [0x31]);
      PartValuesWhen(true, X.Deleted, [0x31], at);
      PartValuesConcat(start, [(X.Deleted, [0x31])], at);
    } else {
      var w, t, n := X.Words(x), X.Times(f, x), X.Numbers(x);
      PartValuesConcat(start, w + t + n, at);
      PartValuesConcat(w + t, n, at);
      PartValuesConcat(w, t, at);
      GroupValues(f, x, at);
    }
  }

  lemma {:induction false} GroupValues(f: R.TimeFormat, x: X.Exception, at: X.Part)
    ensures PartValues(X.Words(x), at)
         == If(x.subject != [] && X.Subject == at, x.subject) + If(x.location != [] && X.Location == at, x.location)
    ensures PartValues(X.Times(f, x), at)
         == If(x.startTime != 0 && f.format(x.startTime) != [] && X.Start == at, f.format(x.startTime))
            + If(x.endTime != 0 && f.format(x.endTime) != [] && X.End == at, f.format(x.endTime))
    ensures PartValues(X.Numbers(x), at)
         == If(x.allDayEvent && X.AllDay == at, [0x31]) + If(x.busyStatus > 0 && X.Busy == at, Itoa(x.busyStatus))
            + If(x.reminder > 0 && X.Reminder == at, Itoa(x.reminder))
  {
    hide PartValues, Itoa, R.When;
    var s, l := R.When(x.subject != [], X.Subject, x.subject), R.When(x.location != [], X.Location, x.location);
    var b := R.When(x.startTime != 0 && f.format(x.startTime) != [], X.Start, f.format(x.startTime));
    var e := R.When(x.endTime != 0 && f.format(x.endTime) != [], X.End, f.format(x.endTime));
    var d, y, r := R.When(x.allDayEvent, X.AllDay, [0x31]), R.When(x.busyStatus > 0, X.Busy, Itoa(x.busyStatus)),
                   R.When(x.reminder > 0, X.Reminder, Itoa(x.reminder));
    PartValuesConcat(s, l, at);
    PartValuesConcat(b, e, at);
    PartValuesConcat(d + y, r, at);
    PartValuesConcat(d, y, at);
    PartValuesWhen(x.subject != [], X.Subject, x.subject, at);
    PartValuesWhen(x.location != [], X.Location, x.location, at);
    PartValuesWhen(x.startTime != 0 && f.format(x.startTime) != [], X.Start, f.format(x.startTime), at);
    PartValuesWhen(x.endTime != 0 && f.format(x.endTime) != [], X.End, f.format(x.endTime), at);
    PartValuesWhen(x.allDayEvent, X.AllDay, [0x31], at);
    PartValuesWhen(x.busyStatus > 0, X.Busy, Itoa(x.busyStatus), at);
    PartValuesWhen(x.reminder > 0, X.Reminder, Itoa(x.reminder), at);
  }

  /** Every part of an exception is found under its own name; a deleted one has its start and the flag only. */
  lemma ExceptionIsFound(f: R.TimeFormat, x: X.Exception)
    ensures InException(f, x, [(4, "ExceptionStartTime")]) == [f.format(x.exceptionStartTime)]
    ensures InException(f, x, [(4, "Deleted")]) == (if x.deleted then [[0x31]] else [])
    ensures InException(f, x, [(4, "Subject")]) == (if !x.deleted && x.subject != [] then [x.subject] else [])
    ensures InException(f, x, [(4, "Location")]) == (if !x.deleted && x.location != [] then [x.location] else [])
    ensures InException(f, x, [(4, "StartTime")])
         == (if !x.deleted && x.startTime != 0 && f.format(x.startTime) != [] then [f.format(x.startTime)] else [])
    ensures InException(f, x, [(4, "EndTime")])
         == (if !x.deleted && x.endTime != 0 && f.format(x.endTime) != [] then [f.format(x.endTime)] else [])
    ensures InException(f, x, [(4, "AllDayEvent")]) == (if !x.deleted && x.allDayEvent then [[0x31]] else [])
    ensures InException(f, x, [(4, "BusyStatus")]) == (if !x.deleted && x.busyStatus > 0 then [Itoa(x.busyStatus)] else [])
    ensures InException(f, x, [(4, "Reminder")]) == (if !x.deleted && x.reminder > 0 then [Itoa(x.reminder)] else [])
  {
    hide InException, PartValues, Itoa, X.Parts;
    forall part: X.Part ensures InException(f, x, [(4, X.NameOfPart(part))]) == PartValues(X.Parts(f, x), part) {
      PartIsFound(f, x, part);
    }
    PartValueOf(f, x, X.OriginalStart);
    PartValueOf(f, x, X.Deleted);
    PartValueOf(f, x, X.Subject);
    PartValueOf(f, x, X.Location);
    PartValueOf(f, x, X.Start);
    PartValueOf(f, x, X.End);
    PartValueOf(f, x, X.AllDay);
    PartValueOf(f, x, X.Busy);
    PartValueOf(f, x, X.Reminder);
    assert X.NameOfPart(X.OriginalStart) == "ExceptionStartTime" && X.NameOfPart(X.Deleted) == "Deleted";
    assert X.NameOfPart(X.Subject) == "Subject" && X.NameOfPart(X.Location) == "Location";
    assert X.NameOfPart(X.Start) == "StartTime" && X.NameOfPart(X.End) == "EndTime";
    assert X.NameOfPart(X.AllDay) == "AllDayEvent" && X.NameOfPart(X.Busy) == "BusyStatus";
    assert X.NameOfPart(X.Reminder) == "Reminder";
  }

  /** The body is found as plain text on its own page. */
  lemma BodyIsFound(f: R.TimeFormat, x: X.Exception)
    ensures var c := !x.deleted && x.body != [];
            && InException(f, x, [(17, "Body"), (17, "Type")]) == (if c then [[0x31]] else [])
            && InException(f, x, [(17, "Body"), (17, "Data")]) == (if c then [x.body] else [])
  {
    hide Texts, TextsAt, X.Parts;
    BodyAt(f, x, "Type");
    BodyAt(f, x, "Data");
  }

  lemma BodyAt(f: R.TimeFormat, x: X.Exception, name: string)
    requires name == "Type" || name == "Data"
    ensures InException(f, x, [(17, "Body"), (17, name)])
         == If(!x.deleted && x.body != [], if name == "Type" then [0x31] else x.body)
  {
    hide Texts, TextsAt, X.Parts;
    var below: Path, at: Path := [(17, name)], [(17, "Body"), (17, name)];
    var path: Path := [(4, "Exception"), (17, "Body"), (17, name)];
    assert path[1..] == at && at[1..] == below && [(17 as byte, "Body")] + below == at && [(4 as byte, "Exception")] + at == path;
    PartLeavesAt(X.Parts(f, x), X.Subject, below);
    BranchTexts(4, "Exception", X.PartLeaves(X.Parts(f, x)) + X.BodyNodes(x), path);
    TextsConcat(X.PartLeaves(X.Parts(f, x)), X.BodyNodes(x), at);
    if X.BodyNodes(x) == [] {
      NoPartLeaves(X.Subject, below);
    } else {
      var kind, data := [E(17, "Type", [Text([0x31])])], [E(17, "Data", [Text(x.body)])];
      assert kind + data == [kind[0], data[0]];
      BranchTexts(17, "Body", kind + data, at);
      TextsConcat(kind, data, below);
      LeafTexts(17, "Type", [0x31], below);
      LeafTexts(17, "Data", x.body, below);
    }
  }

  lemma {:induction false} ParseNodesLast(f: R.TimeFormat, x: X.Exception, a: seq<Node>, n: Node)
    ensures X.ParseNodes(f, x, a + [n]) == X.SetFromNode(f, X.ParseNodes(f, x, a), n)
    decreases a
  {
    hide X.SetFromNode;
    if a == [] {
      assert a + [n] == [n] && [n][1..] == [];
    } else {
      assert (a + [n])[1..] == a[1..] + [n];
      ParseNodesLast(f, X.SetFromNode(f, x, a[0]), a[1..], n);
    }
  }

  function ParsedOn(f: R.TimeFormat, children: seq<Node>, n: Node): X.Exception {
    X.ParseException(f, Element(4, "Exception", children + [n]))
  }

  /** Every element of an exception sets the part its name says; a body, the text of its data on the body's own page. */
  lemma ExceptionIsRead(f: R.TimeFormat, page: byte, before: seq<Node>, v: Bytes)
    ensures var was := X.ParseException(f, Element(4, "Exception", before));
            && ParsedOn(f, before, E(page, "ExceptionStartTime", [Text(v)])) == was.(exceptionStartTime := TimeIn(f, v))
            && ParsedOn(f, before, E(page, "Deleted", [Text(v)])) == was.(deleted := v == [0x31])
            && ParsedOn(f, before, E(page, "Subject", [Text(v)])) == was.(subject := v)
            && ParsedOn(f, before, E(page, "Location", [Text(v)])) == was.(location := v)
            && ParsedOn(f, before, E(page, "StartTime", [Text(v)])) == was.(startTime := TimeIn(f, v))
            && ParsedOn(f, before, E(page, "EndTime", [Text(v)])) == was.(endTime := TimeIn(f, v))
            && ParsedOn(f, before, E(page, "AllDayEvent", [Text(v)])) == was.(allDayEvent := v == [0x31])
            && ParsedOn(f, before, E(page, "BusyStatus", [Text(v)])) == was.(busyStatus := Atoi(v))
            && ParsedOn(f, before, E(page, "Reminder", [Text(v)])) == was.(reminder := Atoi(v))
            && ParsedOn(f, before, E(page, "Body", [E(17, "Data", [Text(v)])])) == was.(body := v)
            && (page != 17 ==> ParsedOn(f, before, E(17, "Body", [E(page, "Data", [Text(v)])])) == was)
  {
    hide Atoi, X.ParseNodes, X.SetPart;
    R.LeafText(v);
    forall n: Node ensures ParsedOn(f, before, n) == X.SetFromNode(f, X.ParseException(f, Element(4, "Exception", before)), n) {
      ParseNodesLast(f, X.NO_EXCEPTION, before, n);
    }
    var was := X.ParseException(f, Element(4, "Exception", before));
    PartsAreSet(f, was, v);
    assert X.PartNamed("ExceptionStartTime") == Some(X.OriginalStart) && X.PartNamed("Deleted") == Some(X.Deleted);
    assert X.PartNamed("Subject") == Some(X.Subject) && X.PartNamed("Location") == Some(X.Location);
    assert X.PartNamed("StartTime") == Some(X.Start) && X.PartNamed("EndTime") == Some(X.End);
    assert X.PartNamed("AllDayEvent") == Some(X.AllDay) && X.PartNamed("BusyStatus") == Some(X.Busy);
    assert X.PartNamed("Reminder") == Some(X.Reminder);
    DataIsRead(page, v, was.body);
  }

  lemma PartsAreSet(f: R.TimeFormat, was: X.Exception, v: Bytes)
    ensures X.SetPart(f, was, X.OriginalStart, v) == was.(exceptionStartTime := TimeIn(f, v))
    ensures X.SetPart(f, was, X.Deleted, v) == was.(deleted := v == [0x31])
    ensures X.SetPart(f, was, X.Subject, v) == was.(subject := v) && X.SetPart(f, was, X.Location, v) == was.(location := v)
    ensures X.SetPart(f, was, X.Start, v) == was.(startTime := TimeIn(f, v))
    ensures X.SetPart(f, was, X.End, v) == was.(endTime := TimeIn(f, v))
    ensures X.SetPart(f, was, X.AllDay, v) == was.(allDayEvent := v == [0x31])
    ensures X.SetPart(f, was, X.Busy, v) == was.(busyStatus := Atoi(v))
    ensures X.SetPart(f, was, X.Reminder, v) == was.(reminder := Atoi(v))
  {
    hide Atoi;
  }

  /** Reading starts from an empty exception, and an element of any other name, or a text between them, changes nothing. */
  lemma {:induction false} OtherPartsAreIgnored(f: R.TimeFormat, before: seq<Node>, n: Node)
    requires n.Elem? ==>
               n.e.name !in ["ExceptionStartTime", "Deleted", "Subject", "Location", "StartTime", "EndTime", "AllDayEvent",
                             "BusyStatus", "Reminder", "Body"]
    ensures X.ParseException(f, Element(4, "Exception", [])) == X.Exception(0, false, [], [], 0, 0, false, 0, 0, [])
    ensures ParsedOn(f, before, n) == X.ParseException(f, Element(4, "Exception", before))
  {
    hide X.ParseNodes, X.SetPart;
    ParseNodesLast(f, X.NO_EXCEPTION, before, n);
    assert X.ParseNodes(f, X.NO_EXCEPTION, []) == X.NO_EXCEPTION by { NoParts(f); }
  }

  lemma {:induction false} NoParts(f: R.TimeFormat)
    ensures X.ParseNodes(f, X.NO_EXCEPTION, []) == X.NO_EXCEPTION
  {
  }

  lemma {:induction false} DataIsRead(page: byte, v: Bytes, body: Bytes)
    ensures X.DataIn([E(17, "Data", [Text(v)])], body) == v
    ensures page != 17 ==> X.DataIn([E(page, "Data", [Text(v)])], body) == body
  {
    R.LeafText(v);
    var a, b := [E(17, "Data", [Text(v)])], [E(page, "Data", [Text(v)])];
    assert a[1..] == [] && b[1..] == [];
  }
}
