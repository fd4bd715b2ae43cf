/** The time-zone blob byte by byte: which field lies where, in which order of bytes, and how its names are coded. */
module BlobLayout {
  import opened Basics
  import opened TimeZone

  /** Two bytes, least significant first. */
  function Word(u: uint16): Bytes { [u % 0x100, u / 0x100] }

  /** Four bytes of two's complement, least significant first. */
  function DoubleWord(x: int32): Bytes {
    var u: int := if x < 0 then x + 0x1_0000_0000 else x;
    [u % 0x100, u / 0x100 % 0x100, u / 0x1_0000 % 0x100, u / 0x100_0000 % 0x100]
  }

  function Date(t: SystemTime): Bytes {
    Word(t.year) + Word(t.month) + Word(t.dayOfWeek) + Word(t.day)
    + Word(t.hour) + Word(t.minute) + Word(t.second) + Word(t.milliseconds)
  }

  /** Unit `i` of a name, or zero after its end. */
  function UnitAt(name: seq<rune>, i: nat): uint16 {
    if i < |Utf16(name)| then Utf16(name)[i] else 0
  }

  lemma DoubleWordIs(x: int32)
    ensures Put32(x) == DoubleWord(x)
  {
    var u: uint32 := ToUnsigned(x);
    Quarters(u);
  }

  lemma Quarters(u: uint32)
    ensures u % 0x1_0000 % 0x100 == u % 0x100 && u % 0x1_0000 / 0x100 == u / 0x100 % 0x100
    ensures u / 0x1_0000 / 0x100 == u / 0x100_0000 % 0x100
  {
  }

  lemma DateIs(t: SystemTime)
    ensures PutUnits(DateUnits(t)) == Date(t)
  {
    var u := DateUnits(t);
    assert u[1..][1..][1..][1..] == [t.hour, t.minute, t.second, t.milliseconds];
    FourUnits(t.year, t.month, t.dayOfWeek, t.day, u[4..]);
    FourUnits(t.hour, t.minute, t.second, t.milliseconds, []);
    assert u == [t.year, t.month, t.dayOfWeek, t.day] + u[4..] && u[4..] == [t.hour, t.minute, t.second, t.milliseconds] + [];
  }

  lemma {:induction false} FourUnits(a: uint16, b: uint16, c: uint16, d: uint16, rest: seq<uint16>)
    ensures PutUnits([a, b, c, d] + rest) == Word(a) + Word(b) + Word(c) + Word(d) + PutUnits(rest)
  {
    FirstUnit(d, rest);
    FirstUnit(c, [d] + rest);
    FirstUnit(b, [c] + ([d] + rest));
    FirstUnit(a, [b] + ([c] + ([d] + rest)));
    assert [a, b, c, d] + rest == [a] + ([b] + ([c] + ([d] + rest)));
  }

  lemma {:induction false} FirstUnit(a: uint16, rest: seq<uint16>)
    ensures PutUnits([a] + rest) == Word(a) + PutUnits(rest)
  {
    assert ([a] + rest)[1..] == rest;
  }

  lemma {:induction false} UnitBytes(u: seq<uint16>, i: nat)
    requires i < |u|
    ensures PutUnits(u)[2 * i] == u[i] % 0x100 && PutUnits(u)[2 * i + 1] == u[i] / 0x100
    decreases u
  {
    if i > 0 { UnitBytes(u[1..], i - 1); }
  }

  lemma NameIs(name: seq<rune>, i: nat)
    requires i < 32
    ensures |NameBytes(name)| == 64
    ensures NameBytes(name)[2 * i] == UnitAt(name, i) % 0x100 && NameBytes(name)[2 * i + 1] == UnitAt(name, i) / 0x100
  {
    hide Utf16;
    UnitBytes(Padded(Utf16(name)), i);
  }

  /** The 172 bytes: a bias; a name of 32 units, a date and a bias for standard time; and the same for daylight time. */
  lemma LayoutIs(t: EASTimeZone)
    ensures var b := Encode(t);
            && |b| == 172
            && b[0..4] == DoubleWord(t.biasMinutes)
            && b[68..84] == Date(t.standardDate) && b[84..88] == DoubleWord(t.standardBias)
            && b[152..168] == Date(t.daylightDate) && b[168..172] == DoubleWord(t.daylightBias)
            && b[4..68] == NameBytes(t.standardName) && b[88..152] == NameBytes(t.daylightName)
  {
    hide Put32, PutUnits, NameBytes, DoubleWord;
    DoubleWordIs(t.biasMinutes);
    RuleIs(t.standardName, t.standardDate, t.standardBias);
    RuleIs(t.daylightName, t.daylightDate, t.daylightBias);
    Lengths(t.biasMinutes);
    var s := RuleBytes(t.standardName, t.standardDate, t.standardBias);
    var b, d := Encode(t), RuleBytes(t.daylightName, t.daylightDate, t.daylightBias);
    assert b[4..88] == s && b[88..172] == d;
    assert b[4..68] == s[..64] && b[68..84] == s[64..80] && b[84..88] == s[80..84];
    assert b[88..152] == d[..64] && b[152..168] == d[64..80] && b[168..172] == d[80..84];
  }

  lemma Lengths(x: int32)
    ensures |DoubleWord(x)| == 4
  {
  }

  lemma RuleIs(name: seq<rune>, date: SystemTime, bias: int32)
    ensures var r := RuleBytes(name, date, bias);
            |r| == 84 && r[..64] == NameBytes(name) && r[64..80] == Date(date) && r[80..84] == DoubleWord(bias)
  {
    hide PutUnits, Put32, DoubleWord, Utf16;
    DateIs(date);
    DoubleWordIs(bias);
    Lengths(bias);
  }

  /** The bytes of a name lie where its units say, and any other length is refused. */
  lemma NamesLieAt(t: EASTimeZone, i: nat, other: Bytes)
    requires i < 32
    ensures var b := Encode(t);
            && |b| == 172
            && b[4 + 2 * i] == UnitAt(t.standardName, i) % 0x100 && b[4 + 2 * i + 1] == UnitAt(t.standardName, i) / 0x100
            && b[88 + 2 * i] == UnitAt(t.daylightName, i) % 0x100 && b[88 + 2 * i + 1] == UnitAt(t.daylightName, i) / 0x100
    ensures Decode(other).Some? <==> |other| == 172
  {
    hide NameBytes, Encode, UnitAt, Date, DoubleWord;
    LayoutIs(t);
    NameIs(t.standardName, i);
    NameIs(t.daylightName, i);
    var b := Encode(t);
    assert b[4..68][2 * i] == b[4 + 2 * i] && b[4..68][2 * i + 1] == b[4 + 2 * i + 1];
    assert b[88..152][2 * i] == b[88 + 2 * i] && b[88..152][2 * i + 1] == b[88 + 2 * i + 1];
  }

  /** RFC 2781 section 2.1: a scalar below 10000 is itself, and any other is the pair whose halves add up to it. */
  lemma UnitsOfScalar(r: rune)
    ensures r < 0x1_0000 ==> Utf16([r]) == [r]
    ensures r >= 0x1_0000 ==>
              var u := Utf16([r]);
              && |u| == 2 && 0xD800 <= u[0] <= 0xDBFF && 0xDC00 <= u[1] <= 0xDFFF
              && (u[0] as int - 0xD800) * 0x400 + (u[1] as int - 0xDC00) + 0x1_0000 == r
  {
    assert [r][1..] == [];
  }

  /** A surrogate that no partner follows or precedes is read as U+FFFD. */
  lemma {:induction false} LoneSurrogate(u: uint16, after: seq<uint16>)
    requires 0xD800 <= u <= 0xDFFF && !(u <= 0xDBFF && after != [] && 0xDC00 <= after[0] <= 0xDFFF)
    ensures Decode16([u] + after) == [0xFFFD] + Decode16(after)
  {
    assert ([u] + after)[1..] == after;
    assert after != [] ==> ([u] + after)[1] == after[0];
  }
}
