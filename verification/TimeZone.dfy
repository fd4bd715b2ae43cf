/** The TIME_ZONE_INFORMATION blob: 172 little-endian bytes, two's-complement biases, and names as 32 UTF-16 units
    (RFC 2781 sections 2.1 and 2.2). Base64 around the blob is not part of this model. */
module TimeZone {
  import opened Basics

  // ---- Text ---------------------------------------------------------------

  predicate IsHigh(u: uint16) { 0xD800 <= u <= 0xDBFF }
  predicate IsLow(u: uint16) { 0xDC00 <= u <= 0xDFFF }

  /** A Unicode scalar value: what a Go string holds once decoded. */
  type rune = x: int | 0 <= x <= 0x10FFFF && !(0xD800 <= x <= 0xDFFF)

  const REPLACEMENT: rune := 0xFFFD

  /** Conversion of a lone unit to a string: a surrogate becomes U+FFFD. */
  function FromUnit(u: uint16): rune {
    if IsHigh(u) || IsLow(u) then REPLACEMENT else u
  }

  function EncodeRune(r: rune): seq<uint16> {
    if r < 0x1_0000 then [r] else [HighOf(r - 0x1_0000), LowOf(r - 0x1_0000)]
  }

  function HighOf(x: nat): uint16
    requires x <= 0xF_FFFF
  {
    0xD800 + x / 0x400
  }

  function LowOf(x: nat): uint16 {
    0xDC00 + x % 0x400
  }

  function Utf16(s: seq<rune>): seq<uint16> {
    if s == [] then [] else EncodeRune(s[0]) + Utf16(s[1..])
  }

  predicate StartsPair(u: seq<uint16>) { |u| >= 2 && IsHigh(u[0]) && IsLow(u[1]) }

  function FromPair(high: uint16, low: uint16): rune
    requires IsHigh(high) && IsLow(low)
  {
    (high as int - 0xD800) * 0x400 + (low as int - 0xDC00) + 0x1_0000
  }

  function Decode16(u: seq<uint16>): seq<rune> {
    if u == [] then []
    else if StartsPair(u) then [FromPair(u[0], u[1])] + Decode16(u[2..])
    else [FromUnit(u[0])] + Decode16(u[1..])
  }

  /** RFC 2781 section 2.2: every surrogate belongs to a pair. */
  predicate WellFormed16(u: seq<uint16>) {
    if u == [] then true
    else if StartsPair(u) then WellFormed16(u[2..])
    else !IsHigh(u[0]) && !IsLow(u[0]) && WellFormed16(u[1..])
  }

  method Utf16Encode(s: seq<rune>) returns (out: seq<uint16>)
    ensures out == Utf16(s)
  {
    out := [];
    for i := 0 to |s|
      invariant Utf16(s) == out + Utf16(s[i..])
    {
      assert s[i..][0] == s[i] && s[i..][1..] == s[i + 1..];
      ghost var units, rest := EncodeRune(s[i]), Utf16(s[i + 1..]);
      assert out + (units + rest) == (out + units) + rest;
      var r: int := s[i];
      if r < 0x1_0000 {
        out := out + [r];
      } else {
        r := r - 0x1_0000;
        out := out + [HighOf(r), LowOf(r)];
      }
    }
  }

  lemma DecodeStep(u: seq<uint16>, i: nat)
    requires i < |u|
    ensures var pair := IsHigh(u[i]) && i + 1 < |u| && IsLow(u[i + 1]);
            Decode16(u[i..]) == if pair then [FromPair(u[i], u[i + 1])] + Decode16(u[i + 2..])
                                else [FromUnit(u[i])] + Decode16(u[i + 1..])
  {
    assert u[i..][0] == u[i] && u[i..][1..] == u[i + 1..];
    if i + 1 < |u| { assert u[i..][1] == u[i + 1] && u[i..][2..] == u[i + 2..]; }
  }

  lemma DecodeNothing(u: seq<uint16>)
    ensures u[0..] == u && Decode16(u[|u|..]) == []
  {
  }

  method Utf16Decode(u: seq<uint16>) returns (out: seq<rune>)
    ensures out == Decode16(u)
  {
    hide FromPair, FromUnit, Decode16;
    out := [];
    var i := 0;
    DecodeNothing(u);
    while i < |u|
      invariant i <= |u| && Decode16(u) == out + Decode16(u[i..])
    {
      var c := u[i];
      DecodeStep(u, i);
      if IsHigh(c) && i + 1 < |u| && IsLow(u[i + 1]) {
        out := out + [FromPair(c, u[i + 1])];
        i := i + 2;
      } else {
        out := out + [FromUnit(c)];
        i := i + 1;
      }
    }
  }

  /** A scalar value above U+FFFF is given back by its surrogate pair. */
  lemma PairOfRune(r: rune)
    requires r >= 0x1_0000
    ensures IsHigh(HighOf(r - 0x1_0000)) && IsLow(LowOf(r - 0x1_0000))
    ensures FromPair(HighOf(r - 0x1_0000), LowOf(r - 0x1_0000)) == r
  {
  }

  lemma {:induction false} DecodesRune(r: rune, rest: seq<uint16>)
    ensures Decode16(EncodeRune(r) + rest) == [r] + Decode16(rest)
    ensures WellFormed16(EncodeRune(r) + rest) <==> WellFormed16(rest)
  {
    hide HighOf, LowOf, FromPair;
    var u := EncodeRune(r) + rest;
    assert u[|EncodeRune(r)|..] == rest;
    if r >= 0x1_0000 {
      PairOfRune(r);
      assert u[0] == HighOf(r - 0x1_0000) && u[1] == LowOf(r - 0x1_0000);
    }
  }

  lemma {:induction false} EncodedIsWellFormed(s: seq<rune>)
    ensures WellFormed16(Utf16(s)) && Decode16(Utf16(s)) == s
    decreases s
  {
    hide EncodeRune;
    if s != [] {
      EncodedIsWellFormed(s[1..]);
      DecodesRune(s[0], Utf16(s[1..]));
    }
  }

  /** Re-encoding keeps the length, and gives the units back just when they are well-formed. */
  lemma {:induction false} Reencoded(u: seq<uint16>)
    ensures |Utf16(Decode16(u))| == |u|
    ensures Utf16(Decode16(u)) == u <==> WellFormed16(u)
    decreases |u|
  {
    if u != [] {
      var k := if StartsPair(u) then 2 else 1;
      Reencoded(u[k..]);
      PairOrUnit(u);
      var head, rest := EncodeRune(Decode16(u)[0]), Utf16(Decode16(u[k..]));
      assert Decode16(u)[1..] == Decode16(u[k..]);
      Split(head, rest, u[..k], u[k..]);
      assert u == u[..k] + u[k..];
    }
  }

  lemma {:induction false} DecodedLast(u: seq<uint16>)
    requires u != []
    ensures Decode16(u) != [] && (Decode16(u)[|Decode16(u)| - 1] == 0 <==> u[|u| - 1] == 0)
    decreases |u|
  {
    hide FromPair, FromUnit;
    var k := if StartsPair(u) then 2 else 1;
    var rest := Decode16(u[k..]);
    DecodedFirst(u);
    assert Decode16(u)[1..] == rest;
    if u[k..] != [] {
      DecodedLast(u[k..]);
      assert Decode16(u)[|rest|] == rest[|rest| - 1];
    } else {
      assert u[k - 1] == u[|u| - 1];
    }
  }

  lemma {:induction false} DecodedFirst(u: seq<uint16>)
    requires u != []
    ensures Decode16(u) != [] && (Decode16(u)[0] == 0 <==> u[if StartsPair(u) then 1 else 0] == 0)
  {
  }

  lemma {:induction false} PairOrUnit(u: seq<uint16>)
    requires u != []
    ensures var k := if StartsPair(u) then 2 else 1;
            && |EncodeRune(Decode16(u)[0])| == k
            && (EncodeRune(Decode16(u)[0]) == u[..k] <==> StartsPair(u) || (!IsHigh(u[0]) && !IsLow(u[0])))
  {
  }

  lemma Split<T>(a: seq<T>, b: seq<T>, a': seq<T>, b': seq<T>)
    requires |a| == |a'|
    ensures a + b == a' + b' <==> a == a' && b == b'
  {
    assert (a + b)[..|a|] == a && (a + b)[|a|..] == b;
    assert (a' + b')[..|a|] == a' && (a' + b')[|a|..] == b';
  }

  // ---- Name fields --------------------------------------------------------

  const NAME_UNITS := 32

  function Padded(u: seq<uint16>): (r: seq<uint16>)
    ensures |r| == NAME_UNITS
  {
    if |u| >= NAME_UNITS then u[..NAME_UNITS] else u + seq(NAME_UNITS - |u|, _ => 0)
  }

  function Trimmed(u: seq<uint16>): (r: seq<uint16>)
    ensures r <= u && (r == [] || r[|r| - 1] != 0)
    ensures forall i | |r| <= i < |u| :: u[i] == 0
  {
    if u != [] && u[|u| - 1] == 0 then Trimmed(u[..|u| - 1]) else u
  }

  lemma {:induction false} TrimmedIs(u: seq<uint16>, r: seq<uint16>)
    requires r <= u && (r == [] || r[|r| - 1] != 0)
    requires forall i | |r| <= i < |u| :: u[i] == 0
    ensures Trimmed(u) == r
    decreases |u|
  {
    if |u| > |r| { TrimmedIs(u[..|u| - 1], r); }
  }

  /** What a name must satisfy to survive: it fits, and does not end in U+0000. */
  predicate FitsName(s: seq<rune>) {
    |Utf16(s)| <= NAME_UNITS && (s != [] ==> s[|s| - 1] != 0)
  }

  lemma {:induction false} LastUnit(s: seq<rune>)
    requires s != []
    ensures Utf16(s) != [] && (Utf16(s)[|Utf16(s)| - 1] == 0 <==> s[|s| - 1] == 0)
    decreases s
  {
    hide EncodeRune;
    var rest := Utf16(s[1..]);
    if |s| == 1 {
      LastUnitOfRune(s[0]);
      assert rest == [] && Utf16(s) == EncodeRune(s[0]);
    } else {
      LastUnit(s[1..]);
      assert Utf16(s)[|Utf16(s)| - 1] == rest[|rest| - 1];
    }
  }

  lemma LastUnitOfRune(r: rune)
    ensures var u := EncodeRune(r); u != [] && (u[|u| - 1] == 0 <==> r == 0)
  {
  }

  function ReadName(units: seq<uint16>): seq<rune> {
    Decode16(Trimmed(units))
  }

  /** A name field gives the name back exactly when it fits. */
  lemma {:induction false} NameRoundTrip(s: seq<rune>)
    ensures ReadName(Padded(Utf16(s))) == s <==> FitsName(s)
    ensures FitsName(ReadName(Padded(Utf16(s))))
  {
    var field := Padded(Utf16(s));
    ReadNameFits(field);
    if FitsName(s) {
      if s != [] { LastUnit(s); }
      TrimmedIs(field, Utf16(s));
      EncodedIsWellFormed(s);
    }
  }

  /** Whatever is read from a field of 32 units fits one. */
  lemma ReadNameFits(field: seq<uint16>)
    requires |field| == NAME_UNITS
    ensures FitsName(ReadName(field))
  {
    Reencoded(Trimmed(field));
    if Trimmed(field) != [] { DecodedLast(Trimmed(field)); }
  }

  /** A field of 32 units is written back unchanged exactly when it is well-formed UTF-16. */
  lemma {:induction false} FieldRoundTrip(field: seq<uint16>)
    requires |field| == NAME_UNITS
    ensures Padded(Utf16(ReadName(field))) == field <==> WellFormed16(field)
  {
    var t := Trimmed(field);
    Reencoded(t);
    var zeros := field[|t|..];
    assert field == t + zeros;
    TrailingZeros(t, zeros);
    assert Padded(Utf16(ReadName(field))) == Utf16(Decode16(t)) + zeros;
    assert Utf16(Decode16(t)) + zeros == t + zeros <==> Utf16(Decode16(t)) == t by {
      assert (Utf16(Decode16(t)) + zeros)[..|t|] == Utf16(Decode16(t)) && (t + zeros)[..|t|] == t;
    }
  }

  lemma {:induction false} TrailingZeros(t: seq<uint16>, zeros: seq<uint16>)
    requires forall i | 0 <= i < |zeros| :: zeros[i] == 0
    ensures WellFormed16(t + zeros) <==> WellFormed16(t)
    decreases |t|, |zeros|
  {
    var u := t + zeros;
    if t == [] {
      assert u == zeros;
      if zeros != [] {
        TrailingZeros(t, zeros[1..]);
        assert t + zeros[1..] == zeros[1..];
      }
    } else if StartsPair(t) {
      assert u[2..] == t[2..] + zeros;
      TrailingZeros(t[2..], zeros);
    } else {
      assert u[1..] == t[1..] + zeros;
      TrailingZeros(t[1..], zeros);
    }
  }

  // ---- Little-endian fields -----------------------------------------------

  const TWO_31 := 0x8000_0000
  type int32 = x: int | -0x8000_0000 <= x < 0x8000_0000

  function Put16(u: uint16): Bytes { [u % 0x100, u / 0x100] }

  function Get16(b: Bytes): uint16
    requires |b| == 2
  {
    b[0] as int + 0x100 * b[1] as int
  }

  function PutU32(v: uint32): Bytes { Put16(v % 0x1_0000) + Put16(v / 0x1_0000) }

  function GetU32(b: Bytes): uint32
    requires |b| == 4
  {
    Get16(b[..2]) as int + 0x1_0000 * Get16(b[2..]) as int
  }

  /** A signed field is stored as its two's complement. */
  function ToUnsigned(x: int32): uint32 { if x < 0 then x + TWO_32 else x }

  function ToSigned(v: uint32): int32 { if v >= TWO_31 then v - TWO_32 else v }

  function Put32(x: int32): Bytes { PutU32(ToUnsigned(x)) }

  function Get32(b: Bytes): int32
    requires |b| == 4
  {
    ToSigned(GetU32(b))
  }

  lemma Word16(u: uint16, b: Bytes)
    requires |b| == 2
    ensures Get16(Put16(u)) == u && Put16(Get16(b)) == b
  {
  }

  lemma Word32(x: int32, b: Bytes)
    requires |b| == 4
    ensures Get32(Put32(x)) == x && Put32(Get32(b)) == b
  {
    Unsigned32(ToUnsigned(x));
    Word16(0, b[..2]);
    Word16(0, b[2..]);
    HalvesOf(Get16(b[..2]), Get16(b[2..]));
    assert b == b[..2] + b[2..];
  }

  lemma Unsigned32(v: uint32)
    ensures GetU32(PutU32(v)) == v
  {
    var low, high := v % 0x1_0000, v / 0x1_0000;
    Word16(low, Put16(low));
    Word16(high, Put16(high));
    assert PutU32(v)[..2] == Put16(low) && PutU32(v)[2..] == Put16(high);
  }

  lemma HalvesOf(low: uint16, high: uint16)
    ensures var v := low as int + 0x1_0000 * high as int; v % 0x1_0000 == low && v / 0x1_0000 == high
  {
  }

  function PutUnits(u: seq<uint16>): (b: Bytes)
    ensures |b| == 2 * |u|
  {
    if u == [] then [] else Put16(u[0]) + PutUnits(u[1..])
  }

  function GetUnits(b: Bytes): (u: seq<uint16>)
    requires |b| % 2 == 0
    ensures |u| == |b| / 2
  {
    if b == [] then [] else [Get16(b[..2])] + GetUnits(b[2..])
  }

  lemma {:induction false} UnitsOut(u: seq<uint16>)
    ensures GetUnits(PutUnits(u)) == u
    decreases u
  {
    if u != [] {
      UnitsOut(u[1..]);
      assert PutUnits(u)[..2] == Put16(u[0]) && PutUnits(u)[2..] == PutUnits(u[1..]);
      Word16(u[0], Put16(u[0]));
    }
  }

  lemma {:induction false} UnitsIn(b: Bytes)
    requires |b| % 2 == 0
    ensures PutUnits(GetUnits(b)) == b
    decreases |b|
  {
    if b != [] {
      UnitsIn(b[2..]);
      Word16(0, b[..2]);
      assert GetUnits(b)[1..] == GetUnits(b[2..]);
      assert b == b[..2] + b[2..];
    }
  }

  // ---- The blob -----------------------------------------------------------

  const BLOB_SIZE := 172
  const NAME_SIZE := 64
  const DATE_SIZE := 16

  datatype SystemTime = SystemTime(year: uint16, month: uint16, dayOfWeek: uint16, day: uint16,
                                   hour: uint16, minute: uint16, second: uint16, milliseconds: uint16)

  datatype EASTimeZone = EASTimeZone(biasMinutes: int32,
                                     standardName: seq<rune>, standardDate: SystemTime, standardBias: int32,
                                     daylightName: seq<rune>, daylightDate: SystemTime, daylightBias: int32)

  function DateUnits(t: SystemTime): seq<uint16> {
    [t.year, t.month, t.dayOfWeek, t.day, t.hour, t.minute, t.second, t.milliseconds]
  }

  function DateOf(u: seq<uint16>): SystemTime
    requires |u| == 8
  {
    SystemTime(u[0], u[1], u[2], u[3], u[4], u[5], u[6], u[7])
  }

  function NameBytes(s: seq<rune>): Bytes { PutUnits(Padded(Utf16(s))) }

  /** One of the two halves: a name, its transition date and its bias. */
  function RuleBytes(name: seq<rune>, date: SystemTime, bias: int32): Bytes {
    NameBytes(name) + PutUnits(DateUnits(date)) + Put32(bias)
  }

  function Encode(t: EASTimeZone): Bytes {
    Put32(t.biasMinutes)
    + RuleBytes(t.standardName, t.standardDate, t.standardBias)
    + RuleBytes(t.daylightName, t.daylightDate, t.daylightBias)
  }

  function Decode(b: Bytes): Option<EASTimeZone> {
    if |b| != BLOB_SIZE then None
    else Some(EASTimeZone(Get32(b[0..4]),
                          ReadName(GetUnits(b[4..68])), DateOf(GetUnits(b[68..84])), Get32(b[84..88]),
                          ReadName(GetUnits(b[88..152])), DateOf(GetUnits(b[152..168])), Get32(b[168..172])))
  }

  /** The two name fields of a blob, as 16-bit units. */
  function NameFields(b: Bytes): (seq<uint16>, seq<uint16>)
    requires |b| == BLOB_SIZE
  {
    (GetUnits(b[4..68]), GetUnits(b[88..152]))
  }

  predicate Fits(t: EASTimeZone) { FitsName(t.standardName) && FitsName(t.daylightName) }

  function Truncated(s: seq<rune>): seq<rune> { ReadName(Padded(Utf16(s))) }

  function RuleOf(r: Bytes): (seq<rune>, SystemTime, int32)
    requires |r| == 84
  {
    (ReadName(GetUnits(r[..64])), DateOf(GetUnits(r[64..80])), Get32(r[80..]))
  }

  lemma RuleFields(name: seq<rune>, date: SystemTime, bias: int32)
    ensures |RuleBytes(name, date, bias)| == 84 && RuleOf(RuleBytes(name, date, bias)) == (Truncated(name), date, bias)
  {
    var r := RuleBytes(name, date, bias);
    assert r[..64] == NameBytes(name) && r[64..80] == PutUnits(DateUnits(date)) && r[80..] == Put32(bias);
    UnitsOut(Padded(Utf16(name)));
    UnitsOut(DateUnits(date));
    Word32(bias, Put32(bias));
  }

  /** Every field survives, except that the names come back truncated and trimmed. */
  lemma DecodesEncoded(t: EASTimeZone)
    ensures |Encode(t)| == BLOB_SIZE
    ensures Decode(Encode(t)) == Some(t.(standardName := Truncated(t.standardName), daylightName := Truncated(t.daylightName)))
  {
    hide Get32, ReadName, Truncated, PutUnits, GetUnits;
    var b := Encode(t);
    RuleFields(t.standardName, t.standardDate, t.standardBias);
    RuleFields(t.daylightName, t.daylightDate, t.daylightBias);
    Word32(t.biasMinutes, Put32(t.biasMinutes));
    var standard, daylight := b[4..88], b[88..];
    assert b[0..4] == Put32(t.biasMinutes);
    assert standard == RuleBytes(t.standardName, t.standardDate, t.standardBias);
    assert daylight == RuleBytes(t.daylightName, t.daylightDate, t.daylightBias);
    assert b[4..68] == standard[..64] && b[68..84] == standard[64..80] && b[84..88] == standard[80..];
    assert b[88..152] == daylight[..64] && b[152..168] == daylight[64..80] && b[168..172] == daylight[80..];
  }

  /** The struct is given back exactly when each name has at most 32 units and no trailing U+0000. */
  lemma StructRoundTrip(t: EASTimeZone)
    ensures Decode(Encode(t)) == Some(t) <==> Fits(t)
  {
    DecodesEncoded(t);
    NameRoundTrip(t.standardName);
    NameRoundTrip(t.daylightName);
  }

  /** Decoding after encoding settles at once, also for a name cut in the middle of a surrogate pair. */
  lemma DecodeEncodeIsIdempotent(t: EASTimeZone)
    ensures Decode(Encode(t)).Some? && Fits(Decode(Encode(t)).value)
    ensures Decode(Encode(Decode(Encode(t)).value)) == Decode(Encode(t))
  {
    DecodesEncoded(t);
    NameRoundTrip(t.standardName);
    NameRoundTrip(t.daylightName);
    StructRoundTrip(Decode(Encode(t)).value);
  }

  lemma {:induction false} NameBytesRoundTrip(field: seq<uint16>)
    requires |field| == NAME_UNITS
    ensures NameBytes(ReadName(field)) == PutUnits(field) <==> WellFormed16(field)
  {
    FieldRoundTrip(field);
    UnitsInjective(Padded(Utf16(ReadName(field))), field);
  }

  lemma {:induction false} UnitsInjective(u: seq<uint16>, v: seq<uint16>)
    ensures PutUnits(u) == PutUnits(v) <==> u == v
  {
    UnitsOut(u);
    UnitsOut(v);
  }

  lemma {:induction false} RuleRoundTrip(name: Bytes, date: Bytes, bias: Bytes)
    requires |name| == NAME_SIZE && |date| == DATE_SIZE && |bias| == 4
    ensures RuleBytes(ReadName(GetUnits(name)), DateOf(GetUnits(date)), Get32(bias)) == name + date + bias
       <==> WellFormed16(GetUnits(name))
  {
    hide ReadName, WellFormed16, Get32, Put32, PutUnits;
    UnitsIn(name);
    NameBytesRoundTrip(GetUnits(name));
    UnitsIn(date);
    Word32(0, bias);
    assert DateUnits(DateOf(GetUnits(date))) == GetUnits(date);
    Split(NameBytes(ReadName(GetUnits(name))) + date, bias, name + date, bias);
    Split(NameBytes(ReadName(GetUnits(name))), date, name, date);
  }

  /** Every 172-byte blob is written back byte for byte exactly when both name fields are well-formed UTF-16. */
  lemma BlobRoundTrip(b: Bytes)
    requires |b| == BLOB_SIZE
    ensures Decode(b).Some?
    ensures Encode(Decode(b).value) == b <==> WellFormed16(NameFields(b).0) && WellFormed16(NameFields(b).1)
  {
    var t := Decode(b).value;
    RuleRoundTrip(b[4..68], b[68..84], b[84..88]);
    RuleRoundTrip(b[88..152], b[152..168], b[168..172]);
    Word32(0, b[0..4]);
    var standard, daylight := b[4..68] + b[68..84] + b[84..88], b[88..152] + b[152..168] + b[168..172];
    Halves(b);
    var x, y := RuleBytes(t.standardName, t.standardDate, t.standardBias), RuleBytes(t.daylightName, t.daylightDate, t.daylightBias);
    Split(b[0..4] + x, y, b[0..4] + standard, daylight);
    Split(b[0..4], x, b[0..4], standard);
  }

  lemma Halves(b: Bytes)
    requires |b| == BLOB_SIZE
    ensures b == b[0..4] + (b[4..68] + b[68..84] + b[84..88]) + (b[88..152] + b[152..168] + b[168..172])
  {
    assert b[4..68] + b[68..84] + b[84..88] == b[4..88];
    assert b[88..152] + b[152..168] + b[168..172] == b[88..];
  }

  // ---- Writing in place ---------------------------------------------------

  method PutUint16(buf: array<byte>, at: nat, u: uint16)
    requires at + 2 <= buf.Length
    modifies buf
    ensures buf[..at + 2] == old(buf[..at]) + Put16(u) && buf[at + 2..] == old(buf[at + 2..])
  {
    buf[at], buf[at + 1] := u % 0x100, u / 0x100;
  }

  method PutUint32(buf: array<byte>, at: nat, x: int32)
    requires at + 4 <= buf.Length
    modifies buf
    ensures buf[..at + 4] == old(buf[..at]) + Put32(x) && buf[at + 4..] == old(buf[at + 4..])
  {
    var v := ToUnsigned(x);
    PutUint16(buf, at, v % 0x1_0000);
    assert buf[at + 4..] == buf[at + 2..][2..] == old(buf[at + 2..])[2..];
    PutUint16(buf, at + 2, v / 0x1_0000);
  }

  /** Writes consecutive units, two bytes each. */
  method WriteUnits(buf: array<byte>, at: nat, units: seq<uint16>)
    requires at + 2 * |units| <= buf.Length
    modifies buf
    ensures buf[..at + 2 * |units|] == old(buf[..at]) + PutUnits(units)
    ensures buf[at + 2 * |units|..] == old(buf[at + 2 * |units|..])
  {
    for i := 0 to |units|
      invariant old(buf[..at]) + PutUnits(units) == buf[..at + 2 * i] + PutUnits(units[i..])
      invariant buf[at + 2 * |units|..] == old(buf[at + 2 * |units|..])
    {
      assert units[i..][0] == units[i] && units[i..][1..] == units[i + 1..];
      ghost var written, after := buf[..at + 2 * i], at + 2 * (i + 1);
      ghost var kept := buf[after..];
      assert buf[at + 2 * |units|..] == kept[2 * (|units| - i - 1)..];
      PutUint16(buf, at + 2 * i, units[i]);
      assert written + (Put16(units[i]) + PutUnits(units[i + 1..])) == (written + Put16(units[i])) + PutUnits(units[i + 1..]);
    }
  }

  /** Pads with NULs or cuts at 32 units; the source's comment speaks of 31, its code keeps 32. */
  method PadUnits(enc: seq<uint16>) returns (units: seq<uint16>)
    ensures units == Padded(enc)
  {
    var out := new uint16[NAME_UNITS](_ => 0);
    var n := if |enc| < out.Length then |enc| else out.Length;
    for i := 0 to n
      invariant out[..i] == enc[..i]
      invariant forall k | i <= k < out.Length :: out[k] == 0
    {
      out[i] := enc[i];
    }
    return out[..];
  }

  method WriteWCharFixed(buf: array<byte>, at: nat, s: seq<rune>)
    requires at + NAME_SIZE <= buf.Length
    modifies buf
    ensures buf[..at + NAME_SIZE] == old(buf[..at]) + NameBytes(s) && buf[at + NAME_SIZE..] == old(buf[at + NAME_SIZE..])
  {
    var enc := Utf16Encode(s);
    var units := PadUnits(enc);
    WriteUnits(buf, at, units);
  }

  lemma Regroup(a: Bytes, name: Bytes, date: Bytes, bias: Bytes)
    ensures a + name + date + bias == a + (name + date + bias)
  {
    Associative(a + name, date, bias);
    Associative(a, name, date + bias);
    Associative(name, date, bias);
  }

  method EncodeTimeZone(t: EASTimeZone) returns (blob: Bytes)
    ensures blob == Encode(t)
  {
    hide Put32, NameBytes, PutUnits;
    var buf := new byte[BLOB_SIZE];
    assert buf[..0] == [];
    PutUint32(buf, 0, t.biasMinutes);
    WriteWCharFixed(buf, 4, t.standardName);
    WriteUnits(buf, 68, DateUnits(t.standardDate));
    PutUint32(buf, 84, t.standardBias);
    WriteWCharFixed(buf, 88, t.daylightName);
    WriteUnits(buf, 152, DateUnits(t.daylightDate));
    PutUint32(buf, 168, t.daylightBias);
    Regroup(Put32(t.biasMinutes), NameBytes(t.standardName), PutUnits(DateUnits(t.standardDate)), Put32(t.standardBias));
    Regroup(Put32(t.biasMinutes) + RuleBytes(t.standardName, t.standardDate, t.standardBias),
            NameBytes(t.daylightName), PutUnits(DateUnits(t.daylightDate)), Put32(t.daylightBias));
    assert buf[..] == buf[..BLOB_SIZE];
    return buf[..];
  }

  method ReadWCharFixed(src: Bytes) returns (s: seq<rune>)
    requires |src| % 2 == 0
    ensures s == ReadName(GetUnits(src))
  {
    var codes := GetUnits(src);
    ghost var all := codes;
    while |codes| > 0 && codes[|codes| - 1] == 0
      invariant codes <= all && Trimmed(all) == Trimmed(codes)
    {
      codes := codes[..|codes| - 1];
    }
    s := Utf16Decode(codes);
  }
}
