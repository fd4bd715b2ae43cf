/** The client's own integer formatting and parsing, over 64-bit integers that wrap. */
module Decimal {
  import opened Basics

  const MIN_INT64 := -0x8000_0000_0000_0000
  const MAX_INT64 := 0x7FFF_FFFF_FFFF_FFFF
  type int64 = x: int | MIN_INT64 <= x <= MAX_INT64

  const ZERO: byte := 0x30
  const MINUS: byte := 0x2D

  function Wrap64(x: int): int64 {
    (x - MIN_INT64) % 0x1_0000_0000_0000_0000 + MIN_INT64
  }

  predicate IsDigit(b: byte) { ZERO <= b <= ZERO + 9 }

  predicate AllDigits(s: Bytes) { forall i | 0 <= i < |s| :: IsDigit(s[i]) }

  /** The unbounded number a run of digits spells, after `acc`. */
  function Value(acc: nat, s: Bytes): nat
    requires AllDigits(s)
    decreases s
  {
    if s == [] then acc else Value(acc * 10 + (s[0] - ZERO), s[1..])
  }

  // ---- itoa ---------------------------------------------------------------

  function Digits(n: nat): Bytes {
    if n == 0 then [] else Digits(n / 10) + [ZERO + n % 10]
  }

  /** The least 64-bit integer has no negation, so it is formatted as a bare minus sign. */
  function Itoa(n: int64): Bytes {
    if n == 0 then [ZERO]
    else if n == MIN_INT64 then [MINUS]
    else if n < 0 then [MINUS] + Digits(-n)
    else Digits(n)
  }

  function Pow10(k: int): (r: nat)
    ensures r >= 1
  {
    if k <= 0 then 1 else 10 * Pow10(k - 1)
  }

  lemma {:induction false} DigitsLength(n: nat, k: nat)
    ensures n < Pow10(k) <==> |Digits(n)| <= k
    decreases k
  {
    if n > 0 && k > 0 {
      DigitsLength(n / 10, k - 1);
      var bound := Pow10(k - 1);
      assert n / 10 < bound <==> n < 10 * bound;
    }
  }

  lemma Int64Length(n: nat)
    requires n <= MAX_INT64
    ensures n < Pow10(19)
  {
    assert Pow10(5) == 10 * Pow10(4) == 100000;
    assert Pow10(10) == 100000 * Pow10(5);
    assert Pow10(15) == 100000 * Pow10(10);
    assert Pow10(19) == 10000 * Pow10(15);
  }

  /** Negation wraps only for the least integer. */
  lemma Negation(n: int64)
    ensures Wrap64(-(n as int)) == if n == MIN_INT64 then n else -n
  {
  }

  lemma {:induction false} AtMost19Digits(n: nat)
    requires n <= MAX_INT64
    ensures |Digits(n)| <= 19
  {
    Int64Length(n);
    DigitsLength(n, 19);
  }

  lemma {:induction false} DigitStep(n: nat, tail: Bytes)
    requires n > 0
    ensures Digits(n) + tail == Digits(n / 10) + ([ZERO + n % 10] + tail)
    ensures |Digits(n)| == |Digits(n / 10)| + 1
  {
  }

  function Positive(m: int): nat {
    if m > 0 then m else 0
  }

  /** Fills a 20-byte buffer from the back; the index never runs below the start of the buffer. */
  method FormatInt(n: int64) returns (s: Bytes)
    ensures s == Itoa(n)
  {
    if n == 0 {
      return [ZERO];
    }
    var neg := n < 0;
    var m := if neg then Wrap64(-(n as int)) else n;
    var buf := new byte[20];
    var i := buf.Length;
    ghost var whole := Digits(Positive(m));
    Negation(n);
    AtMost19Digits(Positive(m));
    assert whole + buf[i..] == whole;
    while m > 0
      invariant 1 <= i <= 20 && |whole| <= 19
      invariant whole == Digits(Positive(m)) + buf[i..]
    {
      DigitStep(m, buf[i..]);
      ghost var tail := buf[i..];
      i := i - 1;
      buf[i] := ZERO + m % 10;
      assert buf[i..] == [ZERO + m % 10] + tail;
      m := m / 10;
    }
    if neg {
      i := i - 1;
      buf[i] := MINUS;
      assert buf[i..] == [MINUS] + whole;
    }
    return buf[i..];
  }

  /** Digits only, the right value, and no leading zero. */
  lemma {:induction false} DigitsAreCanonical(n: nat, rest: Bytes)
    requires AllDigits(rest)
    ensures AllDigits(Digits(n)) && AllDigits(Digits(n) + rest)
    ensures Value(0, Digits(n) + rest) == Value(n, rest)
    ensures n > 0 ==> Digits(n) != [] && Digits(n)[0] != ZERO
    decreases n
  {
    if n == 0 {
      assert Digits(n) + rest == rest;
    } else {
      var last := [ZERO + n % 10];
      DigitsAreCanonical(n / 10, last + rest);
      assert Digits(n) + rest == Digits(n / 10) + (last + rest);
      assert (last + rest)[1..] == rest;
    }
  }

  /** The canonical decimal of every 64-bit integer above the least. */
  lemma ItoaIsCanonical(n: int64)
    requires n > MIN_INT64
    ensures var magnitude := if n < 0 then Itoa(n)[1..] else Itoa(n);
            && (n < 0 ==> Itoa(n)[0] == MINUS)
            && 1 <= |magnitude| <= 19 && AllDigits(magnitude)
            && Value(0, magnitude) == (if n < 0 then -n else n)
            && (magnitude[0] == ZERO ==> n == 0)
  {
    var m := if n < 0 then -n else n;
    DigitsAreCanonical(m, []);
    assert Digits(m) + [] == Digits(m);
    AtMost19Digits(m);
    assert [ZERO][1..] == [];
    if n < 0 { assert Itoa(n)[1..] == Digits(m); }
  }

  // ---- atoi ---------------------------------------------------------------

  /** The length of the UTF-8 white space at the front of `s`, or zero. */
  function SpaceAt(s: Bytes): (k: nat)
    ensures k <= |s|
  {
    if |s| >= 1 && (0x09 <= s[0] <= 0x0D || s[0] == 0x20) then 1
    else if |s| >= 2 && IsSpace2(s[0], s[1]) then 2
    else if |s| >= 3 && IsSpace3(s[0], s[1], s[2]) then 3
    else 0
  }

  /** The length of the UTF-8 white space at the end of `s`, or zero. */
  function SpaceBefore(s: Bytes): (k: nat)
    ensures k <= |s|
  {
    var n := |s|;
    if n >= 1 && (0x09 <= s[n - 1] <= 0x0D || s[n - 1] == 0x20) then 1
    else if n >= 2 && IsSpace2(s[n - 2], s[n - 1]) then 2
    else if n >= 3 && IsSpace3(s[n - 3], s[n - 2], s[n - 1]) then 3
    else 0
  }

  /** U+0085 and U+00A0. */
  predicate IsSpace2(a: byte, b: byte) {
    a == 0xC2 && (b == 0x85 || b == 0xA0)
  }

  /** U+1680, U+2000 to U+200A, U+2028, U+2029, U+202F, U+205F and U+3000. */
  predicate IsSpace3(a: byte, b: byte, c: byte) {
    || (a == 0xE1 && b == 0x9A && c == 0x80)
    || (a == 0xE2 && b == 0x80 && (0x80 <= c <= 0x8A || c in {0xA8, 0xA9, 0xAF}))
    || (a == 0xE2 && b == 0x81 && c == 0x9F)
    || (a == 0xE3 && b == 0x80 && c == 0x80)
  }

  function TrimLeft(s: Bytes): Bytes
    decreases |s|
  {
    if SpaceAt(s) == 0 then s else TrimLeft(s[SpaceAt(s)..])
  }

  function TrimRight(s: Bytes): Bytes
    decreases |s|
  {
    if SpaceBefore(s) == 0 then s else TrimRight(s[..|s| - SpaceBefore(s)])
  }

  function TrimSpace(s: Bytes): Bytes {
    TrimRight(TrimLeft(s))
  }

  /** The accumulating parser, after `acc`: the first byte that is not a digit makes the answer zero. */
  function AtoiFrom(acc: int64, t: Bytes): int64
    decreases t
  {
    if t == [] then acc
    else if !IsDigit(t[0]) then 0
    else AtoiFrom(Wrap64(acc * 10 + (t[0] - ZERO)), t[1..])
  }

  function Atoi(s: Bytes): int64 {
    AtoiFrom(0, TrimSpace(s))
  }

  lemma WrapMultiple(x: int, k: int)
    ensures Wrap64(x + k * 0x1_0000_0000_0000_0000) == Wrap64(x)
  {
  }

  lemma WrapLinear(x: int, d: int)
    ensures Wrap64(x * 10 + d) == Wrap64(Wrap64(x) * 10 + d)
  {
    var k := (x - Wrap64(x)) / 0x1_0000_0000_0000_0000;
    assert x == Wrap64(x) + k * 0x1_0000_0000_0000_0000;
    WrapMultiple(Wrap64(x) * 10 + d, k * 10);
  }

  /** On digits the parser computes their value modulo 2^64, as a signed number; on anything else, zero. */
  lemma {:induction false} AtoiFromIs(acc: nat, t: Bytes)
    ensures AtoiFrom(Wrap64(acc), t) == if AllDigits(t) then Wrap64(Value(acc, t)) else 0
    decreases t
  {
    if t != [] {
      assert AllDigits(t) <==> IsDigit(t[0]) && AllDigits(t[1..]) by {
        assert t == [t[0]] + t[1..];
      }
      if IsDigit(t[0]) {
        AtoiFromIs(acc * 10 + (t[0] - ZERO), t[1..]);
        WrapLinear(acc, t[0] - ZERO);
      }
    }
  }

  method ParseInt(s: Bytes) returns (n: int64)
    ensures n == Atoi(s)
  {
    var t := TrimSpace(s);
    if t == [] {
      return 0;
    }
    n := 0;
    for i := 0 to |t|
      invariant AtoiFrom(0, t) == AtoiFrom(n, t[i..])
    {
      assert t[i..][0] == t[i] && t[i..][1..] == t[i + 1..];
      if !IsDigit(t[i]) {
        return 0;
      }
      n := Wrap64(n * 10 + (t[i] - ZERO));
    }
  }

  lemma DigitsAreNotTrimmed(s: Bytes)
    requires s != [] ==> !IsWhiteByte(s[0]) && !IsWhiteByte(s[|s| - 1])
    ensures TrimSpace(s) == s
  {
  }

  predicate IsWhiteByte(b: byte) { b >= 0x80 || 0x09 <= b <= 0x0D || b == 0x20 }

  lemma NegativeIsJunk(s: Bytes)
    requires s != [] && s[0] == MINUS && !IsWhiteByte(s[|s| - 1])
    ensures Atoi(s) == 0
  {
    DigitsAreNotTrimmed(s);
  }

  lemma {:induction false} DigitsAreParsed(s: Bytes)
    requires s != [] && AllDigits(s)
    ensures Atoi(s) == Wrap64(Value(0, s))
  {
    DigitsAreNotTrimmed(s);
    AtoiFromIs(0, s);
  }

  /** What is formatted is read back exactly when it is not negative; every negative number reads back as zero. */
  lemma AtoiOfItoa(n: int64)
    ensures Atoi(Itoa(n)) == if n >= 0 then n else 0
  {
    if n > MIN_INT64 { ItoaIsCanonical(n); }
    if n < 0 {
      NegativeIsJunk(Itoa(n));
    } else {
      DigitsAreParsed(Itoa(n));
    }
  }
}
