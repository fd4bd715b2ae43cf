/** Decimal text in plain bytes: the digits, the minus sign, and the white space around a number. */
module Numerals {
  import opened Basics
  import opened Decimal

  /** A digit is its byte 30 to 39; a longer number is its quotient by ten and its last digit; a negative one has a 2D. */
  lemma ItoaInBytes(n: int64)
    ensures 0 <= n < 10 ==> Itoa(n) == [0x30 + n]
    ensures n >= 10 ==> Itoa(n) == Itoa(n / 10) + [0x30 + n % 10]
    ensures -0x8000_0000_0000_0000 < n < 0 ==> Itoa(n) == [0x2D] + Itoa(-n)
    ensures n == -0x8000_0000_0000_0000 ==> Itoa(n) == [0x2D]
  {
    if 0 < n < 10 { assert Digits(n / 10) == []; }
  }

  /** The 25 spellings of white space that are trimmed, as UTF-8. */
  const SPACES: seq<Bytes> := [[0x09], [0x0A], [0x0B], [0x0C], [0x0D], [0x20], [0xC2, 0x85], [0xC2, 0xA0], [0xE1, 0x9A, 0x80],
                               [0xE2, 0x80, 0x80], [0xE2, 0x80, 0x81], [0xE2, 0x80, 0x82], [0xE2, 0x80, 0x83], [0xE2, 0x80, 0x84],
                               [0xE2, 0x80, 0x85], [0xE2, 0x80, 0x86], [0xE2, 0x80, 0x87], [0xE2, 0x80, 0x88], [0xE2, 0x80, 0x89],
                               [0xE2, 0x80, 0x8A], [0xE2, 0x80, 0xA8], [0xE2, 0x80, 0xA9], [0xE2, 0x80, 0xAF], [0xE2, 0x81, 0x9F],
                               [0xE3, 0x80, 0x80]]

  /** Any number of spaces, by their numbers in the list. */
  function Spaces(which: seq<nat>): Bytes
    requires forall i | 0 <= i < |which| :: which[i] < |SPACES|
  {
    if which == [] then [] else SPACES[which[0]] + Spaces(which[1..])
  }

  predicate Listed(which: seq<nat>) { forall i | 0 <= i < |which| :: which[i] < 25 }

  lemma SpaceInFront(k: nat, rest: Bytes)
    requires k < 25
    ensures SpaceAt(SPACES[k] + rest) == |SPACES[k]| && (SPACES[k] + rest)[|SPACES[k]|..] == rest
  {
  }

  lemma SpaceBehind(k: nat, rest: Bytes)
    requires k < 25
    ensures SpaceBefore(rest + SPACES[k]) == |SPACES[k]|
    ensures (rest + SPACES[k])[..|rest + SPACES[k]| - |SPACES[k]|] == rest
  {
  }

  lemma {:induction false} TrimsFront(which: seq<nat>, rest: Bytes)
    requires Listed(which)
    ensures TrimLeft(Spaces(which) + rest) == TrimLeft(rest)
    decreases which
  {
    hide SpaceAt;
    if which == [] {
      assert [] + rest == rest;
    } else {
      Associative(SPACES[which[0]], Spaces(which[1..]), rest);
      SpaceInFront(which[0], Spaces(which[1..]) + rest);
      TrimsFront(which[1..], rest);
    }
  }

  lemma {:induction false} TrimsBehind(which: seq<nat>, rest: Bytes)
    requires Listed(which)
    ensures TrimRight(rest + Spaces(which)) == TrimRight(rest)
    decreases |which|
  {
    hide SpaceBefore;
    if which == [] {
      assert rest + [] == rest;
    } else {
      Associative(rest, SPACES[which[0]], Spaces(which[1..]));
      TrimsBehind(which[1..], rest + SPACES[which[0]]);
      SpaceBehind(which[0], rest);
    }
  }

  predicate EndsWith(s: Bytes, tail: Bytes) { |tail| <= |s| && s[|s| - |tail|..] == tail }

  /** Nothing but the listed spellings counts as white space, at either end. */
  lemma SpacesAreListed(s: Bytes)
    ensures SpaceAt(s) > 0 ==> exists k | 0 <= k < 25 :: SPACES[k] <= s
    ensures SpaceBefore(s) > 0 ==> exists k | 0 <= k < 25 :: EndsWith(s, SPACES[k])
  {
    var n, m := SpaceAt(s), SpaceBefore(s);
    if n > 0 {
      IsListed(s[..n]);
      assert SPACES[Number(s[..n])] <= s;
    }
    if m > 0 {
      IsListed(s[|s| - m..]);
      assert EndsWith(s, SPACES[Number(s[|s| - m..])]);
    }
  }

  /** Where a spelling stands in the list. */
  function Number(w: Bytes): nat {
    if |w| == 1 then if w[0] == 0x20 then 5 else if w[0] >= 0x09 then w[0] - 0x09 else 0
    else if |w| == 2 then if w[1] == 0x85 then 6 else 7
    else if |w| != 3 then 0
    else if w[0] == 0xE1 then 8
    else if w[0] == 0xE3 then 24
    else if w[1] == 0x81 then 23
    else if w[2] == 0xA8 then 20
    else if w[2] == 0xA9 then 21
    else if w[2] == 0xAF then 22
    else if w[2] >= 0x80 then 9 + (w[2] - 0x80) else 0
  }

  lemma IsListed(w: Bytes)
    requires || (|w| == 1 && (0x09 <= w[0] <= 0x0D || w[0] == 0x20))
             || (|w| == 2 && IsSpace2(w[0], w[1]))
             || (|w| == 3 && IsSpace3(w[0], w[1], w[2]))
    ensures Number(w) < 25 && SPACES[Number(w)] == w
  {
  }

  /** What is left of a text when no listed spelling begins or ends it. */
  predicate Bare(s: Bytes) {
    s != [] && forall k | 0 <= k < 25 :: !(SPACES[k] <= s) && !EndsWith(s, SPACES[k])
  }

  /** Between spaces, digits, which may have leading zeros, are their value modulo 2^64, and anything else is zero. */
  lemma {:induction false} AtoiInBytes(before: seq<nat>, s: Bytes, after: seq<nat>)
    requires Listed(before) && Listed(after) && Bare(s)
    ensures Atoi(Spaces(before) + s + Spaces(after))
         == if forall i | 0 <= i < |s| :: 0x30 <= s[i] <= 0x39 then Wrap64(Value(0, s)) else 0
  {
    hide SpaceAt, SpaceBefore, TrimLeft, TrimRight, Spaces, AtoiFrom, Value, EndsWith;
    Associative(Spaces(before), s, Spaces(after));
    TrimsFront(before, s + Spaces(after));
    SpacesAreListed(s);
    StartsFresh(after);
    NothingToTrim(s, Spaces(after));
    TrimsBehind(after, s);
    AtoiFromIs(0, s);
    assert Wrap64(0) == 0;
  }

  /** The bytes a spelling can begin with, which are none of those it can go on with. */
  predicate Begins(b: byte) { 0x09 <= b <= 0x0D || b == 0x20 || b == 0xC2 || 0xE1 <= b <= 0xE3 }

  lemma {:induction false} StartsFresh(which: seq<nat>)
    requires Listed(which)
    ensures Spaces(which) == [] || Begins(Spaces(which)[0])
  {
  }

  lemma {:induction false} NothingToTrim(s: Bytes, rest: Bytes)
    requires s != [] && SpaceAt(s) == 0 && SpaceBefore(s) == 0 && (rest == [] || Begins(rest[0]))
    ensures TrimLeft(s + rest) == s + rest && TrimRight(s) == s
  {
  }

  /** Nothing but spaces is zero. */
  lemma {:induction false} AtoiOfNothing(before: seq<nat>)
    requires Listed(before)
    ensures Atoi(Spaces(before)) == 0
  {
    hide SpaceAt, SpaceBefore;
    assert Spaces(before) + [] == Spaces(before);
    TrimsFront(before, []);
    EmptyIsTrimmed();
  }

  lemma EmptyIsTrimmed()
    ensures TrimLeft([]) == [] && TrimRight([]) == [] && AtoiFrom(0, []) == 0
  {
  }

  /** The value of digits, from the left. */
  lemma {:induction false} ValueInBytes(s: Bytes, d: byte)
    requires AllDigits(s) && 0x30 <= d <= 0x39
    ensures AllDigits(s + [d]) && Value(0, s + [d]) == 10 * Value(0, s) + (d - 0x30) && Value(0, []) == 0
  {
    ValueLast(0, s, d);
  }

  lemma {:induction false} ValueLast(acc: nat, s: Bytes, d: byte)
    requires AllDigits(s) && 0x30 <= d <= 0x39
    ensures AllDigits(s + [d]) && Value(acc, s + [d]) == 10 * Value(acc, s) + (d - 0x30)
    decreases s
  {
    if s == [] {
      assert [] + [d] == [d] && [d][1..] == [];
    } else {
      assert (s + [d])[1..] == s[1..] + [d];
      ValueLast(acc * 10 + (s[0] - 0x30), s[1..], d);
    }
  }
}
