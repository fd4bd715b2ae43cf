/** Multi-byte unsigned integers, WBXML 1.3 section 5.1: big-endian septets, the top bit set on all but the last. */
module MbUint {
  import opened Basics

  /** The longest form the reader accepts. */
  const MAX_SEPTETS := 5

  datatype Error = UnexpectedEof | TooLong

  datatype Read = Ok(value: uint32, rest: Bytes) | Err(error: Error)

  // ---- What a form denotes ------------------------------------------------

  predicate IsForm(p: Bytes) {
    && 1 <= |p| <= MAX_SEPTETS
    && p[|p| - 1] < 0x80
    && forall i | 0 <= i < |p| - 1 :: p[i] >= 0x80
  }

  /** The unbounded number a run of septets spells, after `acc` has been read. */
  function SeptetSum(acc: nat, p: Bytes): nat
    decreases p
  {
    if p == [] then acc else SeptetSum(acc * 0x80 + p[0] % 0x80, p[1..])
  }

  /** `p` is an accepted form of `v`: the septet sum, wrapped to 32 bits. */
  predicate Denotes(p: Bytes, v: uint32) {
    IsForm(p) && SeptetSum(0, p) % TWO_32 == v
  }

  // ---- Writer -------------------------------------------------------------

  /** The leading septets of an encoding, most significant first. */
  function Leading(u: nat): Bytes {
    if u == 0 then [] else Leading(u / 0x80) + [0x80 + u % 0x80]
  }

  function Encode(v: uint32): Bytes {
    Leading(v / 0x80) + [v % 0x80]
  }

  /** The writer's loop: septets are produced least significant first, then emitted backwards. */
  method Write(v: uint32) returns (out: Bytes)
    ensures out == Encode(v)
    ensures |out| <= MAX_SEPTETS
  {
    LeadingLength(v / 0x80, 4);
    var tmp := new byte[MAX_SEPTETS];
    var n := 0;
    tmp[n] := v % 0x80;
    var u := v / 0x80;
    ghost var tail := [v % 0x80];
    while u > 0
      invariant 0 <= u < Pow128(4 - n) && n <= 4
      invariant |tail| == n + 1 && forall k | 0 <= k <= n :: tail[k] == tmp[n - k]
      invariant Encode(v) == Leading(u) + tail
    {
      ghost var septet := u % 0x80 + 0x80;
      assert Leading(u) + tail == Leading(u / 0x80) + ([septet] + tail);
      n := n + 1;
      tmp[n] := u % 0x80 + 0x80;
      u := u / 0x80;
      tail := [septet] + tail;
    }
    out := [];
    var i := n;
    while i >= 0
      invariant -1 <= i <= n
      invariant out == tail[..n - i]
    {
      out := out + [tmp[i]];
      i := i - 1;
    }
    assert out == tail == Encode(v);
  }

  function Pow128(k: int): (r: nat)
    ensures r >= 1
  {
    if k <= 0 then 1 else 0x80 * Pow128(k - 1)
  }

  lemma {:induction false} LeadingLength(u: nat, k: nat)
    ensures u < Pow128(k) <==> |Leading(u)| <= k
    decreases k
  {
    if u > 0 && k > 0 {
      LeadingLength(u / 0x80, k - 1);
      var bound := Pow128(k - 1);
      assert u / 0x80 < bound <==> u < 0x80 * bound;
    }
  }

  lemma {:induction false} LeadingContinues(u: nat)
    ensures forall i | 0 <= i < |Leading(u)| :: Leading(u)[i] >= 0x80
  {
    if u > 0 { LeadingContinues(u / 0x80); }
  }

  lemma {:induction false} LeadingSum(u: nat, rest: Bytes)
    ensures SeptetSum(0, Leading(u) + rest) == SeptetSum(u, rest)
  {
    if u == 0 {
      assert Leading(u) + rest == rest;
    } else {
      var tail := [0x80 + u % 0x80] + rest;
      LeadingSum(u / 0x80, tail);
      assert Leading(u) + rest == Leading(u / 0x80) + tail;
      assert tail[1..] == rest;
    }
  }

  lemma EncodeDenotes(v: uint32)
    ensures Denotes(Encode(v), v)
  {
    var u, last := v / 0x80, [v % 0x80];
    assert IsForm(Encode(v)) by {
      LeadingLength(u, 4);
      LeadingContinues(u);
    }
    LeadingSum(u, last);
    assert last[1..] == [] && SeptetSum(u, last) == u * 0x80 + v % 0x80;
  }

  // ---- Reader -------------------------------------------------------------

  /** A 32-bit accumulator shifted left by seven bits, with the septet of one more byte. */
  function Shifted(acc: uint32, b: byte): uint32 {
    (acc * 0x80 + b % 0x80) % TWO_32
  }

  /** The reader with `left` bytes of its five still allowed and `acc` accumulated in a 32-bit word. */
  function Decode(b: Bytes, acc: uint32, left: nat): (r: Read)
    ensures r.Ok? ==> |r.rest| < |b|
    decreases left
  {
    if left == 0 then Err(TooLong)
    else if b == [] then Err(UnexpectedEof)
    else
      var v := Shifted(acc, b[0]);
      if b[0] < 0x80 then Ok(v, b[1..]) else Decode(b[1..], v, left - 1)
  }

  function ReadFrom(b: Bytes): Read {
    Decode(b, 0, MAX_SEPTETS)
  }

  lemma WrapMultiple(x: nat, k: nat)
    ensures (x + k * TWO_32) % TWO_32 == x % TWO_32
  {
  }

  lemma {:induction false} SumWraps(acc: nat, p: Bytes)
    ensures SeptetSum(acc, p) % TWO_32 == SeptetSum(acc % TWO_32, p) % TWO_32
    decreases p
  {
    if p != [] {
      var next, wrapped := acc * 0x80 + p[0] % 0x80, (acc % TWO_32) * 0x80 + p[0] % 0x80;
      WrapMultiple(wrapped, acc / TWO_32 * 0x80);
      SumWraps(next, p[1..]);
      SumWraps(wrapped, p[1..]);
    }
  }

  lemma {:induction false} DecodeForm(p: Bytes, rest: Bytes, acc: uint32, left: nat)
    requires 1 <= |p| <= left
    requires p[|p| - 1] < 0x80 && forall i | 0 <= i < |p| - 1 :: p[i] >= 0x80
    ensures Decode(p + rest, acc, left) == Ok(SeptetSum(acc, p) % TWO_32, rest)
    decreases left
  {
    var v, tail := acc * 0x80 + p[0] % 0x80, p[1..];
    var w: uint32 := v % TWO_32;
    assert (p + rest)[0] == p[0] && (p + rest)[1..] == tail + rest;
    if |p| == 1 {
      assert tail + rest == rest;
    } else {
      assert tail[|tail| - 1] == p[|p| - 1];
      DecodeForm(tail, rest, w, left - 1);
      SumWraps(v, tail);
      assert Decode(p + rest, acc, left) == Decode(tail + rest, w, left - 1);
    }
  }

  lemma {:induction false} DecodeConsumesForm(b: Bytes, acc: uint32, left: nat)
    requires Decode(b, acc, left).Ok?
    ensures var p := b[..|b| - |Decode(b, acc, left).rest|];
            && b == p + Decode(b, acc, left).rest
            && 1 <= |p| <= left && p[|p| - 1] < 0x80
            && forall i | 0 <= i < |p| - 1 :: p[i] >= 0x80
    decreases left
  {
    if b[0] >= 0x80 {
      var v := (acc * 0x80 + b[0] % 0x80) % TWO_32;
      DecodeConsumesForm(b[1..], v, left - 1);
      var p := b[..|b| - |Decode(b, acc, left).rest|];
      assert p == [b[0]] + b[1..][..|p| - 1];
    }
  }

  /** The reader accepts exactly the forms of at most five septets, and computes the septet sum modulo 2^32. */
  lemma ReadIffForm(b: Bytes, v: uint32, rest: Bytes)
    ensures ReadFrom(b) == Ok(v, rest) <==> |rest| <= |b| && b == b[..|b| - |rest|] + rest && Denotes(b[..|b| - |rest|], v)
  {
    if ReadFrom(b) == Ok(v, rest) {
      DecodeConsumesForm(b, 0, MAX_SEPTETS);
      var p := b[..|b| - |rest|];
      assert b == p + rest;
      DecodeForm(p, rest, 0, MAX_SEPTETS);
    }
    if |rest| <= |b| && b == b[..|b| - |rest|] + rest && Denotes(b[..|b| - |rest|], v) {
      DecodeForm(b[..|b| - |rest|], rest, 0, MAX_SEPTETS);
    }
  }

  /** Reading back what was written leaves exactly what followed it. */
  lemma ReadWritten(v: uint32, rest: Bytes)
    ensures ReadFrom(Encode(v) + rest) == Ok(v, rest)
  {
    EncodeDenotes(v);
    DecodeForm(Encode(v), rest, 0, MAX_SEPTETS);
  }

  lemma MulMonotone(x: nat, y: nat, k: nat)
    requires x <= y
    ensures x * k <= y * k
  {
  }

  lemma {:induction false} SumBound(acc: nat, p: Bytes)
    ensures SeptetSum(acc, p) < (acc + 1) * Pow128(|p|)
    decreases p
  {
    if p != [] {
      var next := acc * 0x80 + p[0] % 0x80;
      SumBound(next, p[1..]);
      var bound := Pow128(|p| - 1);
      calc {
        SeptetSum(acc, p);
      <
        (next + 1) * bound;
      <=  { MulMonotone(next + 1, (acc + 1) * 0x80, bound); }
        ((acc + 1) * 0x80) * bound;
      ==
        (acc + 1) * (0x80 * bound);
      }
    }
  }

  /** No accepted form of `v` is shorter than the one the writer picks. */
  lemma EncodeIsShortest(p: Bytes, v: uint32)
    requires Denotes(p, v)
    ensures |Encode(v)| <= |p| <= MAX_SEPTETS
  {
    hide Pow128;
    PowFour();
    if |p| <= 4 {
      SumBound(0, p);
      PowMonotone(|p|, 4);
      QuotientBound(v, |p| - 1);
      LeadingLength(v / 0x80, |p| - 1);
    } else {
      LeadingLength(v / 0x80, 4);
    }
  }

  lemma PowFour()
    ensures Pow128(4) == 0x1000_0000
  {
    assert Pow128(4) == 0x80 * Pow128(3) && Pow128(3) == 0x80 * Pow128(2) && Pow128(2) == 0x80 * Pow128(1);
  }

  lemma QuotientBound(v: nat, k: nat)
    requires v < Pow128(k + 1)
    ensures v / 0x80 < Pow128(k)
  {
  }

  lemma {:induction false} PowMonotone(j: nat, k: nat)
    requires j <= k
    ensures Pow128(j) <= Pow128(k)
    decreases k
  {
    if j < k { PowMonotone(j, k - 1); }
  }
}
