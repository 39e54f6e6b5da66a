/**
Base-128 varints and zigzag integers, as the Go bridge writes and reads them.
*/
module Varint {
  import opened Bits
  import opened Words
  import opened Options

  datatype Read = Read(val: u64, n: nat)

  type i32 = x: int | -0x8000_0000 <= x < 0x8000_0000
  type i64 = x: int | -0x8000_0000_0000_0000 <= x < 0x8000_0000_0000_0000

  // ---------------------------------------------------------------- signed reinterpretation

  // int32(v), int64(v): the low bits read as two's complement.
  function I32(v: nat): i32
  {
    if v % TWO32 < 0x8000_0000 then v % TWO32 else v % TWO32 - TWO32
  }

  function I64(v: nat): i64
  {
    if v % TWO64 < 0x8000_0000_0000_0000 then v % TWO64 else v % TWO64 - TWO64
  }

  // uint32(i), uint64(i)
  function Bits32(i: int): u32 { i % 0x1_0000_0000 }

  function Bits64(i: int): u64 { i % 0x1_0000_0000_0000_0000 }

  lemma SignedRoundTrip(i: int)
    ensures -0x8000_0000_0000_0000 <= i < 0x8000_0000_0000_0000 ==> I64(Bits64(i)) == i
    ensures -0x8000_0000 <= i < 0x8000_0000 ==> I32(Bits64(i)) == i && I32(Bits32(i)) == i
  {
  }

  // ---------------------------------------------------------------- varints

  // byte(v) | 0x80 while v has more than seven bits.
  function Encode(v: nat): (s: seq<byte>)
    ensures |s| >= 1
  {
    if v >= 0x80 then [Or128(v % 0x100)] + Encode(v / 0x80) else [v]
  }

  function Or128(b: byte): byte { if b < 0x80 then b + 0x80 else b }

  method Append(buf: seq<byte>, v: u64) returns (out: seq<byte>)
    ensures out == buf + Encode(v)
  {
    out := buf;
    var w: nat := v;
    while w >= 0x80
      invariant out + Encode(w) == buf + Encode(v)
      decreases w
    {
      out := out + [Or128(w % 0x100)];
      w := w / 0x80;
    }
    out := out + [w];
  }

  // val |= uint64(b & 0x7F) << (7 * i), over at most ten bytes.
  function DecodeFrom(data: seq<byte>, i: nat, val: u64): Option<Read>
    decreases |data| - i
  {
    if i >= |data| || i >= 10 then None
    else
      var val' := Accumulate(val, data[i], i);
      if data[i] < 0x80 then Some(Read(val', i + 1)) else DecodeFrom(data, i + 1, val')
  }

  function Accumulate(val: u64, b: byte, i: nat): u64
  {
    hide Pow2, Or;
    Pow2Values();
    OrBound(val, U64(b % 0x80 * Pow2(7 * i)), 64);
    Or(val, U64(b % 0x80 * Pow2(7 * i)))
  }

  function Decode(data: seq<byte>): Option<Read>
  {
    DecodeFrom(data, 0, 0)
  }

  method ReadVarint(data: seq<byte>) returns (val: u64, n: nat, ok: bool)
    ensures Decode(data) == if ok then Some(Read(val, n)) else None
  {
    val := 0;
    for i := 0 to |data|
      invariant i <= 10
      invariant DecodeFrom(data, i, val) == Decode(data)
    {
      var b := data[i];
      if i >= 10 {
        return 0, 0, false;
      }
      val := Accumulate(val, b, i);
      if b < 0x80 {
        return val, i + 1, true;
      }
    }
    return 0, 0, false;
  }

  lemma {:induction false} DecodeBounds(data: seq<byte>, i: nat, val: u64)
    ensures var r := DecodeFrom(data, i, val); r.Some? ==> i < r.value.n <= |data| && r.value.n <= 10
    decreases |data| - i
  {
    if i < |data| && i < 10 && data[i] >= 0x80 {
      DecodeBounds(data, i + 1, Accumulate(val, data[i], i));
    }
  }

  // A varint that was read is read the same whatever follows it.
  lemma {:induction false} DecodePrefix(a: seq<byte>, b: seq<byte>, i: nat, val: u64)
    requires DecodeFrom(a, i, val).Some?
    ensures DecodeFrom(a + b, i, val) == DecodeFrom(a, i, val)
    decreases |a| - i
  {
    assert (a + b)[i] == a[i];
    if a[i] >= 0x80 {
      DecodePrefix(a, b, i + 1, Accumulate(val, a[i], i));
    }
  }

  lemma AccumulateExact(val: u64, b: byte, i: nat, w: nat)
    requires i <= 9 && val < Pow2(7 * i) && b % 0x80 == w % 0x80 && w < Pow2(64 - 7 * i)
    ensures Accumulate(val, b, i) == val + w % 0x80 * Pow2(7 * i)
  {
    hide Pow2, Or;
    var k := 7 * i;
    Pow2Add(k, 64 - k);
    Pow2Values();
    var x := w % 0x80 * Pow2(k);
    TimesBelow(w % 0x80, Pow2(64 - k), Pow2(k));
    assert U64(x) == x;
    OrDisjoint(val, w % 0x80, k);
  }

  lemma TimesBelow(x: nat, y: nat, p: nat)
    requires x < y && p > 0
    ensures x * p < p * y
  {
  }

  // One digit moves from the remaining number to the accumulated one.
  lemma DigitStep(val: u64, b: byte, i: nat, w: nat)
    requires i <= 9 && val < Pow2(7 * i) && 0x80 <= w < Pow2(64 - 7 * i) && b % 0x80 == w % 0x80
    ensures i < 9 && w / 0x80 < Pow2(64 - 7 * (i + 1))
    ensures var val' := Accumulate(val, b, i);
      val' < Pow2(7 * (i + 1)) && val' + w / 0x80 * Pow2(7 * (i + 1)) == val + w * Pow2(7 * i)
  {
    AccumulateExact(val, b, i, w);
    TopDigit(i, w);
    hide Pow2, Accumulate;
    var p := Pow2(7 * i);
    Pow2Add(7, 7 * i);
    Pow2Values();
    assert Pow2(7 * (i + 1)) == 0x80 * p;
    SplitDigit(val, w, p);
  }

  lemma SplitDigit(val: nat, w: nat, p: nat)
    requires val < p
    ensures val + w % 0x80 * p + w / 0x80 * (0x80 * p) == val + w * p
    ensures val + w % 0x80 * p < 0x80 * p
  {
    var q, r := w / 0x80, w % 0x80;
    RegroupDigits(q, r, p);
    AtMost(r, 0x7f, p);
  }

  lemma RegroupDigits(q: nat, r: nat, p: nat)
    ensures (0x80 * q + r) * p == q * (0x80 * p) + r * p
  {
  }

  lemma AtMost(r: nat, m: nat, p: nat)
    requires r <= m
    ensures r * p <= m * p
  {
  }

  lemma TopDigit(i: nat, w: nat)
    requires i <= 9 && 0x80 <= w < Pow2(64 - 7 * i)
    ensures i < 9 && w / 0x80 < Pow2(64 - 7 * (i + 1))
  {
    assert Pow2(1) == 2;
    if i < 9 {
      Pow2Add(7, 64 - 7 * (i + 1));
      Pow2Values();
    }
  }

  lemma EncodeDigits(w: nat)
    ensures Encode(w) == if w >= 0x80 then [Or128(w % 0x100)] + Encode(w / 0x80) else [w]
    ensures Encode(w)[0] % 0x80 == w % 0x80 && (Encode(w)[0] < 0x80 <==> w < 0x80)
  {
  }

  lemma DecodeDigit(data: seq<byte>, i: nat, val: u64)
    requires i < |data| && i < 10
    ensures var val' := Accumulate(val, data[i], i);
      DecodeFrom(data, i, val) == if data[i] < 0x80 then Some(Read(val', i + 1)) else DecodeFrom(data, i + 1, val')
  {
    hide Accumulate;
  }

  lemma {:induction false} DecodeEncodeFrom(data: seq<byte>, i: nat, val: u64, w: nat, rest: seq<byte>)
    requires i <= 9 && i <= |data| && val < Pow2(7 * i) && w < Pow2(64 - 7 * i)
    requires data[i..] == Encode(w) + rest
    requires val + w * Pow2(7 * i) < TWO64
    ensures DecodeFrom(data, i, val) == Some(Read(val + w * Pow2(7 * i), i + |Encode(w)|))
    decreases w
  {
    hide Pow2, Accumulate, DecodeFrom, Encode;
    EncodeDigits(w);
    DecodeDigit(data, i, val);
    assert data[i] == data[i..][0];
    if w >= 0x80 {
      DigitStep(val, data[i], i, w);
      assert data[i + 1..] == data[i..][1..] == Encode(w / 0x80) + rest;
      DecodeEncodeFrom(data, i + 1, Accumulate(val, data[i], i), w / 0x80, rest);
    } else {
      AccumulateExact(val, data[i], i, w);
    }
  }

  // Every 64-bit value survives, whatever follows it.
  lemma RoundTrip(v: u64, rest: seq<byte>)
    ensures Decode(Encode(v) + rest) == Some(Read(v, |Encode(v)|))
  {
    Pow2Values();
    assert (Encode(v) + rest)[0..] == Encode(v) + rest;
    DecodeEncodeFrom(Encode(v) + rest, 0, 0, v, rest);
  }

  // ---------------------------------------------------------------- zigzag

  // (v << 1) ^ (v >> 31): the arithmetic shift is all ones for a negative v.
  function Zigzag32(v: i32): u32
  {
    Pow2Values();
    Flip(Bits32(2 * v), v < 0, 32)
  }

  function Zigzag64(v: i64): u64
  {
    Pow2Values();
    Flip(Bits64(2 * v), v < 0, 64)
  }

  // (v >> 1) ^ -(v & 1)
  function Unzigzag32(v: u32): i32
  {
    Pow2Values();
    I32(Flip(v / 2, v % 2 == 1, 32))
  }

  function Unzigzag64(v: u64): i64
  {
    Pow2Values();
    I64(Flip(v / 2, v % 2 == 1, 64))
  }

  // x ^ mask, where the k-bit mask is all ones or zero.
  function Flip(x: nat, ones: bool, k: nat): (r: nat)
    requires x < Pow2(k)
    ensures r < Pow2(k)
  {
    XorOnes(x, k);
    XorZero(x);
    Xor(x, if ones then Pow2(k) - 1 else 0)
  }

  lemma {:induction false} XorOnes(x: nat, k: nat)
    requires x < Pow2(k)
    ensures Xor(x, Pow2(k) - 1) == Pow2(k) - 1 - x
  {
    hide Xor;
    if k == 0 {
      XorZero(0);
    } else {
      var h := Pow2(k - 1);
      XorOnes(x / 2, k - 1);
      XorHalves(x, 2 * h - 1);
      assert (2 * h - 1) / 2 == h - 1 && (2 * h - 1) % 2 == 1;
    }
  }

  lemma FlipMeaning(x: nat, ones: bool, k: nat)
    requires x < Pow2(k)
    ensures Flip(x, ones, k) == if ones then Pow2(k) - 1 - x else x
  {
    XorOnes(x, k);
    XorZero(x);
  }

  // The sign moves to bit 0: 0, -1, 1, -2, ... become 0, 1, 2, 3, ...
  lemma Zigzag32Meaning(v: i32)
    ensures Zigzag32(v) == if v >= 0 then 2 * v else -2 * v - 1
  {
    hide Flip, Pow2;
    Pow2Values();
    FlipMeaning(Bits32(2 * v), v < 0, 32);
  }

  lemma Zigzag64Meaning(v: i64)
    ensures Zigzag64(v) == if v >= 0 then 2 * v else -2 * v - 1
  {
    hide Flip, Pow2;
    Pow2Values();
    FlipMeaning(Bits64(2 * v), v < 0, 64);
  }

  lemma Unzigzag32Meaning(z: u32)
    ensures Unzigzag32(z) == if z % 2 == 0 then z / 2 else -(z / 2) - 1
  {
    hide Flip, Pow2;
    Pow2Values();
    FlipMeaning(z / 2, z % 2 == 1, 32);
  }

  lemma Unzigzag64Meaning(z: u64)
    ensures Unzigzag64(z) == if z % 2 == 0 then z / 2 else -(z / 2) - 1
  {
    hide Flip, Pow2;
    Pow2Values();
    FlipMeaning(z / 2, z % 2 == 1, 64);
  }

  lemma ZigzagRoundTrip(v: int)
    ensures -0x8000_0000 <= v < 0x8000_0000 ==> Unzigzag32(Zigzag32(v)) == v
    ensures -0x8000_0000_0000_0000 <= v < 0x8000_0000_0000_0000 ==> Unzigzag64(Zigzag64(v)) == v
  {
    hide Zigzag32, Zigzag64, Unzigzag32, Unzigzag64;
    if -0x8000_0000 <= v < 0x8000_0000 {
      Zigzag32Meaning(v);
    }
    if -0x8000_0000_0000_0000 <= v < 0x8000_0000_0000_0000 {
      Zigzag64Meaning(v);
    }
    var z := if v >= 0 then 2 * v else -2 * v - 1;
    if z < TWO32 {
      Unzigzag32Meaning(z);
    }
    if z < TWO64 {
      Unzigzag64Meaning(z);
    }
  }
}
