/**
SHA-256 (FIPS 180-4): the definition by schedule, rounds, padding and folding (sections 4.1.2, 5.1.1 and
6.2), and the vendored streaming hasher, whose digest depends only on the concatenation of its updates.
*/
module Sha256 {
  import opened Bits
  import opened Words
  import opened MachineWords

  // ---------------------------------------------------------------- section 4.1.2

  function Rotr(x: u32, n: nat): u32
    requires 0 < n < 32
  {
    OrWord(Shr(x, n), U32(Shl(x, 32 - n)))
  }

  function OrWord(x: nat, y: u32): u32
  {
    U32(Or(x, y))
  }

  // The or of two shifts is a rotation: the high bits move down, the low bits come round.
  lemma RotrRotates(x: u32, n: nat)
    requires 0 < n < 32
    ensures Rotr(x, n) == Shr(x, n) + Pow2(32 - n) * (x % Pow2(n))
  {
    hide Pow2, Or;
    ShlWord(x, 32 - n);
    ShrBelow(x, 32 - n);
    OrDisjoint(Shr(x, n), x % Pow2(n), 32 - n);
    Pow2Values();
    OrBound(Shr(x, n), U32(Shl(x, 32 - n)), 32);
    ShrBound(x, n);
    U32Small(Or(Shr(x, n), U32(Shl(x, 32 - n))));
  }

  function Xor3(x: nat, y: nat, z: nat): u32 { U32(Xor(Xor(x, y), z)) }

  function BigSigma0(x: u32): u32 { Xor3(Rotr(x, 2), Rotr(x, 13), Rotr(x, 22)) }

  function BigSigma1(x: u32): u32 { Xor3(Rotr(x, 6), Rotr(x, 11), Rotr(x, 25)) }

  function SmallSigma0(x: u32): u32 { Xor3(Rotr(x, 7), Rotr(x, 18), x / 0x8) }

  function SmallSigma1(x: u32): u32 { Xor3(Rotr(x, 17), Rotr(x, 19), x / 0x400) }

  function Ch(e: u32, f: u32, g: u32): u32 { U32(Xor(And(e, f), And(0xffff_ffff - e, g))) }

  function Maj(a: u32, b: u32, c: u32): u32 { Xor3(And(a, b), And(a, c), And(b, c)) }

  function K(t: nat): u32
    requires t < 64
  {
    Num(KWord(t))
  }

  function KWord(t: nat): bv32
    requires t < 64
  {
    if t < 32 then KFirst(t) else KSecond(t)
  }

  function KFirst(t: nat): bv32
    requires t < 32
  {
    match t
    case 0 => 0x428a2f98 case 1 => 0x71374491 case 2 => 0xb5c0fbcf case 3 => 0xe9b5dba5
    case 4 => 0x3956c25b case 5 => 0x59f111f1 case 6 => 0x923f82a4 case 7 => 0xab1c5ed5
    case 8 => 0xd807aa98 case 9 => 0x12835b01 case 10 => 0x243185be case 11 => 0x550c7dc3
    case 12 => 0x72be5d74 case 13 => 0x80deb1fe case 14 => 0x9bdc06a7 case 15 => 0xc19bf174
    case 16 => 0xe49b69c1 case 17 => 0xefbe4786 case 18 => 0x0fc19dc6 case 19 => 0x240ca1cc
    case 20 => 0x2de92c6f case 21 => 0x4a7484aa case 22 => 0x5cb0a9dc case 23 => 0x76f988da
    case 24 => 0x983e5152 case 25 => 0xa831c66d case 26 => 0xb00327c8 case 27 => 0xbf597fc7
    case 28 => 0xc6e00bf3 case 29 => 0xd5a79147 case 30 => 0x06ca6351 case 31 => 0x14292967
  }

  function KSecond(t: nat): bv32
    requires 32 <= t < 64
  {
    match t
    case 32 => 0x27b70a85 case 33 => 0x2e1b2138 case 34 => 0x4d2c6dfc case 35 => 0x53380d13
    case 36 => 0x650a7354 case 37 => 0x766a0abb case 38 => 0x81c2c92e case 39 => 0x92722c85
    case 40 => 0xa2bfe8a1 case 41 => 0xa81a664b case 42 => 0xc24b8b70 case 43 => 0xc76c51a3
    case 44 => 0xd192e819 case 45 => 0xd6990624 case 46 => 0xf40e3585 case 47 => 0x106aa070
    case 48 => 0x19a4c116 case 49 => 0x1e376c08 case 50 => 0x2748774c case 51 => 0x34b0bcb5
    case 52 => 0x391c0cb3 case 53 => 0x4ed8aa4a case 54 => 0x5b9cca4f case 55 => 0x682e6ff3
    case 56 => 0x748f82ee case 57 => 0x78a5636f case 58 => 0x84c87814 case 59 => 0x8cc70208
    case 60 => 0x90befffa case 61 => 0xa4506ceb case 62 => 0xbef9a3f7 case 63 => 0xc67178f2
  }

  // ---------------------------------------------------------------- section 6.2

  datatype Vars = Vars(a: u32, b: u32, c: u32, d: u32, e: u32, f: u32, g: u32, h: u32)

  const IV: Vars := Vars(0x6a09e667, 0xbb67ae85, 0x3c6ef372, 0xa54ff53a, 0x510e527f, 0x9b05688c, 0x1f83d9ab,
                         0x5be0cd19)

  function BeWord(b: seq<byte>, i: nat): u32
    requires i + 4 <= |b|
  {
    Quad(b[i + 3], b[i + 2], b[i + 1], b[i])
  }

  function Sum4(w: u32, x: u32, y: u32, z: u32): u32 { U32(w + (x + (y + z as int))) }

  // W_t, by its recurrence.
  function Schedule(block: seq<byte>, t: nat): u32
    requires |block| == 64
  {
    if t < 16 then BeWord(block, 4 * t)
    else Sum4(Schedule(block, t - 16), SmallSigma0(Schedule(block, t - 15)), Schedule(block, t - 7),
              SmallSigma1(Schedule(block, t - 2)))
  }

  function Round(v: Vars, k: u32, w: u32): Vars
  {
    var t1 := U32(v.h + Sum4(BigSigma1(v.e), Ch(v.e, v.f, v.g), k, w) as int);
    var t2 := U32(BigSigma0(v.a) + Maj(v.a, v.b, v.c) as int);
    Vars(U32(t1 + t2 as int), v.a, v.b, v.c, U32(v.d + t1 as int), v.e, v.f, v.g)
  }

  function Rounds(block: seq<byte>, v: Vars, n: nat): Vars
    requires |block| == 64 && n <= 64
  {
    if n == 0 then v else Round(Rounds(block, v, n - 1), K(n - 1), Schedule(block, n - 1))
  }

  function AddVars(s: Vars, v: Vars): Vars
  {
    Vars(U32(s.a + v.a as int), U32(s.b + v.b as int), U32(s.c + v.c as int), U32(s.d + v.d as int),
         U32(s.e + v.e as int), U32(s.f + v.f as int), U32(s.g + v.g as int), U32(s.h + v.h as int))
  }

  function Compress(s: Vars, block: seq<byte>): Vars
    requires |block| == 64
  {
    AddVars(s, Rounds(block, s, 64))
  }

  // ---------------------------------------------------------------- the rounds can be undone

  // a - b modulo 2^32
  function Minus(a: u32, b: u32): u32 { U32(a + TWO32 - b) }

  lemma MinusPlus(a: u32, b: nat)
    ensures Minus(U32(a + b), U32(b)) == a
  {
  }

  // The step equations of a round, solved for what went into it.
  function Unround(v: Vars, k: u32, w: u32): Vars
  {
    var t2 := U32(BigSigma0(v.b) + Maj(v.b, v.c, v.d) as int);
    var t1 := Minus(v.a, t2);
    Vars(v.b, v.c, v.d, Minus(v.e, t1), v.f, v.g, v.h, Minus(t1, Sum4(BigSigma1(v.f), Ch(v.f, v.g, v.h), k, w)))
  }

  lemma UnroundRound(v: Vars, k: u32, w: u32)
    ensures Unround(Round(v, k, w), k, w) == v
  {
    hide BigSigma0, BigSigma1, Ch, Maj, Sum4, U32, Minus;
    var sum := Sum4(BigSigma1(v.e), Ch(v.e, v.f, v.g), k, w);
    var t1 := U32(v.h + sum as int);
    var t2 := U32(BigSigma0(v.a) + Maj(v.a, v.b, v.c) as int);
    U32Small(sum);
    U32Small(t1);
    U32Small(t2);
    MinusPlus(v.h, sum);
    MinusPlus(t1, t2);
    MinusPlus(v.d, t1);
  }

  function Unrounds(block: seq<byte>, v: Vars, n: nat): Vars
    requires |block| == 64 && n <= 64
    decreases n
  {
    hide K, Schedule, Unround;
    if n == 0 then v else Unrounds(block, Unround(v, K(n - 1), Schedule(block, n - 1)), n - 1)
  }

  lemma {:induction false} UnroundsRounds(block: seq<byte>, v: Vars, n: nat)
    requires |block| == 64 && n <= 64
    ensures Unrounds(block, Rounds(block, v, n), n) == v
  {
    hide Round, Unround, Schedule, K;
    if n > 0 {
      UnroundRound(Rounds(block, v, n - 1), K(n - 1), Schedule(block, n - 1));
      UnroundsRounds(block, v, n - 1);
    }
  }

  function MinusVars(s: Vars, v: Vars): Vars
  {
    Vars(Minus(s.a, v.a), Minus(s.b, v.b), Minus(s.c, v.c), Minus(s.d, v.d),
         Minus(s.e, v.e), Minus(s.f, v.f), Minus(s.g, v.g), Minus(s.h, v.h))
  }

  lemma MinusAdd(s: Vars, v: Vars)
    ensures MinusVars(AddVars(s, v), s) == v
  {
    hide U32, Minus;
    MinusSum(s.a, v.a);
    MinusSum(s.b, v.b);
    MinusSum(s.c, v.c);
    MinusSum(s.d, v.d);
    MinusSum(s.e, v.e);
    MinusSum(s.f, v.f);
    MinusSum(s.g, v.g);
    MinusSum(s.h, v.h);
  }

  lemma MinusSum(a: u32, b: u32)
    ensures Minus(U32(a + b as int), a) == b
  {
  }

  // The compression feeds the previous state forward: what it adds to it, the rounds undone, is that state.
  lemma FedForward(s: Vars, block: seq<byte>)
    requires |block| == 64
    ensures Unrounds(block, MinusVars(Compress(s, block), s), 64) == s
  {
    hide Rounds, AddVars, MinusVars, Unrounds;
    MinusAdd(s, Rounds(block, s, 64));
    UnroundsRounds(block, s, 64);
  }

  // Every whole block, in order.
  function Fold(s: Vars, msg: seq<byte>): Vars
    decreases |msg|
  {
    if |msg| < 64 then s else Fold(Compress(s, msg[..64]), msg[64..])
  }

  function ToBe(v: nat, n: nat): (s: seq<byte>)
    ensures |s| == n
  {
    if n == 0 then [] else ToBe(v / 256, n - 1) + [v % 256]
  }

  // ---------------------------------------------------------------- section 5.1.1

  function PadZeros(len: nat): nat { (119 - len % 64) % 64 }

  function Pad(msg: seq<byte>): seq<byte>
  {
    msg + [0x80] + Zeros(PadZeros(|msg|)) + ToBe(U64(8 * |msg|), 8)
  }

  // In bits: a 1, then the least number of zeros that brings the length to 448 modulo 512.
  lemma PadIsLeast(msg: seq<byte>, zeroBits: nat)
    ensures |Pad(msg)| % 64 == 0
    ensures (8 * |msg| + 1 + (7 + 8 * PadZeros(|msg|))) % 512 == 448
    ensures (8 * |msg| + 1 + zeroBits) % 512 == 448 ==> 7 + 8 * PadZeros(|msg|) <= zeroBits
  {
    hide Pad, PadZeros;
    var r, q := |msg| % 64, |msg| / 64;
    PadLength(msg);
    PadZerosOf(|msg|);
    if (8 * |msg| + 1 + zeroBits) % 512 == 448 {
      LeastZeros(r, q, zeroBits);
    }
  }

  lemma PadLength(msg: seq<byte>)
    ensures |Pad(msg)| == |msg| + 9 + PadZeros(|msg|)
  {
  }

  lemma PadZerosOf(n: nat)
    ensures PadZeros(n) == if n % 64 < 56 then 55 - n % 64 else 119 - n % 64
  {
  }

  lemma LeastZeros(r: nat, q: nat, zeroBits: nat)
    requires r < 64 && (8 * (64 * q + r) + 1 + zeroBits) % 512 == 448
    ensures zeroBits >= 447 - 8 * r && (r >= 56 ==> zeroBits >= 959 - 8 * r)
  {
    var m := (8 * (64 * q + r) + 1 + zeroBits) / 512;
    assert zeroBits == 512 * (m - q) + 447 - 8 * r;
  }

  function Digest(s: Vars): (d: seq<byte>)
    ensures |d| == 32
  {
    ToBe(s.a, 4) + ToBe(s.b, 4) + ToBe(s.c, 4) + ToBe(s.d, 4)
    + ToBe(s.e, 4) + ToBe(s.f, 4) + ToBe(s.g, 4) + ToBe(s.h, 4)
  }

  // The digest of eight words is the bytes that they are loaded from.
  lemma DigestLoaded(s: Vars, p: seq<byte>, q: seq<byte>)
    requires |p| == 16 && s.a == BeWord(p, 0) && s.b == BeWord(p, 4) && s.c == BeWord(p, 8) && s.d == BeWord(p, 12)
    requires |q| == 16 && s.e == BeWord(q, 0) && s.f == BeWord(q, 4) && s.g == BeWord(q, 8) && s.h == BeWord(q, 12)
    ensures Digest(s) == p + q
  {
    hide BeWord, ToBe;
    HalfBytes(p);
    HalfBytes(q);
  }

  lemma HalfBytes(p: seq<byte>)
    requires |p| == 16
    ensures p == ToBe(BeWord(p, 0), 4) + ToBe(BeWord(p, 4), 4) + ToBe(BeWord(p, 8), 4) + ToBe(BeWord(p, 12), 4)
  {
    hide BeWord, ToBe;
    WordBytes(p, 0);
    WordBytes(p, 4);
    WordBytes(p, 8);
    WordBytes(p, 12);
    assert p == p[0..4] + p[4..8] + p[8..12] + p[12..16];
  }

  lemma WordBytes(d: seq<byte>, i: nat)
    requires i + 4 <= |d|
    ensures ToBe(BeWord(d, i), 4) == d[i..i + 4]
  {
    var x, y, z, w := d[i], d[i + 1], d[i + 2], d[i + 3];
    DigitAndRest(w, z + 0x100 * y + 0x1_0000 * (x as int));
    DigitAndRest(z, y + 0x100 * (x as int));
    DigitAndRest(y, x);
    assert BeWord(d, i) == w + 256 * (z + 0x100 * y + 0x1_0000 * (x as int));
    assert z + 0x100 * y + 0x1_0000 * (x as int) == z + 256 * (y + 0x100 * (x as int));
    assert ToBe(x, 1) == [x];
    assert ToBe(y + 0x100 * (x as int), 2) == [x, y];
    assert ToBe(z + 0x100 * y + 0x1_0000 * (x as int), 3) == [x, y, z];
  }

  function Hash(msg: seq<byte>): (d: seq<byte>)
    ensures |d| == 32
  {
    Digest(Fold(IV, Pad(msg)))
  }

  // ---------------------------------------------------------------- streaming

  lemma {:induction false} FoldAppend(s: Vars, a: seq<byte>, b: seq<byte>)
    requires |a| % 64 == 0
    ensures Fold(s, a + b) == Fold(Fold(s, a), b)
    decreases |a|
  {
    hide Compress;
    if a == [] {
      assert a + b == b;
    } else {
      assert (a + b)[..64] == a[..64] && (a + b)[64..] == a[64..] + b;
      FoldAppend(Compress(s, a[..64]), a[64..], b);
    }
  }

  // What a hasher is after absorbing a message: the whole blocks are folded, the rest is the tail.
  ghost predicate Streamed(s: Vars, tail: seq<byte>, msg: seq<byte>)
  {
    && |tail| < 64 && |tail| <= |msg| && (|msg| - |tail|) % 64 == 0
    && tail == msg[|msg| - |tail|..]
    && s == Fold(IV, msg[..|msg| - |tail|])
  }

  lemma StreamedTail(s: Vars, tail: seq<byte>, msg: seq<byte>, m: seq<byte>)
    requires Streamed(s, tail, msg) && |tail| + |m| < 64
    ensures Streamed(s, tail + m, msg + m)
  {
    hide Fold;
    assert (msg + m)[..|msg| - |tail|] == msg[..|msg| - |tail|];
  }

  lemma FoldOne(s: Vars, block: seq<byte>)
    requires |block| == 64
    ensures Fold(s, block) == Compress(s, block)
  {
    hide Compress;
    assert block[..64] == block && block[64..] == [];
    assert Fold(Compress(s, block), []) == Compress(s, block);
  }

  lemma StreamedBlock(s: Vars, tail: seq<byte>, msg: seq<byte>, m: seq<byte>)
    requires Streamed(s, tail, msg) && |tail| + |m| == 64
    ensures Streamed(Compress(s, tail + m), [], msg + m)
  {
    hide Fold, Compress;
    var blocks := msg[..|msg| - |tail|];
    FoldAppend(IV, blocks, tail + m);
    FoldOne(s, tail + m);
    assert blocks + (tail + m) == msg + m;
    assert (msg + m)[..|msg + m|] == msg + m;
  }

  // The padding of the whole message is the padding of the tail, with the message's length.
  function PadTail(tail: seq<byte>, bits: u64): seq<byte>
    requires |tail| < 64
  {
    tail + [0x80] + Zeros(if |tail| < 56 then 55 - |tail| else 119 - |tail|) + ToBe(bits, 8)
  }

  lemma StreamedFinal(s: Vars, tail: seq<byte>, msg: seq<byte>)
    requires Streamed(s, tail, msg)
    ensures Fold(s, PadTail(tail, U64(8 * |msg|))) == Fold(IV, Pad(msg))
  {
    hide Fold, U64, ToBe;
    var blocks := msg[..|msg| - |tail|];
    assert |msg| % 64 == |tail|;
    FoldAppend(IV, blocks, PadTail(tail, U64(8 * |msg|)));
    assert blocks + PadTail(tail, U64(8 * |msg|)) == Pad(msg);
  }

  lemma DivTwice(v: nat, p: nat)
    requires p > 0
    ensures v / p / 256 == v / (256 * p)
  {
    var q, r := v / p, v % p;
    QuotientTimes(v, p);
    ScaledQuotient(p, q);
    assert v == (256 * p) * (q / 256) + (p * (q % 256) + r);
    BelowScaled(p, q % 256, r);
    DivModUnique(q / 256, p * (q % 256) + r, 256 * p);
  }

  lemma ScaledQuotient(p: nat, q: nat)
    ensures p * q == (256 * p) * (q / 256) + p * (q % 256)
  {
    assert q == 256 * (q / 256) + q % 256;
    var a, b := q / 256, q % 256;
    assert p * (256 * a + b) == (256 * p) * a + p * b;
  }

  lemma BelowScaled(p: nat, b: nat, r: nat)
    requires b < 256 && r < p
    ensures p * b + r < 256 * p
  {
    assert p * b <= p * 255;
  }

  lemma BitLength(m: nat, n: nat)
    ensures U64(U64(8 * m) + U64(n * 8)) == U64(8 * (m + n))
  {
  }

  lemma NextLengthByte(bits: u64, i: nat)
    requires i < 8
    ensures ToBe(Shr(bits, 8 * i), 8 - i) == ToBe(Shr(bits, 8 * (i + 1)), 7 - i) + [Shr(bits, 8 * i) % 256]
  {
    hide Pow2;
    Pow2Byte(i);
    DivTwice(bits, Pow2(8 * i));
  }

  lemma NoShift(bits: u64)
    ensures Shr(bits, 0) == bits
  {
  }

  class Hasher {
    var state: Vars
    var bitLen: u64
    const buffer: array<byte>
    var bufferLen: nat

    ghost var absorbed: seq<byte>

    ghost predicate Valid()
      reads this, buffer
    {
      Holds() && bitLen == U64(8 * |absorbed|)
    }

    ghost predicate Holds()
      reads this, buffer
    {
      buffer.Length == 64 && bufferLen < 64 && Streamed(state, buffer[..bufferLen], absorbed)
    }

    constructor ()
      ensures Valid() && fresh(buffer) && absorbed == []
    {
      hide Compress;
      state := IV;
      bitLen := 0;
      bufferLen := 0;
      buffer := new byte[64](_ => 0);
      absorbed := [];
      new;
      assert buffer[..0] == [];
    }

    // The message schedule, filled in place.
    method FillSchedule(block: seq<byte>) returns (w: array<u32>)
      requires |block| == 64
      ensures fresh(w) && w.Length == 64
      ensures forall t :: 0 <= t < 64 ==> w[t] == Schedule(block, t)
    {
      hide SmallSigma0, SmallSigma1, Sum4, BeWord;
      w := new u32[64];
      for i := 0 to 16
        modifies w
        invariant forall t :: 0 <= t < i ==> w[t] == Schedule(block, t)
      {
        w[i] := BeWord(block, 4 * i);
      }
      for i := 16 to 64
        modifies w
        invariant forall t :: 0 <= t < i ==> w[t] == Schedule(block, t)
      {
        var s0, s1 := SmallSigma0(w[i - 15]), SmallSigma1(w[i - 2]);
        w[i] := Sum4(w[i - 16], s0, w[i - 7], s1);
      }
    }

    // process_block_: the working variables are rotated through 64 rounds.
    method ProcessBlock(block: seq<byte>)
      requires |block| == 64
      modifies `state
      ensures state == Compress(old(state), block)
    {
      hide BigSigma0, BigSigma1, Ch, Maj, Sum4, U32, Schedule, K;
      var w := FillSchedule(block);
      var a: u32, b: u32, c: u32, d: u32 := state.a, state.b, state.c, state.d;
      var e: u32, f: u32, g: u32, h: u32 := state.e, state.f, state.g, state.h;
      for i := 0 to 64
        modifies {}
        invariant Vars(a, b, c, d, e, f, g, h) == Rounds(block, state, i)
      {
        var s1 := BigSigma1(e);
        var ch := Ch(e, f, g);
        var t1 := U32(h + Sum4(s1, ch, K(i), w[i]) as int);
        var s0 := BigSigma0(a);
        var mj := Maj(a, b, c);
        var t2 := U32(s0 + mj as int);
        h := g;
        g := f;
        f := e;
        e := U32(d + t1 as int);
        d := c;
        c := b;
        b := a;
        a := U32(t1 + t2 as int);
      }
      state := AddVars(state, Vars(a, b, c, d, e, f, g, h));
    }

    method Fill(m: seq<byte>)
      requires buffer.Length == 64 && bufferLen + |m| <= 64
      modifies `bufferLen, buffer
      ensures bufferLen == old(bufferLen) + |m|
      ensures buffer[..bufferLen] == old(buffer[..bufferLen]) + m
    {
      for i := 0 to |m|
        modifies buffer
        invariant buffer[..bufferLen + i] == old(buffer[..bufferLen]) + m[..i]
      {
        buffer[bufferLen + i] := m[i];
      }
      bufferLen := bufferLen + |m|;
    }

    // One turn of the update loop.
    method Absorb(m: seq<byte>)
      requires Holds() && bufferLen + |m| <= 64
      modifies `state, `bufferLen, `absorbed, buffer
      ensures Holds() && absorbed == old(absorbed) + m
    {
      hide Streamed, Compress;
      ghost var tail, s := buffer[..bufferLen], state;
      Fill(m);
      if bufferLen == 64 {
        assert buffer[..] == buffer[..bufferLen] == tail + m;
        ProcessBlock(buffer[..]);
        bufferLen := 0;
        StreamedBlock(s, tail, absorbed, m);
        assert buffer[..0] == [];
      } else {
        StreamedTail(s, tail, absorbed, m);
      }
      absorbed := absorbed + m;
    }

    method Update(data: seq<byte>)
      requires Valid()
      modifies this, buffer
      ensures Valid() && absorbed == old(absorbed) + data
    {
      hide Streamed, U64;
      BitLength(|absorbed|, |data|);
      bitLen := U64(bitLen + U64(|data| * 8));
      var p := data;
      while |p| > 0
        invariant Holds() && bitLen == U64(8 * |old(absorbed) + data|)
        invariant absorbed + p == old(absorbed) + data
        decreases |p|
      {
        var take := 64 - bufferLen;
        if take > |p| {
          take := |p|;
        }
        assert absorbed + p == absorbed + p[..take] + p[take..];
        Absorb(p[..take]);
        p := p[take..];
      }
    }

    method FillZeros(to: nat)
      requires buffer.Length == 64 && bufferLen <= to <= 64
      modifies `bufferLen, buffer
      ensures bufferLen == to
      ensures buffer[..to] == old(buffer[..bufferLen]) + Zeros(to - old(bufferLen))
    {
      while bufferLen < to
        invariant old(bufferLen) <= bufferLen <= to
        invariant buffer[..bufferLen] == old(buffer[..bufferLen]) + Zeros(bufferLen - old(bufferLen))
      {
        buffer[bufferLen] := 0;
        bufferLen := bufferLen + 1;
      }
    }

    method FillLength(bits: u64)
      requires buffer.Length == 64 && bufferLen == 56
      modifies `bufferLen, buffer
      ensures bufferLen == 64
      ensures buffer[..] == old(buffer[..56]) + ToBe(bits, 8)
    {
      hide ToBe, Shr, Pow2;
      var i := 8;
      assert buffer[..56] + ToBe(Shr(bits, 64), 0) == buffer[..56];
      while i > 0
        modifies `bufferLen, buffer
        invariant 0 <= i <= 8 && bufferLen == 64 - i
        invariant buffer[..bufferLen] == old(buffer[..56]) + ToBe(Shr(bits, 8 * i), 8 - i)
      {
        i := i - 1;
        NextLengthByte(bits, i);
        buffer[bufferLen] := Shr(bits, 8 * i) % 256;
        bufferLen := bufferLen + 1;
      }
      NoShift(bits);
      assert buffer[..] == buffer[..64];
    }

    // The object must not be reused afterwards.
    method Finalize() returns (out: seq<byte>)
      requires Valid()
      modifies this, buffer
      ensures out == Hash(absorbed) && absorbed == old(absorbed)
    {
      hide Streamed, Compress, Digest, U64, Fold, ToBe;
      var totalBits := bitLen;
      ghost var tail, s := buffer[..bufferLen], state;
      StreamedFinal(s, tail, absorbed);
      ghost var padded := PadTail(tail, totalBits);
      Fill([0x80]);
      if bufferLen > 56 {
        FillZeros(64);
        assert buffer[..] == buffer[..64] == tail + [0x80] + Zeros(63 - |tail|);
        ProcessBlock(buffer[..]);
        FoldOne(s, buffer[..]);
        bufferLen := 0;
        FoldAppend(s, buffer[..], Zeros(56) + ToBe(totalBits, 8));
        assert padded == buffer[..] + (Zeros(56) + ToBe(totalBits, 8));
        assert buffer[..0] == [];
        FillZeros(56);
        assert buffer[..56] == Zeros(56);
      } else {
        FillZeros(56);
        assert buffer[..56] + ToBe(totalBits, 8) == padded;
      }
      FillLength(totalBits);
      ProcessBlock(buffer[..]);
      FoldOne(if |tail| < 56 then s else Fold(s, padded[..64]), buffer[..]);
      out := Digest(state);
    }
  }

  // hash: the one-shot helper.
  method HashOf(data: seq<byte>) returns (out: seq<byte>)
    ensures out == Hash(data)
  {
    var h := new Hasher();
    h.Update(data);
    assert [] + data == data;
    out := h.Finalize();
  }
}
