/**
Topic hashing: the bitwise CRC-32 of section 3.2.9 of IEEE 802.3, proved to be a polynomial remainder, and
the multicast group cut from a SHA-256 digest.

A polynomial over GF(2) is a natural whose bit i is the coefficient of x^i; Xor adds.
*/
module TopicHash {
  import opened Bits
  import opened Words
  import Sha256

  const GENERATOR: nat := 0x1_04C1_1DB7
  const REFLECTED: nat := 0xEDB8_8320
  const ONES: u32 := 0xffff_ffff

  // ---------------------------------------------------------------- the loop

  // crc = (crc >> 1) ^ (0xEDB88320 & -(crc & 1))
  function Step(crc: nat): nat
  {
    Xor(crc / 2, And(REFLECTED, U32(TWO32 - crc % 2)))
  }

  function Steps(crc: nat, n: nat): nat
    decreases n
  {
    if n == 0 then crc else Steps(Step(crc), n - 1)
  }

  function Fold(crc: nat, topic: seq<byte>): nat
    decreases |topic|
  {
    if topic == [] then crc else Fold(Steps(Xor(crc, topic[0]), 8), topic[1..])
  }

  lemma StepMeaning(crc: nat)
    ensures Step(crc) == Xor(crc / 2, if crc % 2 == 1 then REFLECTED else 0)
  {
    hide And, Xor;
    Pow2Values();
    AndMaskLiteral(REFLECTED, 32, 0xffff_ffff);
    AndZero(REFLECTED);
    assert U32(TWO32 - crc % 2) == if crc % 2 == 1 then 0xffff_ffff else 0;
  }

  lemma StepWord(crc: u32)
    ensures Step(crc) < TWO32
  {
    StepMeaning(crc);
    Pow2Values();
    XorBound(crc / 2, if crc % 2 == 1 then REFLECTED else 0, 32);
  }

  method TopicCrc32(topic: seq<byte>) returns (result: u32)
    ensures result == Crc32(topic)
  {
    hide Xor, Step;
    Pow2Values();
    var crc: u32 := ONES;
    for k := 0 to |topic|
      invariant Fold(crc, topic[k..]) == Fold(ONES, topic)
    {
      assert topic[k..][0] == topic[k] && topic[k..][1..] == topic[k + 1..];
      XorBound(crc, topic[k], 32);
      ghost var start := Xor(crc, topic[k]);
      crc := Xor(crc, topic[k]);
      for i := 0 to 8
        invariant Steps(crc, 8 - i) == Steps(start, 8)
      {
        StepWord(crc);
        crc := Step(crc);
      }
    }
    assert topic[|topic|..] == [];
    result := ONES - crc;
  }

  lemma {:induction false} FoldWord(crc: u32, topic: seq<byte>)
    ensures Fold(crc, topic) < TWO32
    decreases |topic|
  {
    hide Xor;
    if topic != [] {
      Pow2Values();
      XorBound(crc, topic[0], 32);
      StepsWord(Xor(crc, topic[0]), 8);
      FoldWord(Steps(Xor(crc, topic[0]), 8), topic[1..]);
    }
  }

  lemma {:induction false} StepsWord(crc: u32, n: nat)
    ensures Steps(crc, n) < TWO32
    decreases n
  {
    if n > 0 {
      StepWord(crc);
      StepsWord(Step(crc), n - 1);
    }
  }

  function Crc32(topic: seq<byte>): u32
  {
    FoldWord(ONES, topic);
    ONES - Fold(ONES, topic)
  }

  // ---------------------------------------------------------------- polynomials

  // q times the generator.
  function Multiple(q: nat): nat
  {
    if q == 0 then 0 else Xor(2 * Multiple(q / 2), if q % 2 == 1 then GENERATOR else 0)
  }

  ghost predicate IsRemainder(dividend: nat, r: nat)
  {
    r < TWO32 && exists q: nat :: dividend == Xor(Multiple(q), r)
  }

  // Reversal of the low n bits.
  function Reverse(n: nat, x: nat): nat
  {
    if n == 0 then 0 else x % 2 * Pow2(n - 1) + Reverse(n - 1, x / 2)
  }

  // The message as a polynomial: bytes in order, least significant bit first.
  function Message(topic: seq<byte>): nat
  {
    if topic == [] then 0 else 256 * Message(topic[..|topic| - 1]) + Reverse(8, topic[|topic| - 1])
  }

  // x^32 M(x) + x^(8n) (x^31 + ... + 1)
  function Dividend(topic: seq<byte>): nat
  {
    Xor(Shl(Message(topic), 32), Shl(ONES, 8 * |topic|))
  }

  lemma XorDouble(a: nat, b: nat)
    ensures Xor(2 * a, 2 * b) == 2 * Xor(a, b)
  {
    XorShifted(0, 0, a, b);
  }

  lemma XorShl(a: nat, b: nat, k: nat)
    ensures Xor(Shl(a, k), Shl(b, k)) == Shl(Xor(a, b), k)
  {
    hide Xor, Pow2;
    XorZero(0);
    XorSplit(0, 0, a, b, k);
  }

  lemma XorDisjoint(a: nat, b: nat, k: nat)
    requires a < Pow2(k)
    ensures Xor(a, Shl(b, k)) == a + Shl(b, k)
  {
    hide Xor, Pow2;
    XorSplit(a, 0, 0, b, k);
    XorZero(a);
    XorZero(b);
  }

  lemma {:induction false} MultipleXor(p: nat, q: nat)
    ensures Multiple(Xor(p, q)) == Xor(Multiple(p), Multiple(q))
    decreases p + q
  {
    hide Xor;
    if p + q == 0 {
      XorZero(0);
    } else {
      MultipleXor(p / 2, q / 2);
      XorHalves(p, q);
      var g, h := if p % 2 == 1 then GENERATOR else 0, if q % 2 == 1 then GENERATOR else 0;
      MultipleStep(p);
      MultipleStep(q);
      MultipleStep(Xor(p, q));
      XorDouble(Multiple(p / 2), Multiple(q / 2));
      Exchange(2 * Multiple(p / 2), g, 2 * Multiple(q / 2), h);
      XorSelf(GENERATOR);
      XorZero(GENERATOR);
      XorZero(0);
    }
  }

  lemma MultipleStep(q: nat)
    ensures Multiple(q) == Xor(2 * Multiple(q / 2), if q % 2 == 1 then GENERATOR else 0)
  {
  }

  // (a + b) + (c + d) == (a + c) + (b + d)
  lemma Exchange(a: nat, b: nat, c: nat, d: nat)
    ensures Xor(Xor(a, b), Xor(c, d)) == Xor(Xor(a, c), Xor(b, d))
  {
    hide Xor;
    XorAssoc(a, b, Xor(c, d));
    XorAssoc(b, c, d);
    XorComm(b, c);
    XorAssoc(c, b, d);
    XorAssoc(a, c, Xor(b, d));
  }

  // A nonzero multiple of the generator has degree at least 32.
  lemma {:induction false} MultipleDegree(q: nat)
    requires q > 0
    ensures Multiple(q) >= TWO32
  {
    if q == 1 {
      assert Multiple(0) == 0;
      XorZero(GENERATOR);
    } else {
      MultipleDegree(q / 2);
      var m := Multiple(q / 2);
      Pow2Values();
      Pow2Add(32, 1);
      HighPart(2 * m, if q % 2 == 1 then GENERATOR else 0, 33);
    }
  }

  // Adding something below 2^k does not change the bits from k up.
  lemma HighPart(a: nat, b: nat, k: nat)
    requires b < Pow2(k) <= a
    ensures Xor(a, b) >= Pow2(k)
  {
    hide Xor;
    if Xor(a, b) < Pow2(k) {
      XorBound(Xor(a, b), b, k);
      XorCancel(a, b);
    }
  }

  // The remainder is unique.
  lemma RemainderUnique(dividend: nat, r: nat, s: nat)
    requires IsRemainder(dividend, r) && IsRemainder(dividend, s)
    ensures r == s
  {
    hide Xor, Multiple, Pow2;
    var p: nat :| dividend == Xor(Multiple(p), r);
    var q: nat :| dividend == Xor(Multiple(q), s);
    XorSelf(dividend);
    Exchange(Multiple(p), r, Multiple(q), s);
    MultipleXor(p, q);
    XorIsZero(Multiple(Xor(p, q)), Xor(r, s));
    Pow2Values();
    XorBound(r, s, 32);
    if Xor(p, q) > 0 {
      MultipleDegree(Xor(p, q));
    } else {
      MultipleOfZero();
      XorIsZero(r, s);
    }
  }

  lemma MultipleOfZero()
    ensures Multiple(0) == 0
  {
  }

  // ---------------------------------------------------------------- one bit

  // Long division takes in bit b: r' = (x r + b x^32) mod the generator.
  function Divide(r: nat, b: nat): nat
  {
    Xor(2 * r % TWO32, if (r / 0x8000_0000 + b) % 2 == 1 then GENERATOR - TWO32 else 0)
  }

  function TakeBit(dividend: nat, b: nat): nat
  {
    Xor(2 * dividend, b * TWO32)
  }

  lemma DivideCorrect(dividend: nat, r: nat, b: nat)
    requires IsRemainder(dividend, r) && b < 2
    ensures IsRemainder(TakeBit(dividend, b), Divide(r, b))
  {
    hide Xor, Multiple;
    var q: nat :| dividend == Xor(Multiple(q), r);
    var t := (r / 0x8000_0000 + b) % 2;
    var low := 2 * r % TWO32;
    var r' := Divide(r, b);
    Pow2Values();
    XorBound(low, if t == 1 then GENERATOR - TWO32 else 0, 32);
    XorDouble(Multiple(q), r);
    XorAssoc(2 * Multiple(q), 2 * r, b * TWO32);
    ShiftedIn(r, b);
    MultipleStep(2 * q + t);
    assert (2 * q + t) / 2 == q && (2 * q + t) % 2 == t;
    var g := if t == 1 then GENERATOR else 0;
    TopBitOut(low, t);
    XorAssoc(2 * Multiple(q), g, r');
    assert TakeBit(dividend, b) == Xor(Multiple(2 * q + t), r');
  }

  // 2r + b 2^32 has top bit t and low word 2r mod 2^32.
  lemma ShiftedIn(r: nat, b: nat)
    requires r < TWO32 && b < 2
    ensures Xor(2 * r, b * TWO32) == (r / 0x8000_0000 + b) % 2 * TWO32 + 2 * r % TWO32
  {
    hide Xor, Pow2;
    Pow2Values();
    var low, top := 2 * r % TWO32, r / 0x8000_0000;
    XorSplit(low, 0, top, b, 32);
    assert 2 * r == low + TWO32 * top;
    XorZero(low);
    XorBits(top, b);
  }

  lemma XorBits(a: nat, b: nat)
    requires a < 2 && b < 2
    ensures Xor(a, b) == (a + b) % 2
  {
    assert Xor(0, 0) == 0;
    assert Xor(a, b) == (a + b) % 2 + 2 * Xor(0, 0);
  }

  lemma TopBitOut(low: nat, t: nat)
    requires low < TWO32 && t < 2
    ensures Xor(if t == 1 then GENERATOR else 0, Xor(low, if t == 1 then GENERATOR - TWO32 else 0)) == t * TWO32 + low
  {
    hide Xor;
    Pow2Values();
    var g := if t == 1 then GENERATOR - TWO32 else 0;
    var x := Xor(low, g);
    XorBound(low, g, 32);
    XorSplit(g, x, t, 0, 32);
    XorComm(g, x);
    XorCancel(low, g);
    XorZero(t);
  }

  // ---------------------------------------------------------------- reflection

  lemma {:induction false} ReverseBound(n: nat, x: nat)
    ensures Reverse(n, x) < Pow2(n)
  {
    if n > 0 {
      ReverseBound(n - 1, x / 2);
      BitTimes(x % 2, Pow2(n - 1));
    }
  }

  lemma BitTimes(b: nat, p: nat)
    requires b < 2
    ensures b * p == if b == 1 then p else 0
  {
  }

  lemma {:induction false} ReverseXor(n: nat, x: nat, y: nat)
    ensures Reverse(n, Xor(x, y)) == Xor(Reverse(n, x), Reverse(n, y))
  {
    hide Xor;
    if n == 0 {
      XorZero(0);
    } else {
      ReverseXor(n - 1, x / 2, y / 2);
      XorHalves(x, y);
      ReverseBound(n - 1, x / 2);
      ReverseBound(n - 1, y / 2);
      XorSplit(Reverse(n - 1, x / 2), Reverse(n - 1, y / 2), x % 2, y % 2, n - 1);
      XorBits(x % 2, y % 2);
      BitTimes(x % 2, Pow2(n - 1));
      BitTimes(y % 2, Pow2(n - 1));
      BitTimes((x % 2 + y % 2) % 2, Pow2(n - 1));
    }
  }

  // The top bit of a reversal is the low bit of what was reversed; a right shift becomes a left shift.
  lemma {:induction false} ReverseHalf(n: nat, x: nat)
    requires x < Pow2(n)
    ensures Reverse(n + 1, x) == 2 * Reverse(n, x)
  {
    if n > 0 {
      ReverseHalf(n - 1, x / 2);
      TwiceProduct(Pow2(n - 1), x % 2);
    } else {
      assert Reverse(0, 0) == 0;
    }
  }

  // A reflected step with bit b already in the low position is a division step on the reversal.
  function Serial(crc: nat, b: nat): nat
  {
    Xor(crc / 2, if (crc % 2 + b) % 2 == 1 then REFLECTED else 0)
  }

  lemma SerialReversed(crc: u32, b: nat)
    requires b < 2
    ensures Serial(crc, b) < TWO32
    ensures Reverse(32, Serial(crc, b)) == Divide(Reverse(32, crc), b)
  {
    hide Xor, Reverse;
    Pow2Values();
    var r := Reverse(32, crc);
    ReverseStep(crc);
    var g := if (crc % 2 + b) % 2 == 1 then REFLECTED else 0;
    XorBound(crc / 2, g, 32);
    ReverseXor(32, crc / 2, g);
    ReverseGenerator();
  }

  lemma ReverseStep(crc: u32)
    ensures Reverse(32, crc / 2) == 2 * Reverse(32, crc) % TWO32
    ensures Reverse(32, crc) / 0x8000_0000 == crc % 2
  {
    hide Reverse, Pow2;
    Pow2Values();
    ReverseHalf(31, crc / 2);
    ReverseBound(31, crc / 2);
    ReverseLow(31, crc);
  }

  lemma ReverseLow(n: nat, x: nat)
    ensures Reverse(n + 1, x) == Reverse(n, x / 2) + if x % 2 == 1 then Pow2(n) else 0
  {
    BitTimes(x % 2, Pow2(n));
  }

  lemma {:induction false} ReverseAppend(m: nat, n: nat, x: nat, y: nat)
    requires x < Pow2(m)
    ensures Reverse(m + n, x + Shl(y, m)) == Shl(Reverse(m, x), n) + Reverse(n, y)
  {
    if m > 0 {
      var p := Pow2(m - 1);
      TwiceProduct(p, y);
      assert (x + 2 * (p * y)) / 2 == x / 2 + p * y && (x + 2 * (p * y)) % 2 == x % 2;
      ReverseAppend(m - 1, n, x / 2, y);
      Pow2Add(m - 1, n);
      Distribute(x % 2, p, Reverse(m - 1, x / 2), Pow2(n));
    }
  }

  lemma Distribute(b: nat, p: nat, r: nat, q: nat)
    ensures (b * p + r) * q == b * (p * q) + r * q
  {
  }

  lemma ReverseByte(x: nat)
    requires x == 0x20 || x == 0x83 || x == 0xB8 || x == 0xED
    ensures Reverse(8, x) == if x == 0x20 then 0x04 else if x == 0x83 then 0xC1 else if x == 0xB8 then 0x1D else 0xB7
  {
    hide Reverse, Pow2;
    if x == 0x20 {
      ReverseNibbles(0x0, 0x2);
    } else if x == 0x83 {
      ReverseNibbles(0x3, 0x8);
    } else if x == 0xB8 {
      ReverseNibbles(0x8, 0xB);
    } else {
      ReverseNibbles(0xD, 0xE);
    }
  }

  function Nibble(x: nat): nat { 8 * (x % 2) + 4 * (x / 2 % 2) + 2 * (x / 4 % 2) + x / 8 }

  lemma ReverseNibbles(lo: nat, hi: nat)
    requires lo < 16 && hi < 16
    ensures Reverse(8, lo + 16 * hi) == 16 * Nibble(lo) + Nibble(hi)
  {
    hide Reverse, Pow2, Nibble;
    SmallPowers();
    ReverseNibble(lo);
    ReverseNibble(hi);
    ReverseAppend(4, 4, lo, hi);
  }

  lemma ReverseNibble(x: nat)
    requires x < 16
    ensures Reverse(4, x) == Nibble(x)
  {
    hide Pow2;
    SmallPowers();
    Pow2Add(1, 2);
    assert Pow2(0) == 1 by {
      Pow2Add(0, 1);
    }
    assert Reverse(1, x / 8) == x / 8 % 2;
    assert Reverse(2, x / 4) == x / 4 % 2 * 2 + Reverse(1, x / 4 / 2);
    assert Reverse(3, x / 2) == x / 2 % 2 * 4 + Reverse(2, x / 2 / 2);
  }

  lemma ReverseGenerator()
    ensures Reverse(32, REFLECTED) == GENERATOR - TWO32 && Reverse(32, 0) == 0
  {
    hide Reverse, Pow2;
    Pow2Values();
    ReverseByte(0x20);
    ReverseByte(0x83);
    ReverseByte(0xB8);
    ReverseByte(0xED);
    ReverseAppend(8, 8, 0xB8, 0xED);
    ReverseAppend(8, 16, 0x83, 0xEDB8);
    ReverseAppend(8, 24, 0x20, 0xEDB883);
    assert Pow2(24) == 0x100_0000 by {
      Pow2Add(8, 16);
    }
    ReverseOfZero(32);
  }

  lemma {:induction false} ReverseOfZero(n: nat)
    ensures Reverse(n, 0) == 0
  {
    if n > 0 {
      ReverseOfZero(n - 1);
    }
  }

  // ---------------------------------------------------------------- one byte

  function SerialBits(crc: nat, c: nat, n: nat): nat
    decreases n
  {
    if n == 0 then crc else SerialBits(Serial(crc, c % 2), c / 2, n - 1)
  }

  // Exclusive-oring a whole byte in first is the same as feeding its bits one at a time.
  lemma {:induction false} StepsAreSerial(crc: nat, c: nat, n: nat)
    requires c < Pow2(n)
    ensures Steps(Xor(crc, c), n) == SerialBits(crc, c, n)
    decreases n
  {
    hide Xor, Step;
    if n == 0 {
      XorZero(crc);
    } else {
      var g := if (crc % 2 + c % 2) % 2 == 1 then REFLECTED else 0;
      XorHalves(crc, c);
      StepMeaning(Xor(crc, c));
      XorAssoc(crc / 2, c / 2, g);
      XorComm(c / 2, g);
      XorAssoc(crc / 2, g, c / 2);
      StepsAreSerial(Serial(crc, c % 2), c / 2, n - 1);
    }
  }

  function TakeBits(dividend: nat, c: nat, n: nat): nat
    decreases n
  {
    if n == 0 then dividend else TakeBits(TakeBit(dividend, c % 2), c / 2, n - 1)
  }

  lemma {:induction false} SerialBitsDivide(dividend: nat, crc: u32, c: nat, n: nat)
    requires IsRemainder(dividend, Reverse(32, crc))
    ensures SerialBits(crc, c, n) < TWO32
    ensures IsRemainder(TakeBits(dividend, c, n), Reverse(32, SerialBits(crc, c, n)))
    decreases n
  {
    hide Serial, TakeBit, Divide, IsRemainder, Reverse;
    if n > 0 {
      DivideCorrect(dividend, Reverse(32, crc), c % 2);
      SerialReversed(crc, c % 2);
      SerialBitsDivide(TakeBit(dividend, c % 2), Serial(crc, c % 2), c / 2, n - 1);
    }
  }

  lemma {:induction false} TakeBitsIsShift(dividend: nat, c: nat, n: nat)
    ensures TakeBits(dividend, c, n) == Xor(Shl(dividend, n), Shl(Reverse(n, c), 32))
    decreases n
  {
    hide Xor;
    if n == 0 {
      XorZero(dividend);
    } else {
      var b, rest := c % 2, Reverse(n - 1, c / 2);
      TakeBitsIsShift(TakeBit(dividend, b), c / 2, n - 1);
      XorShl(2 * dividend, b * TWO32, n - 1);
      ShlTwice(dividend, b, n);
      XorAssoc(Shl(dividend, n), Shl(Shl(b, n - 1), 32), Shl(rest, 32));
      XorShl(Shl(b, n - 1), rest, 32);
      ReverseBound(n - 1, c / 2);
      XorDisjoint(rest, b, n - 1);
      XorComm(rest, Shl(b, n - 1));
    }
  }

  lemma ShlTwice(d: nat, b: nat, n: nat)
    requires n > 0
    ensures Shl(2 * d, n - 1) == Shl(d, n)
    ensures Shl(b * TWO32, n - 1) == Shl(Shl(b, n - 1), 32)
  {
    Pow2Values();
    var p := Pow2(n - 1);
    TwiceProduct(d, p);
    TwiceProduct(p, d);
    assert b * TWO32 * p == b * p * TWO32;
  }

  // ---------------------------------------------------------------- the whole string

  lemma DividendAppend(topic: seq<byte>, c: byte)
    ensures Dividend(topic + [c]) == TakeBits(Dividend(topic), c, 8)
  {
    hide Xor, Reverse;
    var m, n, rev := Message(topic), 8 * |topic|, Reverse(8, c);
    assert (topic + [c])[..|topic|] == topic;
    assert Message(topic + [c]) == 256 * m + rev;
    TakeBitsIsShift(Dividend(topic), c, 8);
    XorShl(Shl(m, 32), Shl(ONES, n), 8);
    ReverseBound(8, c);
    XorDisjoint(rev, m, 8);
    Pow2Values();
    XorShl(rev, Shl(m, 8), 32);
    ShlShl(m, 32, 8);
    ShlShl(m, 8, 32);
    ShlShl(ONES, n, 8);
    XorComm(Shl(rev, 32), Shl(m, 40));
    XorAssoc(Shl(m, 40), Shl(ONES, n + 8), Shl(rev, 32));
    XorComm(Shl(ONES, n + 8), Shl(rev, 32));
    XorAssoc(Shl(m, 40), Shl(rev, 32), Shl(ONES, n + 8));
  }

  lemma ShlShl(x: nat, j: nat, k: nat)
    ensures Shl(Shl(x, j), k) == Shl(x, j + k)
  {
    hide Pow2;
    Pow2Add(j, k);
    TimesTwice(x, Pow2(j), Pow2(k));
  }

  lemma TimesTwice(x: nat, p: nat, q: nat)
    ensures x * p * q == x * (p * q)
  {
  }

  lemma {:induction false} FoldAppend(crc: nat, topic: seq<byte>, c: byte)
    ensures Fold(crc, topic + [c]) == Steps(Xor(Fold(crc, topic), c), 8)
    decreases |topic|
  {
    hide Xor, Steps;
    if topic == [] {
      assert [c][1..] == [] && topic + [c] == [c];
      assert Fold(Steps(Xor(crc, c), 8), []) == Steps(Xor(crc, c), 8);
    } else {
      assert (topic + [c])[1..] == topic[1..] + [c];
      FoldAppend(Steps(Xor(crc, topic[0]), 8), topic[1..], c);
    }
  }

  lemma {:induction false} FoldIsRemainder(topic: seq<byte>)
    ensures Fold(ONES, topic) < TWO32
    ensures IsRemainder(Dividend(topic), Reverse(32, Fold(ONES, topic)))
    decreases |topic|
  {
    hide Xor, Multiple, Reverse, Steps;
    if topic == [] {
      EmptyDividend();
    } else {
      var n := |topic| - 1;
      var head, c := topic[..n], topic[n];
      assert topic == head + [c];
      FoldIsRemainder(head);
      FoldAppend(ONES, head, c);
      Pow2Values();
      StepsAreSerial(Fold(ONES, head), c, 8);
      SerialBitsDivide(Dividend(head), Fold(ONES, head), c, 8);
      DividendAppend(head, c);
    }
  }

  lemma EmptyDividend()
    ensures IsRemainder(Dividend([]), Reverse(32, ONES))
  {
    hide Xor, Reverse;
    XorZero(ONES);
    ReverseOnes(32);
    Pow2Values();
    assert Multiple(0) == 0;
    assert Dividend([]) == Xor(Multiple(0), ONES);
  }

  lemma {:induction false} ReverseOnes(n: nat)
    ensures Reverse(n, Pow2(n) - 1) == Pow2(n) - 1
  {
    if n > 0 {
      var h := Pow2(n - 1);
      assert (2 * h - 1) / 2 == h - 1 && (2 * h - 1) % 2 == 1;
      ReverseOnes(n - 1);
    }
  }

  lemma {:induction false} ReverseTwice(x: u32, y: u32)
    ensures Reverse(32, x) == Reverse(32, y) <==> x == y
  {
    Pow2Values();
    if x != y {
      ReverseInjective(32, x, y);
    }
  }

  lemma {:induction false} ReverseInjective(n: nat, x: nat, y: nat)
    requires x < Pow2(n) && y < Pow2(n) && x != y
    ensures Reverse(n, x) != Reverse(n, y)
  {
    if n > 0 {
      ReverseBound(n - 1, x / 2);
      ReverseBound(n - 1, y / 2);
      BitTimes(x % 2, Pow2(n - 1));
      BitTimes(y % 2, Pow2(n - 1));
      if x / 2 != y / 2 {
        ReverseInjective(n - 1, x / 2, y / 2);
      }
    }
  }

  // The checksum is the complement of the reflected remainder, and nothing else is.
  lemma Crc32IsRemainder(topic: seq<byte>, crc: u32)
    ensures crc == Crc32(topic) <==> IsRemainder(Dividend(topic), Reverse(32, ONES - crc))
  {
    hide IsRemainder, Dividend, Reverse, Fold;
    FoldIsRemainder(topic);
    FoldWord(ONES, topic);
    Pow2Values();
    if IsRemainder(Dividend(topic), Reverse(32, ONES - crc)) {
      RemainderUnique(Dividend(topic), Reverse(32, ONES - crc), Reverse(32, Fold(ONES, topic)));
      ReverseTwice(ONES - crc, Fold(ONES, topic));
    }
  }

  // ---------------------------------------------------------------- the low half of the checksum

  lemma RemainderXor(d: nat, r: nat, e: nat, s: nat)
    requires IsRemainder(d, r) && IsRemainder(e, s)
    ensures IsRemainder(Xor(d, e), Xor(r, s))
  {
    hide Xor, Multiple, Pow2;
    var p: nat :| d == Xor(Multiple(p), r);
    var q: nat :| e == Xor(Multiple(q), s);
    Exchange(Multiple(p), r, Multiple(q), s);
    MultipleXor(p, q);
    Pow2Values();
    XorBound(r, s, 32);
  }

  // The low half of a word is the high half of its reflection.
  lemma ReverseHalves(x: u32)
    ensures Reverse(32, x) == 0x1_0000 * Reverse(16, x % 0x1_0000) + Reverse(16, x / 0x1_0000)
    ensures Reverse(16, x / 0x1_0000) < 0x1_0000 && Reverse(16, x % 0x1_0000) < 0x1_0000
  {
    hide Reverse, Pow2;
    Pow2Values();
    ReverseAppend(16, 16, x % 0x1_0000, x / 0x1_0000);
    ReverseBound(16, x / 0x1_0000);
    ReverseBound(16, x % 0x1_0000);
    assert x % 0x1_0000 + 0x1_0000 * (x / 0x1_0000) == x;
  }

  lemma HighHalvesDiffer(a: nat, b: nat, c: nat, d: nat)
    requires a < 0x1_0000 && b < 0x1_0000
    ensures Xor(a + 0x1_0000 * c, b + 0x1_0000 * d) < 0x1_0000 <==> c == d
  {
    hide Xor, Pow2;
    Pow2Values();
    XorSplit(a, b, c, d, 16);
    XorBound(a, b, 16);
    XorIsZero(c, d);
  }

  lemma LowHalvesEqual(x: u32, y: u32)
    ensures x % 0x1_0000 == y % 0x1_0000 <==> Xor(Reverse(32, x), Reverse(32, y)) < 0x1_0000
  {
    hide Xor, Reverse, Pow2;
    Pow2Values();
    ReverseHalves(x);
    ReverseHalves(y);
    HighHalvesDiffer(Reverse(16, x / 0x1_0000), Reverse(16, y / 0x1_0000), Reverse(16, x % 0x1_0000), Reverse(16, y % 0x1_0000));
    if x % 0x1_0000 != y % 0x1_0000 {
      ReverseInjective(16, x % 0x1_0000, y % 0x1_0000);
    }
  }

  lemma LowHalfOfComplement(x: u32, y: u32)
    ensures (ONES - x) % 0x1_0000 == (ONES - y) % 0x1_0000 <==> x % 0x1_0000 == y % 0x1_0000
  {
    Complement(x);
    Complement(y);
  }

  lemma Complement(x: u32)
    ensures (ONES - x) % 0x1_0000 == 0xffff - x % 0x1_0000
  {
  }

  // Two strings agree in the low half of their checksums if and only if the remainder of the difference of
  // their dividends has no term above x^15.
  lemma LowHalvesAgreeIff(a: seq<byte>, b: seq<byte>)
    ensures Crc32(a) % 0x1_0000 == Crc32(b) % 0x1_0000
            <==> exists r: nat :: r < 0x1_0000 && IsRemainder(Xor(Dividend(a), Dividend(b)), r)
  {
    hide Xor, Reverse, IsRemainder, Dividend, Fold;
    var x, y := Fold(ONES, a), Fold(ONES, b);
    FoldWord(ONES, a);
    FoldWord(ONES, b);
    FoldIsRemainder(a);
    FoldIsRemainder(b);
    LowHalfOfComplement(x, y);
    LowHalvesEqual(x, y);
    var s := Xor(Reverse(32, x), Reverse(32, y));
    RemainderXor(Dividend(a), Reverse(32, x), Dividend(b), Reverse(32, y));
    if exists r: nat :: r < 0x1_0000 && IsRemainder(Xor(Dividend(a), Dividend(b)), r) {
      var r: nat :| r < 0x1_0000 && IsRemainder(Xor(Dividend(a), Dividend(b)), r);
      RemainderUnique(Xor(Dividend(a), Dividend(b)), r, s);
    }
  }

  // For strings of one length that difference is x^32 (M(a) + M(b)).
  lemma EqualLengthDifference(a: seq<byte>, b: seq<byte>)
    requires |a| == |b|
    ensures Xor(Dividend(a), Dividend(b)) == Shl(Xor(Message(a), Message(b)), 32)
  {
    hide Xor, Message, Shl;
    var m, n, o := Shl(Message(a), 32), Shl(Message(b), 32), Shl(ONES, 8 * |a|);
    Exchange(m, o, n, o);
    XorSelf(o);
    XorZero(Xor(m, n));
    XorShl(Message(a), Message(b), 32);
  }

  // ---------------------------------------------------------------- the multicast group

  type Scope = x: int | x == 0x2 || x == 0x5 || x == 0x8 witness 0x2

  function Group(topic: seq<byte>, scope: Scope): (addr: seq<byte>)
    ensures |addr| == 16
  {
    [0xff, 0x10 + scope] + Sha256.Hash(topic)[..14]
  }

  method TopicToGroup(topic: seq<byte>, scope: Scope) returns (addr: array<byte>)
    ensures fresh(addr) && addr[..] == Group(topic, scope)
  {
    hide Sha256.Hash;
    var digest := Sha256.HashOf(topic);
    addr := new byte[16](_ => 0);
    addr[0] := 0xff;
    addr[1] := 0x10 + scope;
    for i := 0 to 14
      invariant addr[..2 + i] == [0xff, 0x10 + scope] + digest[..i]
    {
      addr[2 + i] := digest[i];
    }
    assert addr[..] == addr[..16];
  }
}
