/**
Words as Dafny's bit vectors. The operators of module Bits and the truncations of module Words are functions on
numbers; here they are shown to be the machine's own: exclusive or, and, complement, sum, shift and rotation.

Num is Dafny's conversion. Facts about vectors alone are kept in lemmas of their own, and what is proved by
induction goes through Val, which reads a vector bit by bit.
*/
module MachineWords {
  import opened Bits
  import opened Words

  function Half(x: bv32): bv32 { x >> 1 }

  function Odd(x: bv32): bool { x & 1 == 1 }

  function Bit(x: bv32): nat { if Odd(x) then 1 else 0 }

  // Agreement under a mask, which is a run of low bits.
  predicate Run(m: bv32) { m & (m + 1) == 0 }

  predicate Agree(x: bv32, y: bv32, m: bv32) { (x ^ y) & m == 0 }

  function BXor(x: bv32, y: bv32): bv32 { x ^ y }

  function BAnd(x: bv32, y: bv32): bv32 { x & y }

  function BNot(x: bv32): bv32 { !x }

  function Inc(x: bv32): bv32 { x + 1 }

  // The number in the bits of x under the mask.
  function Val(x: bv32, m: bv32): nat
    decreases m
  {
    if m == 0 then 0 else Bit(x) + 2 * Val(Half(x), Half(m))
  }

  function Size(m: bv32): (n: nat)
    ensures n > 0
    decreases m
  {
    if m == 0 then 1 else 2 * Size(Half(m))
  }

  // ---------------------------------------------------------------- on the vectors alone

  lemma HalfLess(m: bv32)
    ensures m != 0 ==> Half(m) < m
  {
  }

  lemma RunHalf(m: bv32)
    requires m != 0 && Run(m)
    ensures Run(Half(m))
  {
  }

  lemma XorBits(x: bv32, y: bv32)
    ensures Odd(BXor(x, y)) == (Odd(x) != Odd(y)) && Half(BXor(x, y)) == BXor(Half(x), Half(y))
  {
  }

  lemma AndBits(x: bv32, y: bv32)
    ensures Odd(BAnd(x, y)) == (Odd(x) && Odd(y)) && Half(BAnd(x, y)) == BAnd(Half(x), Half(y))
  {
  }

  lemma AgreeBits(x: bv32, y: bv32, m: bv32)
    requires m != 0 && Run(m) && Agree(x, y, m)
    ensures Odd(x) == Odd(y) && Agree(Half(x), Half(y), Half(m))
  {
  }

  lemma NotBits(x: bv32, m: bv32)
    requires Run(m)
    ensures Odd(BNot(x)) == !Odd(x) && Agree(Half(BNot(x)), BNot(Half(x)), Half(m))
  {
  }

  lemma IncBits(x: bv32, m: bv32)
    requires Run(m)
    ensures Odd(Inc(x)) == !Odd(x)
    ensures Agree(Half(Inc(x)), if Odd(x) then Inc(Half(x)) else Half(x), Half(m))
  {
  }

  // ---------------------------------------------------------------- the numbers

  lemma ValStep(x: bv32, m: bv32)
    ensures Val(x, m) == if m == 0 then 0 else Bit(x) + 2 * Val(Half(x), Half(m))
    ensures Size(m) == if m == 0 then 1 else 2 * Size(Half(m))
  {
  }

  lemma {:induction false} ValBound(x: bv32, m: bv32)
    ensures Val(x, m) < Size(m)
    decreases m
  {
    hide Half, Odd, Val, Size;
    ValStep(x, m);
    if m != 0 {
      HalfLess(m);
      ValBound(Half(x), Half(m));
    }
  }

  lemma {:induction false} AgreeVal(x: bv32, y: bv32, m: bv32)
    requires Run(m) && Agree(x, y, m)
    ensures Val(x, m) == Val(y, m)
    decreases m
  {
    hide Half, Odd, Val, Size, Run, Agree;
    ValStep(x, m);
    ValStep(y, m);
    if m != 0 {
      HalfLess(m);
      RunHalf(m);
      AgreeBits(x, y, m);
      AgreeVal(Half(x), Half(y), Half(m));
    }
  }

  lemma XorStep(i: nat, m: nat, j: nat, n: nat)
    requires i < 2 && j < 2
    ensures Xor(i + 2 * m, j + 2 * n) == (if i == j then 0 else 1) + 2 * Xor(m, n)
  {
    hide Xor;
    XorShifted(i, j, m, n);
  }

  lemma {:induction false} XorVal(x: bv32, y: bv32, m: bv32)
    ensures Val(BXor(x, y), m) == Xor(Val(x, m), Val(y, m))
    decreases m
  {
    hide Half, Odd, Val, Size, BXor, Xor;
    ValStep(x, m);
    ValStep(y, m);
    ValStep(BXor(x, y), m);
    if m == 0 {
      XorZero(0);
    } else {
      HalfLess(m);
      XorVal(Half(x), Half(y), Half(m));
      XorBits(x, y);
      XorStep(Bit(x), Val(Half(x), Half(m)), Bit(y), Val(Half(y), Half(m)));
    }
  }

  lemma AndStep(i: nat, m: nat, j: nat, n: nat)
    requires i < 2 && j < 2
    ensures And(i + 2 * m, j + 2 * n) == (if i == 1 && j == 1 then 1 else 0) + 2 * And(m, n)
  {
    hide And;
    AndShifted(i, j, m, n);
  }

  lemma {:induction false} AndVal(x: bv32, y: bv32, m: bv32)
    ensures Val(BAnd(x, y), m) == And(Val(x, m), Val(y, m))
    decreases m
  {
    hide Half, Odd, Val, Size, BAnd, And;
    ValStep(x, m);
    ValStep(y, m);
    ValStep(BAnd(x, y), m);
    if m == 0 {
      AndZero(0);
    } else {
      HalfLess(m);
      AndVal(Half(x), Half(y), Half(m));
      AndBits(x, y);
      AndStep(Bit(x), Val(Half(x), Half(m)), Bit(y), Val(Half(y), Half(m)));
    }
  }

  lemma {:induction false} NotVal(x: bv32, m: bv32)
    requires Run(m)
    ensures Val(BNot(x), m) == Size(m) - 1 - Val(x, m)
    decreases m
  {
    hide Half, Odd, Val, Size, Run, Agree, BNot;
    ValStep(x, m);
    ValStep(BNot(x), m);
    if m != 0 {
      HalfLess(m);
      RunHalf(m);
      NotBits(x, m);
      AgreeVal(Half(BNot(x)), BNot(Half(x)), Half(m));
      NotVal(Half(x), Half(m));
    }
  }

  lemma IncStep(i: nat, m: nat, p: nat)
    requires p > 0 && i < 2 && m < p
    ensures (i + 2 * m + 1) % (2 * p) == if i == 0 then 1 + 2 * m else 2 * ((m + 1) % p)
  {
    if i == 0 {
      DivModUnique(0, 1 + 2 * m, 2 * p);
    } else if m + 1 == p {
      DivModUnique(1, 0, p);
      DivModUnique(1, 0, 2 * p);
    } else {
      DivModUnique(0, m + 1, p);
      DivModUnique(0, 2 * (m + 1), 2 * p);
    }
  }

  lemma {:induction false} IncVal(x: bv32, m: bv32)
    requires Run(m)
    ensures Val(Inc(x), m) == (Val(x, m) + 1) % Size(m)
    decreases m
  {
    hide Half, Odd, Val, Size, Run, Agree, Inc;
    ValStep(x, m);
    ValStep(Inc(x), m);
    if m != 0 {
      HalfLess(m);
      RunHalf(m);
      IncBits(x, m);
      AgreeVal(Half(Inc(x)), if Odd(x) then Inc(Half(x)) else Half(x), Half(m));
      IncVal(Half(x), Half(m));
      ValBound(Half(x), Half(m));
      IncStep(Bit(x), Val(Half(x), Half(m)), Size(Half(m)));
    }
  }

  lemma PlusOne(x: bv32, m: bv32)
    requires Run(m)
    ensures Val(x + 1, m) == (Val(x, m) + 1) % Size(m)
  {
    hide Val, Size, Run;
    IncVal(x, m);
  }

  function Plus(x: bv32, y: bv32): bv32 { x + y }

  lemma PredLess(y: bv32)
    ensures y != 0 ==> y - 1 < y
    ensures Plus(y, 0) == y
  {
  }

  lemma NextVal(y: bv32, m: bv32)
    requires Run(m)
    ensures Val(y, m) == (Val(y - 1, m) + 1) % Size(m)
  {
    hide Val, Size, Run;
    PlusOne(y - 1, m);
  }

  lemma NextSum(x: bv32, y: bv32, m: bv32)
    requires Run(m)
    ensures Val(Plus(x, y), m) == (Val(Plus(x, y - 1), m) + 1) % Size(m)
  {
    hide Val, Size, Run;
    PlusOne(x + (y - 1), m);
  }

  // The machine's sum is the sum of the numbers, truncated.
  lemma {:induction false} SumVal(x: bv32, y: bv32, m: bv32)
    requires Run(m)
    ensures Val(Plus(x, y), m) == (Val(x, m) + Val(y, m)) % Size(m)
    decreases y
  {
    hide Val, Size, Run, Plus;
    PredLess(x);
    PredLess(y);
    if y == 0 {
      ZeroVal(m);
      ValBound(x, m);
      DivModUnique(0, Val(x, m), Size(m));
    } else {
      SumVal(x, y - 1, m);
      NextVal(y, m);
      NextSum(x, y, m);
      SumMod(Val(x, m), Val(y - 1, m), Size(m));
    }
  }

  lemma {:induction false} ZeroVal(m: bv32)
    ensures Val(0, m) == 0
    decreases m
  {
    if m != 0 {
      ZeroVal(Half(m));
    }
  }

  lemma SumMod(a: nat, b: nat, p: nat)
    requires p > 0
    ensures ((a + b) % p + 1) % p == (a + (b + 1) % p) % p
  {
    ModPlus(a + b, 1, p);
    ModPlus(b + 1, a, p);
  }

  lemma ModPlus(a: nat, b: nat, p: nat)
    requires p > 0
    ensures (a % p + b) % p == (a + b) % p
  {
    QuotientTimes(a, p);
    var r := a % p + b;
    QuotientTimes(r, p);
    var q := a / p + r / p;
    assert a + b == q * p + r % p;
    DivModUnique(q, r % p, p);
  }

  // ---------------------------------------------------------------- shifts and rotations

  // The lowest s bits set.
  function Ones(s: bv32): bv32
    requires s <= 32
  {
    var one: bv32 := 1;
    (one << s) - 1
  }

  lemma OnesStep(s: bv32)
    requires 1 <= s <= 32
    ensures Half(Ones(s)) == Ones(s - 1) && Ones(s) != 0
  {
  }

  lemma OnesRun(s: bv32)
    requires s <= 32
    ensures Run(Ones(s)) && Ones(0) == 0
  {
  }

  function Drop(x: bv32, s: bv32): bv32
    requires s <= 32
  {
    x >> s
  }

  lemma ShiftTwice(x: bv32, s: bv32)
    requires 1 <= s <= 32
    ensures (x >> 1) >> (s - 1) == x >> s
  {
  }

  lemma DropHalf(x: bv32, s: bv32)
    requires 1 <= s <= 32
    ensures Drop(Half(x), s - 1) == Drop(x, s)
  {
    ShiftTwice(x, s);
  }

  lemma DropNone(x: bv32)
    ensures Drop(x, 0) == x
  {
  }

  // The low s bits and the rest.
  lemma {:induction false} SplitVal(x: bv32, m: bv32, s: bv32)
    requires s <= 32 && m & Ones(s) == Ones(s)
    ensures Val(x, m) == Val(x, Ones(s)) + Pow2(s as int) * Val(Drop(x, s), Drop(m, s))
    decreases s
  {
    hide Half, Val, Size, Ones, Odd, Drop, Pow2;
    if s == 0 {
      OnesRun(s);
      DropNone(x);
      DropNone(m);
      ValStep(x, 0);
      NoPower();
    } else {
      OnesStep(s);
      Pred(s);
      DropHalf(x, s);
      DropHalf(m, s);
      ValStep(x, m);
      ValStep(x, Ones(s));
      UnderHalf(m, s);
      SplitVal(Half(x), Half(m), s - 1);
      Pow2Step(s as int);
      TwiceProduct(Pow2(s as int - 1), Val(Drop(x, s), Drop(m, s)));
    }
  }

  lemma NoPower()
    ensures Pow2(0) == 1
  {
  }

  lemma Pow2Step(k: nat)
    requires k > 0
    ensures Pow2(k) == 2 * Pow2(k - 1)
  {
  }

  lemma UnderHalf(m: bv32, s: bv32)
    requires 1 <= s <= 32 && m & Ones(s) == Ones(s)
    ensures m != 0 && Half(m) & Ones(s - 1) == Ones(s - 1)
  {
  }

  lemma Pred(s: bv32)
    requires 1 <= s <= 32
    ensures (s - 1) as int == s as int - 1 && 1 <= s as int <= 32
  {
  }

  lemma {:induction false} SizeOnes(s: bv32)
    requires s <= 32
    ensures Size(Ones(s)) == Pow2(s as int)
    decreases s
  {
    hide Half, Size, Ones;
    if s == 0 {
      OnesRun(s);
      ValStep(0, 0);
    } else {
      OnesStep(s);
      Pred(s);
      ValStep(0, Ones(s));
      SizeOnes(s - 1);
    }
  }

  // ---------------------------------------------------------------- the conversion

  const FULL: bv32 := 0xffff_ffff

  function LowByte(x: bv32): nat { (x & 0xff) as int }

  // Dafny's own conversion, byte by byte.
  lemma Bytes(x: bv32)
    ensures x as int == LowByte(x) + 0x100 * LowByte(x >> 8) + 0x1_0000 * LowByte(x >> 16) + 0x100_0000 * LowByte(x >> 24)
  {
    Bytes2(x);
    Bytes3(x);
    Bytes4(x);
    TopByte(x);
  }

  lemma Bytes2(x: bv32)
    ensures (x & 0xffff) as int == (x & 0xff) as int + 0x100 * ((x >> 8) & 0xff) as int
  {
  }

  lemma Bytes3(x: bv32)
    ensures (x & 0xff_ffff) as int == (x & 0xffff) as int + 0x1_0000 * ((x >> 16) & 0xff) as int
  {
  }

  lemma Bytes4(x: bv32)
    ensures x as int == (x & 0xff_ffff) as int + 0x100_0000 * (x >> 24) as int
  {
  }

  lemma TopByte(x: bv32)
    ensures (x >> 24) & 0xff == x >> 24
  {
  }

  lemma Nibbles(x: bv32)
    ensures (x & 0xff) as int == (x & 0xf) as int + 0x10 * ((x >> 4) & 0xf) as int
  {
  }

  lemma NibbleVal(x: bv32)
    ensures Val(x, 0xf) == (x & 0xf) as int
  {
  }

  lemma ByteMasks()
    ensures Ones(4) == 0xf && Ones(8) == 0xff
    ensures Drop(0xff, 4) == 0xf
    ensures Drop(0xffff_ffff, 8) == 0xff_ffff && Drop(0xff_ffff, 8) == 0xffff && Drop(0xffff, 8) == 0xff
    ensures (4 as bv32) as int == 4 && (8 as bv32) as int == 8
    ensures Pow2(4) == 0x10 && Pow2(8) == 0x100
  {
  }

  lemma LowByteVal(x: bv32)
    ensures Val(x, 0xff) == LowByte(x)
  {
    hide Val, Size, Ones, Drop, Pow2;
    ByteMasks();
    SplitVal(x, 0xff, 4);
    NibbleVal(x);
    NibbleVal(Drop(x, 4));
    Nibbles(x);
    DropFour(x);
  }

  lemma DropFour(x: bv32)
    ensures Drop(x, 4) == x >> 4
  {
  }

  lemma DropTwice(x: bv32)
    ensures Drop(x, 8) == x >> 8 && Drop(x >> 8, 8) == x >> 16 && Drop(x >> 16, 8) == x >> 24
  {
  }

  lemma WordVal(x: bv32)
    ensures Val(x, FULL) == x as int
  {
    hide Val, Size, Ones, Drop, Pow2, LowByte;
    ByteMasks();
    DropTwice(x);
    SplitVal(x, 0xffff_ffff, 8);
    SplitVal(x >> 8, 0xff_ffff, 8);
    SplitVal(x >> 16, 0xffff, 8);
    LowByteVal(x);
    LowByteVal(x >> 8);
    LowByteVal(x >> 16);
    LowByteVal(x >> 24);
    Bytes(x);
  }

  // ---------------------------------------------------------------- the machine's operators

  // The number that a word stands for.
  function Num(x: bv32): u32 { x as int }

  lemma NumVal(x: bv32)
    ensures Num(x) == Val(x, FULL)
  {
    hide Val;
    WordVal(x);
  }

  lemma FullRun()
    ensures Run(FULL) && Ones(32) == FULL && (32 as bv32) as int == 32
  {
  }

  lemma FullSize()
    ensures Run(FULL) && Size(FULL) == 0x1_0000_0000
  {
    hide Size, Ones, Pow2, Run;
    FullRun();
    SizeOnes(32);
    Pow2Values();
  }

  lemma MachineXor(x: bv32, y: bv32)
    ensures Num(BXor(x, y)) == Xor(Num(x), Num(y))
  {
    hide Num, Val, BXor, Xor;
    NumVal(x);
    NumVal(y);
    NumVal(BXor(x, y));
    XorVal(x, y, FULL);
  }

  lemma MachineAnd(x: bv32, y: bv32)
    ensures Num(BAnd(x, y)) == And(Num(x), Num(y))
  {
    hide Num, Val, BAnd, And;
    NumVal(x);
    NumVal(y);
    NumVal(BAnd(x, y));
    AndVal(x, y, FULL);
  }

  lemma MachineNot(x: bv32)
    ensures Num(BNot(x)) == 0xffff_ffff - Num(x)
  {
    hide Num, Val, Size, Run;
    NumVal(x);
    NumVal(BNot(x));
    FullSize();
    NotVal(x, FULL);
  }

  lemma MachineSum(x: bv32, y: bv32)
    ensures Num(Plus(x, y)) == U32(Num(x) + Num(y) as int)
  {
    hide Num, Val, Size, Run;
    NumVal(x);
    NumVal(y);
    NumVal(Plus(x, y));
    FullSize();
    SumVal(x, y, FULL);
  }

  // The low s bits are the remainder, the rest is the quotient.
  lemma WordSplit(x: bv32, s: bv32)
    requires s <= 32
    ensures Val(x, Ones(s)) == Num(x) % Pow2(s as int)
    ensures Val(Drop(x, s), Drop(FULL, s)) == Shr(Num(x), s as int)
  {
    hide Num, Val, Size, Ones, Drop, Pow2, Run;
    OnesUnder(s);
    NumVal(x);
    SplitVal(x, FULL, s);
    OnesRun(s);
    SizeOnes(s);
    ValBound(x, Ones(s));
    QuotientAndRest(Num(x), Val(x, Ones(s)), Pow2(s as int), Val(Drop(x, s), Drop(FULL, s)));
  }

  lemma QuotientAndRest(v: nat, low: nat, p: nat, high: nat)
    requires v == low + p * high && low < p
    ensures v % p == low && Quotient(v, p) == high
  {
    DivModUnique(high, low, p);
  }

  lemma OnesUnder(s: bv32)
    requires s <= 32
    ensures FULL & Ones(s) == Ones(s)
  {
  }

  lemma DropAll(x: bv32, s: bv32)
    requires s <= 32
    ensures Drop(Drop(x, s), 32 - s) == 0
  {
  }

  lemma DropFull(s: bv32)
    requires s <= 32
    ensures Drop(FULL, s) == Ones(32 - s) && Run(Ones(32 - s))
  {
  }

  lemma MachineShr(x: bv32, s: bv32)
    requires s <= 32
    ensures Num(Drop(x, s)) == Shr(Num(x), s as int)
  {
    hide Num, Val, Size, Ones, Drop, Pow2, Run;
    WordSplit(x, s);
    DropFull(s);
    NumVal(Drop(x, s));
    OnesUnder(32 - s);
    SplitVal(Drop(x, s), FULL, 32 - s);
    DropAll(x, s);
    ZeroVal(Drop(FULL, 32 - s));
  }

  function RotateLeft(x: bv32, s: bv32): bv32
    requires 1 <= s <= 31
  {
    (x << s) | (x >> (32 - s))
  }

  lemma RotateBits(x: bv32, s: bv32)
    requires 1 <= s <= 31
    ensures Agree(RotateLeft(x, s), Drop(x, 32 - s), Ones(s))
    ensures Agree(Drop(RotateLeft(x, s), s), x, Ones(32 - s))
  {
  }

  lemma Complement(s: bv32)
    requires 1 <= s <= 31
    ensures (32 - s) as int == 32 - s as int && 1 <= s as int <= 31
  {
  }

  lemma MachineRotate(x: bv32, s: bv32)
    requires 1 <= s <= 31
    ensures 1 <= s as int <= 31
    ensures Num(RotateLeft(x, s)) == Pow2(s as int) * (Num(x) % Pow2(32 - s as int)) + Shr(Num(x), 32 - s as int)
  {
    hide Num, Val, Size, Ones, Drop, Pow2, Run, Agree, RotateLeft, Shr;
    var r, t := RotateLeft(x, s), 32 - s;
    Complement(s);
    RotateBits(x, s);
    OnesRun(s);
    OnesRun(t);
    DropFull(s);
    DropFull(t);
    AgreeVal(r, Drop(x, t), Ones(s));
    AgreeVal(Drop(r, s), x, Ones(t));
    WordSplit(x, t);
    OnesUnder(s);
    SplitVal(r, FULL, s);
    NumVal(r);
  }
}
