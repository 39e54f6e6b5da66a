/**
A byte of the checksum loop on machine words, shown to be that on numbers.
*/
module CrcMachine {
  import opened Bits
  import opened Words
  import opened MachineWords
  import opened TopicHash

  // ---------------------------------------------------------------- a byte of the checksum, on words

  function Shift(x: bv32): bv32 { if x & 1 == 1 then (x >> 1) ^ 0xedb8_8320 else x >> 1 }

  lemma ShiftMeans(x: bv32)
    ensures Step(Num(x)) == Num(Shift(x))
  {
    hide Num, Xor, BXor, Drop, Step;
    StepMeaning(Num(x));
    HalfMeans(x);
    MachineXor(Drop(x, 1), 0xedb8_8320);
    XorZero(Num(Drop(x, 1)));
    ShiftIs(x);
    PolynomialNumber();
  }

  lemma PolynomialNumber()
    ensures Num(0xedb8_8320) == REFLECTED
  {
  }

  lemma ShiftIs(x: bv32)
    ensures Shift(x) == if Odd(x) then BXor(Drop(x, 1), 0xedb8_8320) else Drop(x, 1)
  {
  }

  lemma HalfMeans(x: bv32)
    ensures Num(Drop(x, 1)) == Num(x) / 2 && (Num(x) % 2 == 1 <==> Odd(x))
  {
    hide Num, Drop;
    MachineShr(x, 1);
    OnePower();
    LowBit(x);
  }

  lemma OnePower()
    ensures Pow2(1) == 2 && (1 as bv32) as int == 1
  {
  }

  lemma LowBit(x: bv32)
    ensures Num(x) % 2 == Bit(x)
  {
    hide Num, Val, Half, Odd;
    NumVal(x);
    ValStep(x, FULL);
  }

  // A byte of the loop, by its eight steps.
  lemma ByteMeans(crc: bv32, c: bv32, x0: bv32, x1: bv32, x2: bv32, x3: bv32, x4: bv32, x5: bv32, x6: bv32, x7: bv32, x8: bv32)
    requires x0 == BXor(crc, c)
    requires x1 == Shift(x0) && x2 == Shift(x1) && x3 == Shift(x2) && x4 == Shift(x3)
    requires x5 == Shift(x4) && x6 == Shift(x5) && x7 == Shift(x6) && x8 == Shift(x7)
    ensures Steps(Xor(Num(crc), Num(c)), 8) == Num(x8)
  {
    hide Num, Shift, Step, Xor, BXor;
    MachineXor(crc, c);
    ShiftMeans(x0);
    ShiftMeans(x1);
    ShiftMeans(x2);
    ShiftMeans(x3);
    ShiftMeans(x4);
    ShiftMeans(x5);
    ShiftMeans(x6);
    ShiftMeans(x7);
    StepsOf(Num(x0));
  }

  lemma StepsOf(x: nat)
    ensures Steps(x, 8) == Step(Step(Step(Step(Step(Step(Step(Step(x))))))))
  {
    hide Step;
  }
}
