/**
The functions and rounds of SHA-256 on machine words, shown to be those on numbers, and eight rounds at a time
whose words are known.
*/
module ShaMachine {
  import opened Bits
  import opened Words
  import opened MachineWords
  import opened Sha256

  // ---------------------------------------------------------------- the functions of section 4.1.2, on words

  function Rotate3(x: bv32, p: bv32, q: bv32, r: bv32): bv32
    requires 1 <= p <= 31 && 1 <= q <= 31 && 1 <= r <= 31
  {
    BXor(BXor(RotateRight(x, p), RotateRight(x, q)), RotateRight(x, r))
  }

  function Rotate2(x: bv32, p: bv32, q: bv32, r: bv32): bv32
    requires 1 <= p <= 31 && 1 <= q <= 31 && r <= 32
  {
    BXor(BXor(RotateRight(x, p), RotateRight(x, q)), Drop(x, r))
  }

  function RotateRight(x: bv32, s: bv32): bv32
    requires 1 <= s <= 31
  {
    RotateLeft(x, 32 - s)
  }

  function Choose(e: bv32, f: bv32, g: bv32): bv32 { BXor(BAnd(e, f), BAnd(BNot(e), g)) }

  function Majority(a: bv32, b: bv32, c: bv32): bv32 { BXor(BXor(BAnd(a, b), BAnd(a, c)), BAnd(b, c)) }

  lemma RotateMeans(x: bv32, s: bv32)
    requires 1 <= s <= 31
    ensures 1 <= s as int <= 31 && Rotr(Num(x), s as int) == Num(RotateRight(x, s))
  {
    hide Num, Rotr, RotateLeft;
    Complement(s);
    Complement(32 - s);
    MachineRotate(x, 32 - s);
    RotrRotates(Num(x), s as int);
  }

  lemma Xor3Means(x: bv32, y: bv32, z: bv32)
    ensures Xor3(Num(x), Num(y), Num(z)) == Num(BXor(BXor(x, y), z))
  {
    hide Num, Xor, BXor;
    MachineXor(x, y);
    MachineXor(BXor(x, y), z);
    U32Small(Num(BXor(BXor(x, y), z)));
  }

  lemma ChMeans(e: bv32, f: bv32, g: bv32)
    ensures Ch(Num(e), Num(f), Num(g)) == Num(Choose(e, f, g))
  {
    hide Num, Xor, And, BXor, BAnd, BNot;
    MachineNot(e);
    MachineAnd(e, f);
    MachineAnd(BNot(e), g);
    MachineXor(BAnd(e, f), BAnd(BNot(e), g));
    U32Small(Num(Choose(e, f, g)));
  }

  lemma MajMeans(a: bv32, b: bv32, c: bv32)
    ensures Maj(Num(a), Num(b), Num(c)) == Num(Majority(a, b, c))
  {
    hide Num, Xor, And, Xor3, BXor, BAnd;
    MachineAnd(a, b);
    MachineAnd(a, c);
    MachineAnd(b, c);
    Xor3Means(BAnd(a, b), BAnd(a, c), BAnd(b, c));
  }

  lemma BigSigmaMeans(x: bv32)
    ensures BigSigma0(Num(x)) == Num(Rotate3(x, 2, 13, 22)) && BigSigma1(Num(x)) == Num(Rotate3(x, 6, 11, 25))
  {
    hide Num, Rotr, RotateRight, Xor3, BXor;
    RotateMeans(x, 2);
    RotateMeans(x, 13);
    RotateMeans(x, 22);
    RotateMeans(x, 6);
    RotateMeans(x, 11);
    RotateMeans(x, 25);
    Xor3Means(RotateRight(x, 2), RotateRight(x, 13), RotateRight(x, 22));
    Xor3Means(RotateRight(x, 6), RotateRight(x, 11), RotateRight(x, 25));
  }

  lemma SmallSigmaMeans(x: bv32)
    ensures SmallSigma0(Num(x)) == Num(Rotate2(x, 7, 18, 3)) && SmallSigma1(Num(x)) == Num(Rotate2(x, 17, 19, 10))
  {
    hide Num, Rotr, RotateRight, Xor3, BXor, Drop;
    RotateMeans(x, 7);
    RotateMeans(x, 18);
    RotateMeans(x, 17);
    RotateMeans(x, 19);
    ShiftMeans(x);
    Xor3Means(RotateRight(x, 7), RotateRight(x, 18), Drop(x, 3));
    Xor3Means(RotateRight(x, 17), RotateRight(x, 19), Drop(x, 10));
  }

  lemma ShiftMeans(x: bv32)
    ensures Num(Drop(x, 3)) == Num(x) / 0x8 && Num(Drop(x, 10)) == Num(x) / 0x400
  {
    hide Num, Drop;
    MachineShr(x, 3);
    MachineShr(x, 10);
    assert Pow2(3) == 8 && Pow2(10) == 0x400;
  }

  function Plus4(w: bv32, x: bv32, y: bv32, z: bv32): bv32 { Plus(w, Plus(x, Plus(y, z))) }

  lemma PlusMeans(x: bv32, y: bv32)
    ensures U32(Num(x) + Num(y) as int) == Num(Plus(x, y))
  {
    hide Num, Plus;
    MachineSum(x, y);
  }

  lemma Wraps(a: nat, b: nat)
    ensures U32(a + U32(b)) == U32(a + b)
  {
  }

  lemma Sum4Means(w: bv32, x: bv32, y: bv32, z: bv32)
    ensures Sum4(Num(w), Num(x), Num(y), Num(z)) == Num(Plus4(w, x, y, z))
  {
    hide Num, Plus, U32;
    MachineSum(y, z);
    MachineSum(x, Plus(y, z));
    MachineSum(w, Plus(x, Plus(y, z)));
    Wraps(Num(x), Num(y) + Num(z) as int);
    Wraps(Num(w), Num(x) + (Num(y) + Num(z) as int));
  }

  // ---------------------------------------------------------------- a round on words

  datatype Working = Working(a: bv32, b: bv32, c: bv32, d: bv32, e: bv32, f: bv32, g: bv32, h: bv32)

  function Meaning(v: Working): Vars
  {
    hide Num;
    Vars(Num(v.a), Num(v.b), Num(v.c), Num(v.d), Num(v.e), Num(v.f), Num(v.g), Num(v.h))
  }

  function Temp1(e: bv32, f: bv32, g: bv32, h: bv32, k: bv32, w: bv32): bv32
  {
    Plus(h, Plus4(Rotate3(e, 6, 11, 25), Choose(e, f, g), k, w))
  }

  function Temp2(a: bv32, b: bv32, c: bv32): bv32
  {
    Plus(Rotate3(a, 2, 13, 22), Majority(a, b, c))
  }

  lemma RoundMeans(v: Working, k: bv32, w: bv32)
    ensures var t1 := Temp1(v.e, v.f, v.g, v.h, k, w);
      Round(Meaning(v), Num(k), Num(w))
      == Meaning(Working(Plus(t1, Temp2(v.a, v.b, v.c)), v.a, v.b, v.c, Plus(v.d, t1), v.e, v.f, v.g))
  {
    hide Num, BigSigma0, BigSigma1, Ch, Maj, Rotate3, Choose, Majority, Sum4, Plus4, Plus, U32;
    var s1, ch := Rotate3(v.e, 6, 11, 25), Choose(v.e, v.f, v.g);
    var s0, mj := Rotate3(v.a, 2, 13, 22), Majority(v.a, v.b, v.c);
    BigSigmaMeans(v.e);
    BigSigmaMeans(v.a);
    ChMeans(v.e, v.f, v.g);
    MajMeans(v.a, v.b, v.c);
    var sum := Plus4(s1, ch, k, w);
    Sum4Means(s1, ch, k, w);
    PlusMeans(v.h, sum);
    PlusMeans(s0, mj);
    PlusMeans(Plus(v.h, sum), Plus(s0, mj));
    PlusMeans(v.d, Plus(v.h, sum));
  }

  // ---------------------------------------------------------------- eight rounds, eight words

  // Before round t of the compression of a block, the working variables are these words.
  ghost predicate Stands(start: Vars, block: seq<byte>, t: nat, v: Working)
  {
    |block| == 64 && t <= 64 && Rounds(block, start, t) == Meaning(v)
  }

  ghost predicate Scheduled(block: seq<byte>, t: nat, w: bv32)
  {
    |block| == 64 && Schedule(block, t) == Num(w)
  }

  ghost predicate Octet(block: seq<byte>, t: nat, w0: bv32, w1: bv32, w2: bv32, w3: bv32, w4: bv32, w5: bv32, w6: bv32, w7: bv32)
  {
    && Scheduled(block, t, w0) && Scheduled(block, t + 1, w1) && Scheduled(block, t + 2, w2) && Scheduled(block, t + 3, w3)
    && Scheduled(block, t + 4, w4) && Scheduled(block, t + 5, w5) && Scheduled(block, t + 6, w6) && Scheduled(block, t + 7, w7)
  }

  // The two words that a round brings in.
  predicate RoundIs(a: bv32, b: bv32, c: bv32, d: bv32, e: bv32, f: bv32, g: bv32, h: bv32, k: bv32, w: bv32, a1: bv32, e1: bv32)
  {
    a1 == Plus(Temp1(e, f, g, h, k, w), Temp2(a, b, c)) && e1 == Plus(d, Temp1(e, f, g, h, k, w))
  }

  lemma Advance(start: Vars, block: seq<byte>, t: nat, v: Working, k: bv32, w: bv32, a1: bv32, e1: bv32)
    requires Stands(start, block, t, v) && t < 64 && k == KWord(t) && Scheduled(block, t, w)
    requires RoundIs(v.a, v.b, v.c, v.d, v.e, v.f, v.g, v.h, k, w, a1, e1)
    ensures Stands(start, block, t + 1, Working(a1, v.a, v.b, v.c, e1, v.e, v.f, v.g))
  {
    hide Num, Plus, Temp1, Temp2, Schedule, Round, KWord;
    RoundMeans(v, k, w);
  }

  lemma EightRounds(start: Vars, block: seq<byte>, t: nat,
      a: bv32, b: bv32, c: bv32, d: bv32, e: bv32, f: bv32, g: bv32, h: bv32,
      k0: bv32, k1: bv32, k2: bv32, k3: bv32, k4: bv32, k5: bv32, k6: bv32, k7: bv32,
      w0: bv32, w1: bv32, w2: bv32, w3: bv32, w4: bv32, w5: bv32, w6: bv32, w7: bv32,
      a0: bv32, a1: bv32, a2: bv32, a3: bv32, a4: bv32, a5: bv32, a6: bv32, a7: bv32,
      e0: bv32, e1: bv32, e2: bv32, e3: bv32, e4: bv32, e5: bv32, e6: bv32, e7: bv32)
    requires Stands(start, block, t, Working(a, b, c, d, e, f, g, h)) && t <= 56
    requires Octet(block, t, w0, w1, w2, w3, w4, w5, w6, w7)
    requires k0 == KWord(t) && k1 == KWord(t + 1) && k2 == KWord(t + 2) && k3 == KWord(t + 3)
    requires k4 == KWord(t + 4) && k5 == KWord(t + 5) && k6 == KWord(t + 6) && k7 == KWord(t + 7)
    requires
      && RoundIs(a, b, c, d, e, f, g, h, k0, w0, a0, e0)
      && RoundIs(a0, a, b, c, e0, e, f, g, k1, w1, a1, e1)
      && RoundIs(a1, a0, a, b, e1, e0, e, f, k2, w2, a2, e2)
      && RoundIs(a2, a1, a0, a, e2, e1, e0, e, k3, w3, a3, e3)
      && RoundIs(a3, a2, a1, a0, e3, e2, e1, e0, k4, w4, a4, e4)
      && RoundIs(a4, a3, a2, a1, e4, e3, e2, e1, k5, w5, a5, e5)
      && RoundIs(a5, a4, a3, a2, e5, e4, e3, e2, k6, w6, a6, e6)
      && RoundIs(a6, a5, a4, a3, e6, e5, e4, e3, k7, w7, a7, e7)
    ensures Stands(start, block, t + 8, Working(a7, a6, a5, a4, e7, e6, e5, e4))
  {
    hide Stands, Scheduled, RoundIs, KWord;
    Advance(start, block, t, Working(a, b, c, d, e, f, g, h), k0, w0, a0, e0);
    Advance(start, block, t + 1, Working(a0, a, b, c, e0, e, f, g), k1, w1, a1, e1);
    Advance(start, block, t + 2, Working(a1, a0, a, b, e1, e0, e, f), k2, w2, a2, e2);
    Advance(start, block, t + 3, Working(a2, a1, a0, a, e2, e1, e0, e), k3, w3, a3, e3);
    Advance(start, block, t + 4, Working(a3, a2, a1, a0, e3, e2, e1, e0), k4, w4, a4, e4);
    Advance(start, block, t + 5, Working(a4, a3, a2, a1, e4, e3, e2, e1), k5, w5, a5, e5);
    Advance(start, block, t + 6, Working(a5, a4, a3, a2, e5, e4, e3, e2), k6, w6, a6, e6);
    Advance(start, block, t + 7, Working(a6, a5, a4, a3, e6, e5, e4, e3), k7, w7, a7, e7);
  }

  function NextWord(w0: bv32, w1: bv32, w9: bv32, w14: bv32): bv32
  {
    Plus4(w0, Rotate2(w1, 7, 18, 3), w9, Rotate2(w14, 17, 19, 10))
  }

  lemma NextMeans(block: seq<byte>, t: nat, w0: bv32, w1: bv32, w9: bv32, w14: bv32)
    requires Scheduled(block, t, w0) && Scheduled(block, t + 1, w1) && Scheduled(block, t + 9, w9) && Scheduled(block, t + 14, w14)
    ensures Scheduled(block, t + 16, NextWord(w0, w1, w9, w14))
  {
    hide Num, Sum4, Plus4, SmallSigma0, SmallSigma1, Rotate2;
    SmallSigmaMeans(w1);
    SmallSigmaMeans(w14);
    Sum4Means(w0, Rotate2(w1, 7, 18, 3), w9, Rotate2(w14, 17, 19, 10));
  }

  lemma EightWords(block: seq<byte>, t: nat,
      w0: bv32, w1: bv32, w2: bv32, w3: bv32, w4: bv32, w5: bv32, w6: bv32, w7: bv32,
      w8: bv32, w9: bv32, w10: bv32, w11: bv32, w12: bv32, w13: bv32, w14: bv32, w15: bv32,
      x0: bv32, x1: bv32, x2: bv32, x3: bv32, x4: bv32, x5: bv32, x6: bv32, x7: bv32)
    requires Octet(block, t, w0, w1, w2, w3, w4, w5, w6, w7) && Octet(block, t + 8, w8, w9, w10, w11, w12, w13, w14, w15)
    requires x0 == NextWord(w0, w1, w9, w14)
    requires x1 == NextWord(w1, w2, w10, w15)
    requires x2 == NextWord(w2, w3, w11, x0)
    requires x3 == NextWord(w3, w4, w12, x1)
    requires x4 == NextWord(w4, w5, w13, x2)
    requires x5 == NextWord(w5, w6, w14, x3)
    requires x6 == NextWord(w6, w7, w15, x4)
    requires x7 == NextWord(w7, w8, x0, x5)
    ensures Octet(block, t + 16, x0, x1, x2, x3, x4, x5, x6, x7)
  {
    hide Scheduled, NextWord;
    NextMeans(block, t, w0, w1, w9, w14);
    NextMeans(block, t + 1, w1, w2, w10, w15);
    NextMeans(block, t + 2, w2, w3, w11, x0);
    NextMeans(block, t + 3, w3, w4, w12, x1);
    NextMeans(block, t + 4, w4, w5, w13, x2);
    NextMeans(block, t + 5, w5, w6, w14, x3);
    NextMeans(block, t + 6, w6, w7, w15, x4);
    NextMeans(block, t + 7, w7, w8, x0, x5);
  }
}
