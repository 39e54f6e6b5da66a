/**
The quarter round on machine words, shown to be that on numbers, and double rounds whose words are known.
*/
module ChaChaMachine {
  import opened Words
  import opened MachineWords
  import opened ChaCha20

  // ---------------------------------------------------------------- the quarter round on words

  // x ^= y; x <<<= s
  function Mix(x: bv32, y: bv32, s: bv32): bv32
    requires 1 <= s <= 31
  {
    RotateLeft(BXor(x, y), s)
  }

  datatype Lane = Lane(a: bv32, b: bv32, c: bv32, d: bv32)

  function LaneHalf(q: Lane, s: bv32, t: bv32): Lane
    requires 1 <= s <= 31 && 1 <= t <= 31
  {
    var a := Plus(q.a, q.b);
    var d := Mix(q.d, a, s);
    var c := Plus(q.c, d);
    Lane(a, Mix(q.b, c, t), c, d)
  }

  function LaneRound(q: Lane): Lane { LaneHalf(LaneHalf(q, 16, 12), 8, 7) }

  function Meaning(q: Lane): ChaCha20.Quad
  {
    hide Num;
    ChaCha20.Quad(Num(q.a), Num(q.b), Num(q.c), Num(q.d))
  }

  lemma SumMeans(x: bv32, y: bv32)
    ensures AddWord(Num(x), Num(y)) == Num(Plus(x, y))
  {
    hide Num, Plus;
    MachineSum(x, y);
  }

  lemma XorRotateMeans(x: bv32, y: bv32, s: bv32)
    requires 1 <= s <= 31
    ensures 1 <= s as int <= 31
    ensures Rotl32(XorWord(Num(x), Num(y)), s as int) == Num(Mix(x, y, s))
  {
    hide RotateLeft, Rotl32, Num, BXor;
    MachineXor(x, y);
    MachineRotate(BXor(x, y), s);
    Rotl32Rotates(Num(BXor(x, y)), s as int);
  }

  lemma LaneHalfMeans(q: Lane, s: bv32, t: bv32)
    requires 1 <= s <= 31 && 1 <= t <= 31
    ensures 1 <= s as int <= 31 && 1 <= t as int <= 31
    ensures ChaCha20.Half(Meaning(q), s as int, t as int) == Meaning(LaneHalf(q, s, t))
  {
    hide Plus, Mix, Rotl32, XorWord, AddWord, Num;
    var a := Plus(q.a, q.b);
    SumMeans(q.a, q.b);
    XorRotateMeans(q.d, a, s);
    var d := Mix(q.d, a, s);
    SumMeans(q.c, d);
    XorRotateMeans(q.b, Plus(q.c, d), t);
  }

  // The quarter round on numbers is that on words.
  lemma LaneRoundMeans(q: Lane)
    ensures QuarterRound(Meaning(q)) == Meaning(LaneRound(q))
  {
    hide LaneHalf, ChaCha20.Half, Meaning;
    LaneHalfMeans(q, 16, 12);
    LaneHalfMeans(LaneHalf(q, 16, 12), 8, 7);
  }

  // ---------------------------------------------------------------- double rounds whose words are known

  predicate QuarterIs(a: bv32, b: bv32, c: bv32, d: bv32, a': bv32, b': bv32, c': bv32, d': bv32)
  {
    LaneRound(Lane(a, b, c, d)) == Lane(a', b', c', d')
  }

  lemma QuarterMeans(a: bv32, b: bv32, c: bv32, d: bv32, a': bv32, b': bv32, c': bv32, d': bv32)
    requires QuarterIs(a, b, c, d, a', b', c', d')
    ensures QuarterRound(ChaCha20.Quad(Num(a), Num(b), Num(c), Num(d))) == ChaCha20.Quad(Num(a'), Num(b'), Num(c'), Num(d'))
  {
    hide LaneRound, QuarterRound, Num;
    LaneRoundMeans(Lane(a, b, c, d));
  }

  function Entries(a0: bv32, a1: bv32, a2: bv32, a3: bv32, a4: bv32, a5: bv32, a6: bv32, a7: bv32,
      a8: bv32, a9: bv32, a10: bv32, a11: bv32, a12: bv32, a13: bv32, a14: bv32, a15: bv32): Matrix
  {
    hide Num;
    [Num(a0), Num(a1), Num(a2), Num(a3), Num(a4), Num(a5), Num(a6), Num(a7),
     Num(a8), Num(a9), Num(a10), Num(a11), Num(a12), Num(a13), Num(a14), Num(a15)]
  }

  lemma ColumnsAre(a0: bv32, a1: bv32, a2: bv32, a3: bv32, a4: bv32, a5: bv32, a6: bv32, a7: bv32,
      a8: bv32, a9: bv32, a10: bv32, a11: bv32, a12: bv32, a13: bv32, a14: bv32, a15: bv32,
      b0: bv32, b1: bv32, b2: bv32, b3: bv32, b4: bv32, b5: bv32, b6: bv32, b7: bv32,
      b8: bv32, b9: bv32, b10: bv32, b11: bv32, b12: bv32, b13: bv32, b14: bv32, b15: bv32)
    requires QuarterIs(a0, a4, a8, a12, b0, b4, b8, b12) && QuarterIs(a1, a5, a9, a13, b1, b5, b9, b13)
    requires QuarterIs(a2, a6, a10, a14, b2, b6, b10, b14) && QuarterIs(a3, a7, a11, a15, b3, b7, b11, b15)
    ensures Columns(Entries(a0, a1, a2, a3, a4, a5, a6, a7, a8, a9, a10, a11, a12, a13, a14, a15))
            == Entries(b0, b1, b2, b3, b4, b5, b6, b7, b8, b9, b10, b11, b12, b13, b14, b15)
  {
    hide QuarterRound, QuarterIs, Num, Columns;
    QuarterMeans(a0, a4, a8, a12, b0, b4, b8, b12);
    QuarterMeans(a1, a5, a9, a13, b1, b5, b9, b13);
    QuarterMeans(a2, a6, a10, a14, b2, b6, b10, b14);
    QuarterMeans(a3, a7, a11, a15, b3, b7, b11, b15);
    ColumnsOf(Entries(a0, a1, a2, a3, a4, a5, a6, a7, a8, a9, a10, a11, a12, a13, a14, a15));
  }

  lemma DiagonalsAre(b0: bv32, b1: bv32, b2: bv32, b3: bv32, b4: bv32, b5: bv32, b6: bv32, b7: bv32,
      b8: bv32, b9: bv32, b10: bv32, b11: bv32, b12: bv32, b13: bv32, b14: bv32, b15: bv32,
      c0: bv32, c1: bv32, c2: bv32, c3: bv32, c4: bv32, c5: bv32, c6: bv32, c7: bv32,
      c8: bv32, c9: bv32, c10: bv32, c11: bv32, c12: bv32, c13: bv32, c14: bv32, c15: bv32)
    requires QuarterIs(b0, b5, b10, b15, c0, c5, c10, c15) && QuarterIs(b1, b6, b11, b12, c1, c6, c11, c12)
    requires QuarterIs(b2, b7, b8, b13, c2, c7, c8, c13) && QuarterIs(b3, b4, b9, b14, c3, c4, c9, c14)
    ensures Turn(Columns(Turn(Entries(b0, b1, b2, b3, b4, b5, b6, b7, b8, b9, b10, b11, b12, b13, b14, b15), 1)), 3)
            == Entries(c0, c1, c2, c3, c4, c5, c6, c7, c8, c9, c10, c11, c12, c13, c14, c15)
  {
    hide QuarterIs, Num, Columns, Turn;
    var turned := Entries(b0, b1, b2, b3, b5, b6, b7, b4, b10, b11, b8, b9, b15, b12, b13, b14);
    var after := Entries(c0, c1, c2, c3, c5, c6, c7, c4, c10, c11, c8, c9, c15, c12, c13, c14);
    TurnOnce(Entries(b0, b1, b2, b3, b4, b5, b6, b7, b8, b9, b10, b11, b12, b13, b14, b15));
    ColumnsAre(b0, b1, b2, b3, b5, b6, b7, b4, b10, b11, b8, b9, b15, b12, b13, b14,
               c0, c1, c2, c3, c5, c6, c7, c4, c10, c11, c8, c9, c15, c12, c13, c14);
    TurnThrice(after);
    assert Turn(Entries(b0, b1, b2, b3, b4, b5, b6, b7, b8, b9, b10, b11, b12, b13, b14, b15), 1) == turned;
    assert Turn(after, 3) == Entries(c0, c1, c2, c3, c4, c5, c6, c7, c8, c9, c10, c11, c12, c13, c14, c15);
  }

  // A double round, by its quarter rounds.
  lemma DoubleIs(a0: bv32, a1: bv32, a2: bv32, a3: bv32, a4: bv32, a5: bv32, a6: bv32, a7: bv32,
      a8: bv32, a9: bv32, a10: bv32, a11: bv32, a12: bv32, a13: bv32, a14: bv32, a15: bv32,
      b0: bv32, b1: bv32, b2: bv32, b3: bv32, b4: bv32, b5: bv32, b6: bv32, b7: bv32,
      b8: bv32, b9: bv32, b10: bv32, b11: bv32, b12: bv32, b13: bv32, b14: bv32, b15: bv32,
      c0: bv32, c1: bv32, c2: bv32, c3: bv32, c4: bv32, c5: bv32, c6: bv32, c7: bv32,
      c8: bv32, c9: bv32, c10: bv32, c11: bv32, c12: bv32, c13: bv32, c14: bv32, c15: bv32)
    requires QuarterIs(a0, a4, a8, a12, b0, b4, b8, b12) && QuarterIs(a1, a5, a9, a13, b1, b5, b9, b13)
    requires QuarterIs(a2, a6, a10, a14, b2, b6, b10, b14) && QuarterIs(a3, a7, a11, a15, b3, b7, b11, b15)
    requires QuarterIs(b0, b5, b10, b15, c0, c5, c10, c15) && QuarterIs(b1, b6, b11, b12, c1, c6, c11, c12)
    requires QuarterIs(b2, b7, b8, b13, c2, c7, c8, c13) && QuarterIs(b3, b4, b9, b14, c3, c4, c9, c14)
    ensures DoubleRound(Entries(a0, a1, a2, a3, a4, a5, a6, a7, a8, a9, a10, a11, a12, a13, a14, a15))
            == Entries(c0, c1, c2, c3, c4, c5, c6, c7, c8, c9, c10, c11, c12, c13, c14, c15)
  {
    hide QuarterIs, Columns, Turn, DoubleRound, Entries;
    ColumnsAre(a0, a1, a2, a3, a4, a5, a6, a7, a8, a9, a10, a11, a12, a13, a14, a15,
               b0, b1, b2, b3, b4, b5, b6, b7, b8, b9, b10, b11, b12, b13, b14, b15);
    DiagonalsAre(b0, b1, b2, b3, b4, b5, b6, b7, b8, b9, b10, b11, b12, b13, b14, b15,
                 c0, c1, c2, c3, c4, c5, c6, c7, c8, c9, c10, c11, c12, c13, c14, c15);
    DoubleRoundTurns(Entries(a0, a1, a2, a3, a4, a5, a6, a7, a8, a9, a10, a11, a12, a13, a14, a15));
  }

  // Two double rounds, by their quarter rounds.
  lemma TwoDoubles(s: Matrix, n: nat,
      a0: bv32, a1: bv32, a2: bv32, a3: bv32, a4: bv32, a5: bv32, a6: bv32, a7: bv32,
      a8: bv32, a9: bv32, a10: bv32, a11: bv32, a12: bv32, a13: bv32, a14: bv32, a15: bv32,
      b0: bv32, b1: bv32, b2: bv32, b3: bv32, b4: bv32, b5: bv32, b6: bv32, b7: bv32,
      b8: bv32, b9: bv32, b10: bv32, b11: bv32, b12: bv32, b13: bv32, b14: bv32, b15: bv32,
      c0: bv32, c1: bv32, c2: bv32, c3: bv32, c4: bv32, c5: bv32, c6: bv32, c7: bv32,
      c8: bv32, c9: bv32, c10: bv32, c11: bv32, c12: bv32, c13: bv32, c14: bv32, c15: bv32,
      d0: bv32, d1: bv32, d2: bv32, d3: bv32, d4: bv32, d5: bv32, d6: bv32, d7: bv32,
      d8: bv32, d9: bv32, d10: bv32, d11: bv32, d12: bv32, d13: bv32, d14: bv32, d15: bv32,
      e0: bv32, e1: bv32, e2: bv32, e3: bv32, e4: bv32, e5: bv32, e6: bv32, e7: bv32,
      e8: bv32, e9: bv32, e10: bv32, e11: bv32, e12: bv32, e13: bv32, e14: bv32, e15: bv32)
    requires Rounds(s, n) == Entries(a0, a1, a2, a3, a4, a5, a6, a7, a8, a9, a10, a11, a12, a13, a14, a15)
    requires QuarterIs(a0, a4, a8, a12, b0, b4, b8, b12) && QuarterIs(a1, a5, a9, a13, b1, b5, b9, b13)
    requires QuarterIs(a2, a6, a10, a14, b2, b6, b10, b14) && QuarterIs(a3, a7, a11, a15, b3, b7, b11, b15)
    requires QuarterIs(b0, b5, b10, b15, c0, c5, c10, c15) && QuarterIs(b1, b6, b11, b12, c1, c6, c11, c12)
    requires QuarterIs(b2, b7, b8, b13, c2, c7, c8, c13) && QuarterIs(b3, b4, b9, b14, c3, c4, c9, c14)
    requires QuarterIs(c0, c4, c8, c12, d0, d4, d8, d12) && QuarterIs(c1, c5, c9, c13, d1, d5, d9, d13)
    requires QuarterIs(c2, c6, c10, c14, d2, d6, d10, d14) && QuarterIs(c3, c7, c11, c15, d3, d7, d11, d15)
    requires QuarterIs(d0, d5, d10, d15, e0, e5, e10, e15) && QuarterIs(d1, d6, d11, d12, e1, e6, e11, e12)
    requires QuarterIs(d2, d7, d8, d13, e2, e7, e8, e13) && QuarterIs(d3, d4, d9, d14, e3, e4, e9, e14)
    ensures Rounds(s, n + 2) == Entries(e0, e1, e2, e3, e4, e5, e6, e7, e8, e9, e10, e11, e12, e13, e14, e15)
  {
    hide QuarterIs, Entries, DoubleRound;
    DoubleIs(a0, a1, a2, a3, a4, a5, a6, a7, a8, a9, a10, a11, a12, a13, a14, a15,
             b0, b1, b2, b3, b4, b5, b6, b7, b8, b9, b10, b11, b12, b13, b14, b15,
             c0, c1, c2, c3, c4, c5, c6, c7, c8, c9, c10, c11, c12, c13, c14, c15);
    DoubleIs(c0, c1, c2, c3, c4, c5, c6, c7, c8, c9, c10, c11, c12, c13, c14, c15,
             d0, d1, d2, d3, d4, d5, d6, d7, d8, d9, d10, d11, d12, d13, d14, d15,
             e0, e1, e2, e3, e4, e5, e6, e7, e8, e9, e10, e11, e12, e13, e14, e15);
  }

  lemma AddList(s: Matrix, t: Matrix)
    ensures AddMatrix(s, t)
            == [AddWord(s[0], t[0]), AddWord(s[1], t[1]), AddWord(s[2], t[2]), AddWord(s[3], t[3]),
                AddWord(s[4], t[4]), AddWord(s[5], t[5]), AddWord(s[6], t[6]), AddWord(s[7], t[7]),
                AddWord(s[8], t[8]), AddWord(s[9], t[9]), AddWord(s[10], t[10]), AddWord(s[11], t[11]),
                AddWord(s[12], t[12]), AddWord(s[13], t[13]), AddWord(s[14], t[14]), AddWord(s[15], t[15])]
  {
    hide AddWord;
  }

  lemma SumsAre(a0: bv32, a1: bv32, a2: bv32, a3: bv32, a4: bv32, a5: bv32, a6: bv32, a7: bv32,
      a8: bv32, a9: bv32, a10: bv32, a11: bv32, a12: bv32, a13: bv32, a14: bv32, a15: bv32,
      b0: bv32, b1: bv32, b2: bv32, b3: bv32, b4: bv32, b5: bv32, b6: bv32, b7: bv32,
      b8: bv32, b9: bv32, b10: bv32, b11: bv32, b12: bv32, b13: bv32, b14: bv32, b15: bv32,
      c0: bv32, c1: bv32, c2: bv32, c3: bv32, c4: bv32, c5: bv32, c6: bv32, c7: bv32,
      c8: bv32, c9: bv32, c10: bv32, c11: bv32, c12: bv32, c13: bv32, c14: bv32, c15: bv32)
    requires c0 == Plus(a0, b0) && c1 == Plus(a1, b1) && c2 == Plus(a2, b2) && c3 == Plus(a3, b3)
    requires c4 == Plus(a4, b4) && c5 == Plus(a5, b5) && c6 == Plus(a6, b6) && c7 == Plus(a7, b7)
    requires c8 == Plus(a8, b8) && c9 == Plus(a9, b9) && c10 == Plus(a10, b10) && c11 == Plus(a11, b11)
    requires c12 == Plus(a12, b12) && c13 == Plus(a13, b13) && c14 == Plus(a14, b14) && c15 == Plus(a15, b15)
    ensures AddMatrix(Entries(a0, a1, a2, a3, a4, a5, a6, a7, a8, a9, a10, a11, a12, a13, a14, a15),
                      Entries(b0, b1, b2, b3, b4, b5, b6, b7, b8, b9, b10, b11, b12, b13, b14, b15))
            == Entries(c0, c1, c2, c3, c4, c5, c6, c7, c8, c9, c10, c11, c12, c13, c14, c15)
  {
    hide Num, AddWord, Plus, AddMatrix;
    AddList(Entries(a0, a1, a2, a3, a4, a5, a6, a7, a8, a9, a10, a11, a12, a13, a14, a15),
            Entries(b0, b1, b2, b3, b4, b5, b6, b7, b8, b9, b10, b11, b12, b13, b14, b15));
    SumMeans(a0, b0); SumMeans(a1, b1); SumMeans(a2, b2); SumMeans(a3, b3);
    SumMeans(a4, b4); SumMeans(a5, b5); SumMeans(a6, b6); SumMeans(a7, b7);
    SumMeans(a8, b8); SumMeans(a9, b9); SumMeans(a10, b10); SumMeans(a11, b11);
    SumMeans(a12, b12); SumMeans(a13, b13); SumMeans(a14, b14); SumMeans(a15, b15);
  }
}
