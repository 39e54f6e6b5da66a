/**
The limb arithmetic of the vendored Poly1305: five 26-bit limbs, 64-bit products and delayed
carries, with the truncation of every uint32_t and uint64_t operation written out.

The facts proved here: no operation of the block step or of the final reduction wraps, the block
step is (h + block) * r modulo 2^130 - 5, and the masked selection at the end is a full reduction.
*/
module Poly1305Limbs {
  import opened Bits
  import opened Words

  const P: nat := 0x3_ffff_ffff_ffff_ffff_ffff_ffff_ffff_fffb  // 2^130 - 5
  const TWO128: nat := 0x1_0000_0000_0000_0000_0000_0000_0000_0000

  datatype Limbs = Limbs(l0: nat, l1: nat, l2: nat, l3: nat, l4: nat)

  function Value(x: Limbs): nat
  {
    x.l0 + 0x400_0000 * x.l1 + 0x10_0000_0000_0000 * x.l2 + 0x4000_0000_0000_0000_0000 * x.l3
    + 0x100_0000_0000_0000_0000_0000_0000 * x.l4
  }

  // What the block loop keeps between blocks. Limb 1 may exceed 26 bits, because the carry added to
  // it last is never propagated further.
  predicate Carried(h: Limbs)
  {
    h.l0 < 0x400_0000 && h.l1 < 0x400_0040 && h.l2 < 0x400_0000 && h.l3 < 0x400_0000 && h.l4 < 0x400_0000
  }

  // Bounds of a clamped multiplier.
  predicate Clamped(r: Limbs)
  {
    r.l0 <= 0x3ff_ffff && r.l1 <= 0x3ff_ff03 && r.l2 <= 0x3ff_c0ff && r.l3 <= 0x3f0_3fff && r.l4 <= 0xf_ffff
  }

  predicate IsMessage(m: Limbs)
  {
    m.l0 < 0x400_0000 && m.l1 < 0x400_0000 && m.l2 < 0x400_0000 && m.l3 < 0x400_0000 && m.l4 < 0x200_0000
  }

  // ---------------------------------------------------------------- loading a block

  // hibit is 1 << 24 for a full block and 0 for the final, already padded, partial block.
  function BlockLimbs(b: seq<byte>, hibit: nat): Limbs
    requires |b| == 16
    requires hibit == 0x100_0000 || hibit == 0
  {
    Limbs(Low26(Load32(b, 0)), Low26(Load32(b, 3) / 4), Low26(Load32(b, 6) / 16), Low26(Load32(b, 9) / 64),
          Or(Load32(b, 12) / 256, hibit))
  }

  lemma BlockLimbsValue(b: seq<byte>, hibit: nat)
    requires |b| == 16
    requires hibit == 0x100_0000 || hibit == 0
    ensures IsMessage(BlockLimbs(b, hibit))
    ensures Value(BlockLimbs(b, hibit)) == FromLe(b) + hibit * 0x100_0000_0000_0000_0000_0000_0000
  {
    OrHibit(Load32(b, 12) / 256, hibit);
    FromLeSixteen(b);
    LimbSum(b[0], b[1], b[2], b[3], b[4], b[5], b[6], b[7], b[8], b[9], b[10], b[11], b[12], b[13], b[14], b[15]);
  }

  lemma OrHibit(x: nat, hibit: nat)
    requires x < 0x100_0000
    requires hibit == 0x100_0000 || hibit == 0
    ensures Or(x, hibit) == x + hibit
  {
    Pow2Add(16, 8);
    Pow2Values();
    OrDisjoint(x, hibit / 0x100_0000, 24);
  }

  lemma FromLeWord(b: seq<byte>)
    requires |b| >= 4
    ensures FromLe(b) == Load32(b, 0) + 0x1_0000_0000 * FromLe(b[4..])
  {
    hide FromLe, Load32, Pow2;
    Pow2Values();
    Load32IsFromLe(b, 0);
    assert b == b[0..4] + b[4..];
    FromLeAppend(b[0..4], b[4..]);
  }

  lemma FromLeSixteen(b: seq<byte>)
    requires |b| == 16
    ensures FromLe(b) == Load32(b, 0) + 0x1_0000_0000 * Load32(b, 4) + 0x1_0000_0000_0000_0000 * Load32(b, 8)
                         + 0x1_0000_0000_0000_0000_0000_0000 * Load32(b, 12)
  {
    var b4, b8, b12 := b[4..], b[8..], b[12..];
    FromLeWord(b);
    FromLeWord(b4);
    FromLeWord(b8);
    FromLeWord(b12);
    assert b4[4..] == b8 && b8[4..] == b12 && b12[4..] == [];
  }

  lemma LimbSum(b0: byte, b1: byte, b2: byte, b3: byte, b4: byte, b5: byte, b6: byte, b7: byte, b8: byte, b9: byte,
                b10: byte, b11: byte, b12: byte, b13: byte, b14: byte, b15: byte)
    ensures Value(Limbs(Quad(b0, b1, b2, b3) % 0x400_0000, Quad(b3, b4, b5, b6) / 4 % 0x400_0000,
                        Quad(b6, b7, b8, b9) / 16 % 0x400_0000, Quad(b9, b10, b11, b12) / 64 % 0x400_0000,
                        Quad(b12, b13, b14, b15) / 256))
            == Quad(b0, b1, b2, b3) + 0x1_0000_0000 * Quad(b4, b5, b6, b7)
               + 0x1_0000_0000_0000_0000 * Quad(b8, b9, b10, b11)
               + 0x1_0000_0000_0000_0000_0000_0000 * Quad(b12, b13, b14, b15)
  {
    Limb0(b0, b1, b2, b3);
    Limb1(b3, b4, b5, b6);
    Limb2(b6, b7, b8, b9);
    Limb3(b9, b10, b11, b12);
    assert Quad(b12, b13, b14, b15) / 256 == b13 + 0x100 * b14 + 0x1_0000 * b15;
  }

  lemma DropHigh(x: nat, q: nat)
    requires x < 0x400_0000
    ensures (x + 0x400_0000 * q) % 0x400_0000 == x
  {
  }

  lemma Limb0(b0: byte, b1: byte, b2: byte, b3: byte)
    ensures Quad(b0, b1, b2, b3) % 0x400_0000 == Quad(b0, b1, b2, b3 % 4)
  {
    assert Quad(b0, b1, b2, b3) == Quad(b0, b1, b2, b3 % 4) + 0x400_0000 * (b3 / 4);
    DropHigh(Quad(b0, b1, b2, b3 % 4), b3 / 4);
  }

  lemma Limb1(b3: byte, b4: byte, b5: byte, b6: byte)
    ensures Quad(b3, b4, b5, b6) / 4 % 0x400_0000 == b3 / 4 + 0x40 * b4 + 0x4000 * b5 + 0x40_0000 * (b6 % 16)
  {
    assert Quad(b3, b4, b5, b6) / 4 == b3 / 4 + 0x40 * b4 + 0x4000 * b5 + 0x40_0000 * b6;
    assert b6 == b6 % 16 + 16 * (b6 / 16);
    DropHigh(b3 / 4 + 0x40 * b4 + 0x4000 * b5 + 0x40_0000 * (b6 % 16), b6 / 16);
  }

  lemma Limb2(b6: byte, b7: byte, b8: byte, b9: byte)
    ensures Quad(b6, b7, b8, b9) / 16 % 0x400_0000 == b6 / 16 + 0x10 * b7 + 0x1000 * b8 + 0x10_0000 * (b9 % 64)
  {
    assert Quad(b6, b7, b8, b9) / 16 == b6 / 16 + 0x10 * b7 + 0x1000 * b8 + 0x10_0000 * b9;
    assert b9 == b9 % 64 + 64 * (b9 / 64);
    DropHigh(b6 / 16 + 0x10 * b7 + 0x1000 * b8 + 0x10_0000 * (b9 % 64), b9 / 64);
  }

  lemma Limb3(b9: byte, b10: byte, b11: byte, b12: byte)
    ensures Quad(b9, b10, b11, b12) / 64 % 0x400_0000 == b9 / 64 + 0x4 * b10 + 0x400 * b11 + 0x4_0000 * b12
  {
    assert Quad(b9, b10, b11, b12) / 64 == b9 / 64 + 0x4 * b10 + 0x400 * b11 + 0x4_0000 * b12;
  }

  // ---------------------------------------------------------------- the block step

  // A uint64_t multiply-accumulate.
  function Mac(acc: u64, a: nat, b: nat): u64 { U64(acc + U64(a * b)) }

  function AddBlock(h: Limbs, m: Limbs): Limbs
  {
    Limbs(U32(h.l0 + m.l0), U32(h.l1 + m.l1), U32(h.l2 + m.l2), U32(h.l3 + m.l3), U32(h.l4 + m.l4))
  }

  // One uint64_t sum of five products.
  function Row(h: Limbs, a: Limbs): u64
  {
    Mac(Mac(Mac(Mac(Mac(0, h.l0, a.l0), h.l1, a.l1), h.l2, a.l2), h.l3, a.l3), h.l4, a.l4)
  }

  // d0 .. d4: the product with the limbs of weight 2^130 and above folded down by a factor of five.
  function Products(h: Limbs, r: Limbs): Limbs
  {
    var s1, s2, s3, s4 := U32(r.l1 * 5), U32(r.l2 * 5), U32(r.l3 * 5), U32(r.l4 * 5);
    Limbs(Row(h, Limbs(r.l0, s4, s3, s2, s1)),
          Row(h, Limbs(r.l1, r.l0, s4, s3, s2)),
          Row(h, Limbs(r.l2, r.l1, r.l0, s4, s3)),
          Row(h, Limbs(r.l3, r.l2, r.l1, r.l0, s4)),
          Row(h, Limbs(r.l4, r.l3, r.l2, r.l1, r.l0)))
  }

  function CarryOf(d: u64): u32 { U32(d / TWO26) }

  function KeepOf(d: u64): u32 { Low26(U32(d)) }

  function Propagate(d: Limbs): Limbs
  {
    var d0 := U64(d.l0);
    var d1 := U64(d.l1 + CarryOf(d0));
    var d2 := U64(d.l2 + CarryOf(d1));
    var d3 := U64(d.l3 + CarryOf(d2));
    var d4 := U64(d.l4 + CarryOf(d3));
    FoldedLast(Limbs(KeepOf(d0), KeepOf(d1), KeepOf(d2), KeepOf(d3), KeepOf(d4)), CarryOf(d4))
  }

  // h0 += c * 5; c = h0 >> 26; h0 &= 0x3ffffff; h1 += c
  function FoldedLast(k: Limbs, c: nat): Limbs
  {
    var h0 := U32(k.l0 + U32(c * 5));
    Limbs(Low26(h0), U32(k.l1 + h0 / TWO26), k.l2, k.l3, k.l4)
  }

  // One iteration of the loop in poly1305_blocks.
  function BlockStep(h: Limbs, r: Limbs, m: Limbs): Limbs
  {
    Propagate(Products(AddBlock(h, m), r))
  }

  // The same sums over unbounded integers.
  function Dot(h: Limbs, a: Limbs): nat
  {
    h.l0 * a.l0 + h.l1 * a.l1 + h.l2 * a.l2 + h.l3 * a.l3 + h.l4 * a.l4
  }

  function ExactProducts(h: Limbs, r: Limbs): Limbs
  {
    var s1, s2, s3, s4 := r.l1 * 5, r.l2 * 5, r.l3 * 5, r.l4 * 5;
    Limbs(Dot(h, Limbs(r.l0, s4, s3, s2, s1)),
          Dot(h, Limbs(r.l1, r.l0, s4, s3, s2)),
          Dot(h, Limbs(r.l2, r.l1, r.l0, s4, s3)),
          Dot(h, Limbs(r.l3, r.l2, r.l1, r.l0, s4)),
          Dot(h, Limbs(r.l4, r.l3, r.l2, r.l1, r.l0)))
  }

  predicate Added(h: Limbs)
  {
    h.l0 < 0x800_0000 && h.l1 < 0x800_0040 && h.l2 < 0x800_0000 && h.l3 < 0x800_0000 && h.l4 < 0x600_0000
  }

  // Room for the carry chain: each product shifted right by 26, plus a carry, still fits 32 bits,
  // and five times the last carry does too.
  predicate Headroom(d: Limbs)
  {
    d.l0 < 0x200_0000_0000_0000 && d.l1 < 0x180_0000_0000_0000 && d.l2 < 0x100_0000_0000_0000
    && d.l3 < 0xa0_0000_0000_0000 && d.l4 < 0x80_0000_0000_0000
  }

  lemma MulBound(a: nat, b: nat, x: nat, y: nat)
    requires a <= x && b <= y
    ensures 0 <= a * b <= x * y
  {
  }

  lemma MacExact(acc: u64, a: nat, b: nat)
    requires acc + a * b < TWO64
    ensures Mac(acc, a, b) == acc + a * b
  {
  }

  predicate Below(a: Limbs, x: Limbs)
  {
    a.l0 <= x.l0 && a.l1 <= x.l1 && a.l2 <= x.l2 && a.l3 <= x.l3 && a.l4 <= x.l4
  }

  lemma DotBound(h: Limbs, a: Limbs, x: Limbs)
    requires Added(h) && Below(a, x)
    ensures Dot(h, a) <= 0x800_0000 * x.l0 + 0x800_0040 * x.l1 + 0x800_0000 * x.l2 + 0x800_0000 * x.l3
                         + 0x600_0000 * x.l4
  {
    MulBound(h.l0, a.l0, 0x800_0000, x.l0);
    MulBound(h.l1, a.l1, 0x800_0040, x.l1);
    MulBound(h.l2, a.l2, 0x800_0000, x.l2);
    MulBound(h.l3, a.l3, 0x800_0000, x.l3);
    MulBound(h.l4, a.l4, 0x600_0000, x.l4);
  }

  lemma RowExact(h: Limbs, a: Limbs)
    requires Dot(h, a) < TWO64
    ensures Row(h, a) == Dot(h, a)
  {
    hide Row, Product;
    ProductIs(h.l0, a.l0);
    ProductIs(h.l1, a.l1);
    ProductIs(h.l2, a.l2);
    ProductIs(h.l3, a.l3);
    ProductIs(h.l4, a.l4);
    RowOf(h, a, Product(h.l0, a.l0), Product(h.l1, a.l1), Product(h.l2, a.l2), Product(h.l3, a.l3), Product(h.l4, a.l4));
  }

  lemma ProductIs(x: nat, y: nat)
    ensures Product(x, y) == x * y
  {
  }

  // The row as the sum of its five products.
  lemma RowOf(h: Limbs, a: Limbs, p0: nat, p1: nat, p2: nat, p3: nat, p4: nat)
    requires p0 == Product(h.l0, a.l0) && p1 == Product(h.l1, a.l1) && p2 == Product(h.l2, a.l2)
    requires p3 == Product(h.l3, a.l3) && p4 == Product(h.l4, a.l4)
    requires p0 + p1 + p2 + p3 + p4 < TWO64
    ensures Row(h, a) == p0 + p1 + p2 + p3 + p4
  {
    hide Mac, Product;
    MacOf(0, h.l0, a.l0, p0);
    MacOf(p0, h.l1, a.l1, p1);
    MacOf(p0 + p1, h.l2, a.l2, p2);
    MacOf(p0 + p1 + p2, h.l3, a.l3, p3);
    MacOf(p0 + p1 + p2 + p3, h.l4, a.l4, p4);
  }

  lemma MacOf(acc: u64, a: nat, b: nat, p: nat)
    requires p == Product(a, b) && acc + p < TWO64
    ensures Mac(acc, a, b) == acc + p
  {
    MacExact(acc, a, b);
  }

  lemma RowWithin(h: Limbs, a: Limbs, x: Limbs, bound: nat)
    requires Added(h) && Below(a, x)
    requires 0x800_0000 * x.l0 + 0x800_0040 * x.l1 + 0x800_0000 * x.l2 + 0x800_0000 * x.l3 + 0x600_0000 * x.l4 < bound
    requires bound <= TWO64
    ensures Row(h, a) == Dot(h, a) < bound
  {
    DotBound(h, a, x);
    RowExact(h, a);
  }

  // None of the twenty-five multiplications, their sums or the four pre-multiplications wraps.
  lemma ProductsExact(h: Limbs, r: Limbs)
    requires Added(h) && Clamped(r)
    ensures Products(h, r) == ExactProducts(h, r)
    ensures Headroom(Products(h, r))
  {
    var s1, s2, s3, s4 := U32(r.l1 * 5), U32(r.l2 * 5), U32(r.l3 * 5), U32(r.l4 * 5);
    assert s1 == r.l1 * 5 && s2 == r.l2 * 5 && s3 == r.l3 * 5 && s4 == r.l4 * 5;
    RowWithin(h, Limbs(r.l0, s4, s3, s2, s1), Limbs(0x3ff_ffff, 0x4f_fffb, 0x13b1_3ffb, 0x13fe_c4fb, 0x13ff_fb0f),
              0x200_0000_0000_0000);
    RowWithin(h, Limbs(r.l1, r.l0, s4, s3, s2), Limbs(0x3ff_ff03, 0x3ff_ffff, 0x4f_fffb, 0x13b1_3ffb, 0x13fe_c4fb),
              0x180_0000_0000_0000);
    RowWithin(h, Limbs(r.l2, r.l1, r.l0, s4, s3), Limbs(0x3ff_c0ff, 0x3ff_ff03, 0x3ff_ffff, 0x4f_fffb, 0x13b1_3ffb),
              0x100_0000_0000_0000);
    RowWithin(h, Limbs(r.l3, r.l2, r.l1, r.l0, s4), Limbs(0x3f0_3fff, 0x3ff_c0ff, 0x3ff_ff03, 0x3ff_ffff, 0x4f_fffb),
              0xa0_0000_0000_0000);
    RowWithin(h, Limbs(r.l4, r.l3, r.l2, r.l1, r.l0), Limbs(0xf_ffff, 0x3f0_3fff, 0x3ff_c0ff, 0x3ff_ff03, 0x3ff_ffff),
              0x80_0000_0000_0000);
  }

  lemma CarryExact(d: nat)
    requires d < 0x400_0000_0000_0000
    ensures CarryOf(d) == d / TWO26
    ensures KeepOf(d) < TWO26 && d == TWO26 * CarryOf(d) + KeepOf(d)
  {
    assert d == d % TWO32 + TWO32 * (d / TWO32);
    assert d % TWO32 % TWO26 == d % TWO26;
  }

  // Carrying loses nothing but multiples of P, wraps nowhere, and restores the loop's bounds.
  lemma PropagateExact(d: Limbs) returns (c: nat)
    requires Headroom(d)
    ensures Carried(Propagate(d))
    ensures Value(Propagate(d)) + c * P == Value(d)
  {
    var cs, k := PropagateCarries(d);
    CarryValue(d, cs, Propagate(d), k);
    c := cs.l4;
  }

  lemma PropagateCarries(d: Limbs) returns (c: Limbs, k: nat)
    requires Headroom(d)
    ensures Carried(Propagate(d))
    ensures d.l0 + 5 * c.l4 == TWO26 * c.l0 + TWO26 * k + Propagate(d).l0
    ensures d.l1 + c.l0 + k == TWO26 * c.l1 + Propagate(d).l1
    ensures d.l2 + c.l1 == TWO26 * c.l2 + Propagate(d).l2
    ensures d.l3 + c.l2 == TWO26 * c.l3 + Propagate(d).l3
    ensures d.l4 + c.l3 == TWO26 * c.l4 + Propagate(d).l4
  {
    hide CarryOf, KeepOf, U64;
    var c0, k0 := CarryStep(d.l0, 0);
    var c1, k1 := CarryStep(d.l1, c0);
    var c2, k2 := CarryStep(d.l2, c1);
    var c3, k3 := CarryStep(d.l3, c2);
    var c4, k4 := CarryStep(d.l4, c3);
    c := Limbs(c0, c1, c2, c3, c4);
    PropagateShape(d, c, Limbs(k0, k1, k2, k3, k4));
    k := FoldedLastExact(Limbs(k0, k1, k2, k3, k4), c4);
  }

  lemma PropagateShape(d: Limbs, c: Limbs, k: Limbs)
    requires c.l0 == CarryOf(U64(d.l0)) && k.l0 == KeepOf(U64(d.l0))
    requires c.l1 == CarryOf(U64(d.l1 + c.l0)) && k.l1 == KeepOf(U64(d.l1 + c.l0))
    requires c.l2 == CarryOf(U64(d.l2 + c.l1)) && k.l2 == KeepOf(U64(d.l2 + c.l1))
    requires c.l3 == CarryOf(U64(d.l3 + c.l2)) && k.l3 == KeepOf(U64(d.l3 + c.l2))
    requires c.l4 == CarryOf(U64(d.l4 + c.l3)) && k.l4 == KeepOf(U64(d.l4 + c.l3))
    ensures Propagate(d) == FoldedLast(k, c.l4)
  {
    hide CarryOf, KeepOf, U64, FoldedLast;
  }

  lemma CarryStep(x: nat, c: nat) returns (out: nat, keep: nat)
    requires x < 0x200_0000_0000_0000 && c < TWO32
    ensures out == CarryOf(U64(x + c)) <= x / TWO26 + 64
    ensures keep == KeepOf(U64(x + c)) < TWO26 && x + c == TWO26 * out + keep
  {
    out, keep := CarryOf(U64(x + c)), KeepOf(U64(x + c));
    assert U64(x + c) == x + c;
    CarryExact(x + c);
  }

  // The last carry, times five, goes into limb 0, whose own carry stops at limb 1.
  lemma FoldedLastExact(k: Limbs, c: nat) returns (j: nat)
    requires k.l0 < TWO26 && c < 0x3000_0000 && k.l1 < TWO26
    ensures j < 64
    ensures FoldedLast(k, c).l0 < TWO26 && FoldedLast(k, c).l0 + TWO26 * j == k.l0 + c * 5
    ensures FoldedLast(k, c).l1 == k.l1 + j
  {
    assert U32(c * 5) == c * 5;
    assert U32(k.l0 + U32(c * 5)) == k.l0 + c * 5;
    j := (k.l0 + c * 5) / TWO26;
  }

  lemma CarryValue(d: Limbs, c: Limbs, h: Limbs, k: nat)
    requires d.l0 + 5 * c.l4 == TWO26 * c.l0 + TWO26 * k + h.l0
    requires d.l1 + c.l0 + k == TWO26 * c.l1 + h.l1
    requires d.l2 + c.l1 == TWO26 * c.l2 + h.l2
    requires d.l3 + c.l2 == TWO26 * c.l3 + h.l3
    requires d.l4 + c.l3 == TWO26 * c.l4 + h.l4
    ensures Value(h) + c.l4 * P == Value(d)
  {
  }

  // ---------------------------------------------------------------- the product, modulo P

  // x * Value(r), limb by limb.
  lemma ScaleValue(x: nat, r: Limbs)
    ensures x * Value(r) == Value(Limbs(x * r.l0, x * r.l1, x * r.l2, x * r.l3, x * r.l4))
  {
    var b1, b2, b3, b4 := 0x400_0000, 0x10_0000_0000_0000, 0x4000_0000_0000_0000_0000, 0x100_0000_0000_0000_0000_0000_0000;
    assert x * (b1 * r.l1) == b1 * (x * r.l1);
    assert x * (b2 * r.l2) == b2 * (x * r.l2);
    assert x * (b3 * r.l3) == b3 * (x * r.l3);
    assert x * (b4 * r.l4) == b4 * (x * r.l4);
  }

  lemma ValueProduct(h: Limbs, y: nat)
    ensures Value(h) * y == Value(Limbs(h.l0 * y, h.l1 * y, h.l2 * y, h.l3 * y, h.l4 * y))
  {
    ScaleValue(y, h);
  }

  // The rows of the product, with 2^130 replaced by 5 in each: the difference is a multiple of P.
  lemma FoldRows(p0: Limbs, p1: Limbs, p2: Limbs, p3: Limbs, p4: Limbs) returns (k: nat)
    ensures Value(Limbs(p0.l0 + 5 * (p1.l4 + p2.l3 + p3.l2 + p4.l1), p0.l1 + p1.l0 + 5 * (p2.l4 + p3.l3 + p4.l2),
                        p0.l2 + p1.l1 + p2.l0 + 5 * (p3.l4 + p4.l3), p0.l3 + p1.l2 + p2.l1 + p3.l0 + 5 * p4.l4,
                        p0.l4 + p1.l3 + p2.l2 + p3.l1 + p4.l0))
            + k * P
            == Value(Limbs(Value(p0), Value(p1), Value(p2), Value(p3), Value(p4)))
  {
    k := p1.l4 + p2.l3 + p3.l2 + p4.l1 + 0x400_0000 * (p2.l4 + p3.l3 + p4.l2)
         + 0x10_0000_0000_0000 * (p3.l4 + p4.l3) + 0x4000_0000_0000_0000_0000 * p4.l4;
  }

  function RowProducts(x: nat, r: Limbs): Limbs
  {
    Limbs(x * r.l0, x * r.l1, x * r.l2, x * r.l3, x * r.l4)
  }

  lemma ExactProductsValue(h: Limbs, r: Limbs) returns (k: nat)
    ensures Value(ExactProducts(h, r)) + k * P == Value(h) * Value(r)
  {
    hide Value, ExactProducts;
    ValueProduct(h, Value(r));
    ScaleValue(h.l0, r);
    ScaleValue(h.l1, r);
    ScaleValue(h.l2, r);
    ScaleValue(h.l3, r);
    ScaleValue(h.l4, r);
    k := FoldRows(RowProducts(h.l0, r), RowProducts(h.l1, r), RowProducts(h.l2, r), RowProducts(h.l3, r),
                  RowProducts(h.l4, r));
    FivefoldProducts(h, r);
  }

  lemma FivefoldProducts(h: Limbs, r: Limbs)
    ensures ExactProducts(h, r)
            == Limbs(h.l0 * r.l0 + 5 * (h.l1 * r.l4 + h.l2 * r.l3 + h.l3 * r.l2 + h.l4 * r.l1),
                     h.l0 * r.l1 + h.l1 * r.l0 + 5 * (h.l2 * r.l4 + h.l3 * r.l3 + h.l4 * r.l2),
                     h.l0 * r.l2 + h.l1 * r.l1 + h.l2 * r.l0 + 5 * (h.l3 * r.l4 + h.l4 * r.l3),
                     h.l0 * r.l3 + h.l1 * r.l2 + h.l2 * r.l1 + h.l3 * r.l0 + 5 * (h.l4 * r.l4),
                     h.l0 * r.l4 + h.l1 * r.l3 + h.l2 * r.l2 + h.l3 * r.l1 + h.l4 * r.l0)
  {
  }

  lemma AddBlockExact(h: Limbs, m: Limbs)
    requires Carried(h) && IsMessage(m)
    ensures Added(AddBlock(h, m)) && Value(AddBlock(h, m)) == Value(h) + Value(m)
  {
    assert AddBlock(h, m) == Limbs(h.l0 + m.l0, h.l1 + m.l1, h.l2 + m.l2, h.l3 + m.l3, h.l4 + m.l4);
  }

  // The block loop's step: nothing wraps, the bounds come back, and the accumulator is
  // (h + block) * r modulo P.
  lemma BlockStepCorrect(h: Limbs, r: Limbs, m: Limbs)
    requires Carried(h) && Clamped(r) && IsMessage(m)
    ensures Carried(BlockStep(h, r, m))
    ensures Value(BlockStep(h, r, m)) % P == (Value(h) + Value(m)) * Value(r) % P
  {
    hide Value, Products, ExactProducts, Propagate, AddBlock;
    var a := AddBlock(h, m);
    AddBlockExact(h, m);
    ProductsExact(a, r);
    var k := ExactProductsValue(a, r);
    var c := PropagateExact(Products(a, r));
    MultipleOfP(Value(BlockStep(h, r, m)), k + c);
  }

  lemma MultipleOfP(x: nat, k: nat)
    ensures (x + k * P) % P == x % P
  {
    assert x == P * (x / P) + x % P;
    assert x + k * P == P * (x / P + k) + x % P;
  }

  // ---------------------------------------------------------------- the final reduction

  predicate Reduced(h: Limbs)
  {
    h.l0 < 0x400_0000 && h.l1 < 0x400_0000 && h.l2 < 0x400_0000 && h.l3 < 0x400_0000 && h.l4 < 0x400_0000
  }

  // The single carry pass of poly1305_finish, from limb 1 round to limb 1 again.
  function FinalCarry(h: Limbs): Limbs
  {
    var h2 := U32(h.l2 + h.l1 / TWO26);
    var h3 := U32(h.l3 + h2 / TWO26);
    var h4 := U32(h.l4 + h3 / TWO26);
    var h0 := U32(h.l0 + U32(h4 / TWO26 * 5));
    Limbs(Low26(h0), U32(Low26(h.l1) + h0 / TWO26), Low26(h2), Low26(h3), Low26(h4))
  }

  // The pass is only partial, but the bound the block loop keeps on limb 1 makes it enough: a carry
  // that travels all the way round found limb 1 nearly empty.
  lemma FinalCarryExact(h: Limbs) returns (c: nat)
    requires Carried(h)
    ensures Reduced(FinalCarry(h))
    ensures Value(FinalCarry(h)) + c * P == Value(h)
  {
    hide Value, Low26;
    var c1 := SmallCarry(h.l1);
    var c2 := SmallCarry(h.l2 + c1);
    var c3 := SmallCarry(h.l3 + c2);
    c := SmallCarry(h.l4 + c3);
    var k := SmallCarry(h.l0 + c * 5);
    FinalCarryShape(h, c1, c2, c3, c, k);
    CarryValue(h, Limbs(0, c1, c2, c3, c), FinalCarry(h), k);
  }

  lemma FinalCarryReduced(h: Limbs)
    requires Carried(h)
    ensures Reduced(FinalCarry(h))
  {
    var _ := FinalCarryExact(h);
  }

  lemma FinalCarryShape(h: Limbs, c1: nat, c2: nat, c3: nat, c4: nat, k: nat)
    requires h.l1 < 0x800_0000 && c1 == h.l1 / TWO26
    requires h.l2 + c1 < 0x800_0000 && c2 == (h.l2 + c1) / TWO26
    requires h.l3 + c2 < 0x800_0000 && c3 == (h.l3 + c2) / TWO26
    requires h.l4 + c3 < 0x800_0000 && c4 == (h.l4 + c3) / TWO26
    requires h.l0 + c4 * 5 < 0x800_0000 && k == (h.l0 + c4 * 5) / TWO26
    ensures FinalCarry(h) == Limbs(h.l0 + c4 * 5 - TWO26 * k, h.l1 - TWO26 * c1 + k, h.l2 + c1 - TWO26 * c2,
                                   h.l3 + c2 - TWO26 * c3, h.l4 + c3 - TWO26 * c4)
  {
    hide Low26, U32;
    var _ := SmallCarry(h.l1);
    var _ := SmallCarry(h.l2 + c1);
    var _ := SmallCarry(h.l3 + c2);
    var _ := SmallCarry(h.l4 + c3);
    var _ := SmallCarry(h.l0 + c4 * 5);
    U32Small(c4 * 5);
    U32Small(h.l1 - TWO26 * c1 + k);
  }

  lemma SmallCarry(x: nat) returns (c: nat)
    requires x < 0x800_0000
    ensures c == (if x < TWO26 then 0 else 1) && U32(x) == x && x / TWO26 == c && Low26(x) == x - TWO26 * c
  {
    c := if x < TWO26 then 0 else 1;
  }

  // h + 5 - 2^130, as a wrapped 32-bit top limb.
  function MinusP(h: Limbs): Limbs
  {
    var g0 := U32(h.l0 + 5);
    var g1 := U32(h.l1 + g0 / TWO26);
    var g2 := U32(h.l2 + g1 / TWO26);
    var g3 := U32(h.l3 + g2 / TWO26);
    Limbs(Low26(g0), Low26(g1), Low26(g2), Low26(g3), U32(U32(h.l4 + g3 / TWO26) + TWO32 - TWO26))
  }

  // (h & ~mask) | (g & mask)
  function Choose(mask: u32, h: nat, g: nat): nat
  {
    Or(And(h, 0xffff_ffff - mask), And(g, mask))
  }

  // Branch-free: the mask is all ones when the subtraction did not borrow.
  function SelectReduced(h: Limbs): Limbs
  {
    var g := MinusP(h);
    var mask := U32(g.l4 / 0x8000_0000 + TWO32 - 1);
    Limbs(Choose(mask, h.l0, g.l0), Choose(mask, h.l1, g.l1), Choose(mask, h.l2, g.l2), Choose(mask, h.l3, g.l3),
          Choose(mask, h.l4, g.l4))
  }

  lemma ChooseMeaning(h: u32, g: u32)
    ensures Choose(0, h, g) == h && Choose(0xffff_ffff, h, g) == g
  {
    hide And, Or;
    AndWord(h);
    AndWord(g);
    OrZero(h);
    OrZero(g);
  }

  lemma AndWord(x: u32)
    ensures And(x, 0xffff_ffff) == x && And(x, 0) == 0
  {
    hide And, Pow2;
    Pow2Values();
    AndMaskLiteral(x, 32, 0xffff_ffff);
    AndZero(x);
  }

  lemma MinusPShape(h: Limbs) returns (c: Limbs)
    requires Reduced(h)
    ensures c.l4 <= 1
    ensures var g := MinusP(h);
      && h.l0 + 5 == TWO26 * c.l0 + g.l0 && h.l1 + c.l0 == TWO26 * c.l1 + g.l1
      && h.l2 + c.l1 == TWO26 * c.l2 + g.l2 && h.l3 + c.l2 == TWO26 * c.l3 + g.l3
      && g.l4 == (if c.l4 == 1 then h.l4 + c.l3 - TWO26 else h.l4 + c.l3 + TWO32 - TWO26)
      && g.l0 < TWO26 && g.l1 < TWO26 && g.l2 < TWO26 && g.l3 < TWO26
    ensures h.l4 + c.l3 < TWO26 <==> c.l4 == 0
    ensures h.l4 + c.l3 <= TWO26
  {
    hide Low26;
    var c0 := SmallCarry(h.l0 + 5);
    var c1 := SmallCarry(h.l1 + c0);
    var c2 := SmallCarry(h.l2 + c1);
    var c3 := SmallCarry(h.l3 + c2);
    var c4 := SmallCarry(h.l4 + c3);
    c := Limbs(c0, c1, c2, c3, c4);
  }

  lemma MinusPExact(h: Limbs) returns (borrow: bool)
    requires Reduced(h)
    ensures MinusPBorrow(h, borrow)
    ensures borrow <==> Value(h) < P
    ensures !borrow ==> Reduced(MinusP(h)) && Value(MinusP(h)) + P == Value(h)
  {
    hide Value, MinusP;
    var c := MinusPShape(h);
    var g := MinusP(h);
    borrow := c.l4 == 0;
    BorrowValue(h, g.(l4 := h.l4 + c.l3 - TWO26 * c.l4), c);
    if !borrow {
      assert g.(l4 := h.l4 + c.l3 - TWO26 * c.l4) == g;
    }
  }

  predicate MinusPBorrow(h: Limbs, borrow: bool)
  {
    var g := MinusP(h);
    && g.l0 < TWO32 && g.l1 < TWO32 && g.l2 < TWO32 && g.l3 < TWO32 && g.l4 < TWO32
    && g.l4 / 0x8000_0000 == if borrow then 1 else 0
  }

  lemma BorrowValue(h: Limbs, g: Limbs, c: Limbs)
    requires Reduced(g) && c.l4 <= 1
    requires h.l0 + 5 == TWO26 * c.l0 + g.l0
    requires h.l1 + c.l0 == TWO26 * c.l1 + g.l1
    requires h.l2 + c.l1 == TWO26 * c.l2 + g.l2
    requires h.l3 + c.l2 == TWO26 * c.l3 + g.l3
    requires h.l4 + c.l3 == TWO26 * c.l4 + g.l4
    ensures Value(h) + 5 == Value(g) + c.l4 * (P + 5)
    ensures c.l4 == 0 <==> Value(h) < P
  {
    assert Value(g) < P + 5;
  }

  lemma SelectReducedExact(h: Limbs)
    requires Reduced(h)
    ensures Reduced(SelectReduced(h)) && Value(SelectReduced(h)) == Value(h) % P
  {
    hide SelectReduced, MinusP, Value;
    var borrow := MinusPExact(h);
    SelectReducedShape(h, borrow);
    ReducedBound(h);
  }

  lemma ReducedBound(h: Limbs)
    requires Reduced(h)
    ensures Value(h) < P + 5
  {
  }

  lemma SelectReducedShape(h: Limbs, borrow: bool)
    requires Reduced(h) && MinusPBorrow(h, borrow)
    ensures SelectReduced(h) == if borrow then h else MinusP(h)
  {
    hide MinusP, Choose;
    var g := MinusP(h);
    ChooseMeaning(h.l0, g.l0);
    ChooseMeaning(h.l1, g.l1);
    ChooseMeaning(h.l2, g.l2);
    ChooseMeaning(h.l3, g.l3);
    ChooseMeaning(h.l4, g.l4);
  }

  // ---------------------------------------------------------------- repacking to 32-bit words and adding the pad

  datatype Quarters = Quarters(w0: u32, w1: u32, w2: u32, w3: u32)

  function QuartersValue(w: Quarters): nat
  {
    w.w0 + 0x1_0000_0000 * w.w1 + 0x1_0000_0000_0000_0000 * w.w2 + 0x1_0000_0000_0000_0000_0000_0000 * w.w3
  }

  // lo | (t << k) in 32 bits
  function OrShl(lo: nat, t: nat, k: nat): nat
  {
    Or(lo, U32(t * Pow2(k)))
  }

  lemma OrShlExact(lo: nat, t: nat, k: nat)
    requires k <= 32 && lo < Pow2(k)
    ensures OrShl(lo, t, k) == lo + Pow2(k) * (t % Pow2(32 - k))
  {
    Pow2Add(k, 32 - k);
    Pow2Values();
    ShlMod(t, Pow2(k), Pow2(32 - k));
    OrDisjoint(lo, t % Pow2(32 - k), k);
  }

  function Pack(h: Limbs): (w: Quarters)
    requires Reduced(h)
  {
    PackShape(h);
    Quarters(OrShl(h.l0, h.l1, 26), OrShl(h.l1 / 0x40, h.l2, 20), OrShl(h.l2 / 0x1000, h.l3, 14),
             OrShl(h.l3 / 0x4_0000, h.l4, 8))
  }

  lemma PackShape(h: Limbs)
    requires Reduced(h)
    ensures OrShl(h.l0, h.l1, 26) == h.l0 + 0x400_0000 * (h.l1 % 0x40)
    ensures OrShl(h.l1 / 0x40, h.l2, 20) == h.l1 / 0x40 + 0x10_0000 * (h.l2 % 0x1000)
    ensures OrShl(h.l2 / 0x1000, h.l3, 14) == h.l2 / 0x1000 + 0x4000 * (h.l3 % 0x4_0000)
    ensures OrShl(h.l3 / 0x4_0000, h.l4, 8) == h.l3 / 0x4_0000 + 0x100 * (h.l4 % 0x100_0000)
  {
    hide OrShl;
    ShiftValues();
    OrShlExact(h.l0, h.l1, 26);
    OrShlExact(h.l1 / 0x40, h.l2, 20);
    OrShlExact(h.l2 / 0x1000, h.l3, 14);
    OrShlExact(h.l3 / 0x4_0000, h.l4, 8);
  }

  lemma ShiftValues()
    ensures Pow2(6) == 0x40 && Pow2(8) == 0x100 && Pow2(12) == 0x1000 && Pow2(14) == 0x4000 && Pow2(18) == 0x4_0000
    ensures Pow2(20) == 0x10_0000 && Pow2(24) == 0x100_0000 && Pow2(26) == 0x400_0000
  {
    Pow2Values();
    Pow2Add(6, 6);
    Pow2Add(6, 8);
    Pow2Add(6, 12);
    Pow2Add(8, 12);
    Pow2Add(8, 16);
  }

  lemma PackValue(h: Limbs)
    requires Reduced(h)
    ensures QuartersValue(Pack(h)) == Value(h) % TWO128
  {
    hide OrShl, Value, QuartersValue;
    PackShape(h);
    var w := Pack(h);
    var a1, b1 := h.l1 / 0x40, h.l1 % 0x40;
    var a2, b2 := h.l2 / 0x1000, h.l2 % 0x1000;
    var a3, b3 := h.l3 / 0x4_0000, h.l3 % 0x4_0000;
    var a4, b4 := h.l4 / 0x100_0000, h.l4 % 0x100_0000;
    PackSum(h, w, a1, b1, a2, b2, a3, b3, a4, b4);
    QuartersBound(w);
    DivModUnique(a4, QuartersValue(w), TWO128);
  }

  lemma PackSum(h: Limbs, w: Quarters, a1: nat, b1: nat, a2: nat, b2: nat, a3: nat, b3: nat, a4: nat, b4: nat)
    requires h.l1 == 0x40 * a1 + b1 && h.l2 == 0x1000 * a2 + b2 && h.l3 == 0x4_0000 * a3 + b3
    requires h.l4 == 0x100_0000 * a4 + b4
    requires w.w0 == h.l0 + 0x400_0000 * b1 && w.w1 == a1 + 0x10_0000 * b2
    requires w.w2 == a2 + 0x4000 * b3 && w.w3 == a3 + 0x100 * b4
    ensures Value(h) == QuartersValue(w) + TWO128 * a4
  {
  }

  lemma QuartersBound(w: Quarters)
    ensures QuartersValue(w) < TWO128
  {
  }

  // f = (uint64_t) x + y + (carry out of the previous word)
  function PadSum(x: u32, y: u32, f: u64): u64 { U64(U64(x + y as int) + f / TWO32) }

  // Four 64-bit additions with carry.
  function AddPad(w: Quarters, pad: Quarters): Quarters
  {
    var f0 := PadSum(w.w0, pad.w0, 0);
    var f1 := PadSum(w.w1, pad.w1, f0);
    var f2 := PadSum(w.w2, pad.w2, f1);
    var f3 := PadSum(w.w3, pad.w3, f2);
    Quarters(U32(f0), U32(f1), U32(f2), U32(f3))
  }

  lemma AddPadValue(w: Quarters, pad: Quarters)
    ensures QuartersValue(AddPad(w, pad)) == (QuartersValue(w) + QuartersValue(pad)) % TWO128
  {
    hide U32, PadSum, QuartersValue;
    var f0 := PadSum(w.w0, pad.w0, 0);
    var f1 := PadSum(w.w1, pad.w1, f0);
    var f2 := PadSum(w.w2, pad.w2, f1);
    var f3 := PadSum(w.w3, pad.w3, f2);
    PadCarry(w.w0, pad.w0, 0);
    PadCarry(w.w1, pad.w1, f0);
    PadCarry(w.w2, pad.w2, f1);
    PadCarry(w.w3, pad.w3, f2);
    PadValue(w, pad, AddPad(w, pad), f0 / TWO32, f1 / TWO32, f2 / TWO32, f3 / TWO32);
    QuartersBound(AddPad(w, pad));
  }

  lemma PadCarry(x: u32, y: u32, f: u64)
    requires f / TWO32 <= 1
    ensures PadSum(x, y, f) / TWO32 <= 1
    ensures U32(PadSum(x, y, f)) + TWO32 * (PadSum(x, y, f) / TWO32) == x + y + f / TWO32
  {
    assert PadSum(x, y, f) == x + y + f / TWO32;
  }

  lemma PadValue(w: Quarters, pad: Quarters, sum: Quarters, c0: nat, c1: nat, c2: nat, c3: nat)
    requires sum.w0 + TWO32 * c0 == w.w0 + pad.w0
    requires sum.w1 + TWO32 * c1 == w.w1 + pad.w1 + c0
    requires sum.w2 + TWO32 * c2 == w.w2 + pad.w2 + c1
    requires sum.w3 + TWO32 * c3 == w.w3 + pad.w3 + c2
    ensures QuartersValue(w) + QuartersValue(pad) == QuartersValue(sum) + TWO128 * c3
  {
  }

  function StoreQuarters(w: Quarters): (s: seq<byte>)
    ensures |s| == 16
  {
    ToLe(w.w0, 4) + ToLe(w.w1, 4) + ToLe(w.w2, 4) + ToLe(w.w3, 4)
  }

  lemma StoreQuartersIsToLe(w: Quarters)
    ensures StoreQuarters(w) == ToLe(QuartersValue(w), 16)
  {
    hide ToLe;
    Pow2Values();
    var v2: nat := w.w2 + 0x1_0000_0000 * w.w3;
    var v1: nat := w.w1 + 0x1_0000_0000 * v2;
    ToLeConcat(w.w0, v1, 4, 12);
    ToLeConcat(w.w1, v2, 4, 8);
    ToLeConcat(w.w2, w.w3, 4, 4);
    assert QuartersValue(w) == w.w0 + 0x1_0000_0000 * v1;
    assert ToLe(v2, 8) == ToLe(w.w2, 4) + ToLe(w.w3, 4);
    assert ToLe(v1, 12) == ToLe(w.w1, 4) + ToLe(v2, 8);
  }

  function LoadQuarters(s: seq<byte>): Quarters
    requires |s| >= 16
  {
    Quarters(Load32(s, 0), Load32(s, 4), Load32(s, 8), Load32(s, 12))
  }

  lemma LoadQuartersValue(s: seq<byte>)
    requires |s| == 16
    ensures QuartersValue(LoadQuarters(s)) == FromLe(s)
  {
    FromLeSixteen(s);
  }

  // Everything poly1305_finish does once the last block is in.
  function FinishTag(h: Limbs, pad: Quarters): (tag: seq<byte>)
    requires Carried(h)
  {
    FinalCarryReduced(h);
    SelectReducedExact(FinalCarry(h));
    StoreQuarters(AddPad(Pack(SelectReduced(FinalCarry(h))), pad))
  }

  lemma FinishTagCorrect(h: Limbs, pad: Quarters)
    requires Carried(h)
    ensures FinishTag(h, pad) == ToLe((Value(h) % P + QuartersValue(pad)) % TWO128, 16)
  {
    hide Value, FinalCarry, SelectReduced, Pack, AddPad, StoreQuarters, QuartersValue;
    var c := FinalCarryExact(h);
    var h' := FinalCarry(h);
    MultipleOfP(Value(h'), c);
    SelectReducedExact(h');
    var h'' := SelectReduced(h');
    PackValue(h'');
    AddPadValue(Pack(h''), pad);
    StoreQuartersIsToLe(AddPad(Pack(h''), pad));
    ModSum(Value(h''), QuartersValue(pad));
  }

  lemma ModSum(x: nat, y: nat)
    ensures (x % TWO128 + y) % TWO128 == (x + y) % TWO128
  {
  }

  // ---------------------------------------------------------------- clamping

  const CLAMP: nat := 0x0fff_fffc_0fff_fffc_0fff_fffc_0fff_ffff

  // The five masked shifts of poly1305_init.
  function InitR(t: Quarters): Limbs
  {
    Limbs(And(t.w0, 0x3ff_ffff), And(OrShl(t.w0 / 0x400_0000, t.w1, 6), 0x3ff_ff03),
          And(OrShl(t.w1 / 0x10_0000, t.w2, 12), 0x3ff_c0ff), And(OrShl(t.w2 / 0x4000, t.w3, 18), 0x3f0_3fff),
          And(t.w3 / 0x100, 0x0f_ffff))
  }

  lemma {:induction false} AndAtMost(a: nat, b: nat)
    ensures And(a, b) <= b
    decreases a + b
  {
    if a > 0 && b > 0 {
      AndAtMost(a / 2, b / 2);
    }
  }

  // Only the low 26 bits matter under a 26-bit mask.
  lemma AndLow26(x: nat, m: nat)
    requires m < TWO26
    ensures And(x, m) == And(x % TWO26, m)
  {
    hide And;
    Pow2Values();
    AndZero(x / TWO26);
    AndSplit(x % TWO26, m, x / TWO26, 0, 26);
  }

  // Unmasked 26-bit limbs of a 128-bit number.
  function CutLimbs(t: Quarters): Limbs
  {
    Limbs(t.w0 % 0x400_0000, t.w0 / 0x400_0000 + 0x40 * (t.w1 % 0x10_0000),
          t.w1 / 0x10_0000 + 0x1000 * (t.w2 % 0x4000), t.w2 / 0x4000 + 0x4_0000 * (t.w3 % 0x100), t.w3 / 0x100)
  }

  lemma CutLimbsValue(t: Quarters)
    ensures Reduced(CutLimbs(t)) && Value(CutLimbs(t)) == QuartersValue(t)
  {
    assert t.w0 == 0x400_0000 * (t.w0 / 0x400_0000) + t.w0 % 0x400_0000;
    assert t.w1 == 0x10_0000 * (t.w1 / 0x10_0000) + t.w1 % 0x10_0000;
    assert t.w2 == 0x4000 * (t.w2 / 0x4000) + t.w2 % 0x4000;
    assert t.w3 == 0x100 * (t.w3 / 0x100) + t.w3 % 0x100;
  }

  function AndLimbs(x: Limbs, m: Limbs): Limbs
  {
    Limbs(And(x.l0, m.l0), And(x.l1, m.l1), And(x.l2, m.l2), And(x.l3, m.l3), And(x.l4, m.l4))
  }

  lemma AndLimbsValue(x: Limbs, m: Limbs)
    requires Reduced(x) && Reduced(m)
    ensures And(Value(x), Value(m)) == Value(AndLimbs(x, m))
  {
    hide And;
    Pow2Values();
    var x3, m3 := x.l3 + TWO26 * x.l4, m.l3 + TWO26 * m.l4;
    var x2, m2 := x.l2 + TWO26 * x3, m.l2 + TWO26 * m3;
    var x1, m1 := x.l1 + TWO26 * x2, m.l1 + TWO26 * m2;
    AndSplit(x.l3, m.l3, x.l4, m.l4, 26);
    AndSplit(x.l2, m.l2, x3, m3, 26);
    AndSplit(x.l1, m.l1, x2, m2, 26);
    AndSplit(x.l0, m.l0, x1, m1, 26);
    assert Value(x) == x.l0 + TWO26 * x1 && Value(m) == m.l0 + TWO26 * m1;
  }

  const CLAMP_LIMBS := Limbs(0x3ff_ffff, 0x3ff_ff03, 0x3ff_c0ff, 0x3f0_3fff, 0x0f_ffff)

  // The masked shifts are the clamp of RFC 8439 section 2.5.1, cut into limbs.
  lemma InitRCorrect(t: Quarters)
    ensures Clamped(InitR(t))
    ensures Value(InitR(t)) == And(QuartersValue(t), CLAMP)
  {
    hide And;
    var x := CutLimbs(t);
    InitRShape(t);
    CutLimbsValue(t);
    AndLimbsValue(x, CLAMP_LIMBS);
    assert Value(CLAMP_LIMBS) == CLAMP;
    AndAtMost(x.l0, 0x3ff_ffff);
    AndAtMost(x.l1, 0x3ff_ff03);
    AndAtMost(x.l2, 0x3ff_c0ff);
    AndAtMost(x.l3, 0x3f0_3fff);
    AndAtMost(x.l4, 0x0f_ffff);
  }

  lemma InitRShape(t: Quarters)
    ensures InitR(t) == AndLimbs(CutLimbs(t), CLAMP_LIMBS)
  {
    hide And, OrShl;
    ShiftValues();
    AndLow26(t.w0, 0x3ff_ffff);
    LimbUnderMask(t.w0 / 0x400_0000, t.w1, 6, 0x10_0000, 0x3ff_ff03);
    LimbUnderMask(t.w1 / 0x10_0000, t.w2, 12, 0x4000, 0x3ff_c0ff);
    LimbUnderMask(t.w2 / 0x4000, t.w3, 18, 0x100, 0x3f0_3fff);
  }

  lemma LimbUnderMask(lo: nat, t: nat, k: nat, q: nat, m: nat)
    requires (k == 6 && q == 0x10_0000) || (k == 12 && q == 0x4000) || (k == 18 && q == 0x100)
    requires lo < Pow2(k) && m < TWO26
    ensures And(OrShl(lo, t, k), m) == And(lo + Pow2(k) * (t % q), m)
  {
    hide And, OrShl;
    ShiftValues();
    OrShlExact(lo, t, k);
    AndLow26(OrShl(lo, t, k), m);
    CutHigh(lo, t, k, q);
  }

  lemma CutHigh(lo: nat, t: nat, k: nat, q: nat)
    requires (k == 6 && q == 0x10_0000) || (k == 12 && q == 0x4000) || (k == 18 && q == 0x100)
    requires lo < Pow2(k)
    ensures (lo + Pow2(k) * (t % Pow2(32 - k))) % TWO26 == lo + Pow2(k) * (t % q)
  {
    ShiftValues();
    if k == 6 {
      Cut6(lo, t);
    } else if k == 12 {
      Cut12(lo, t);
    } else {
      Cut18(lo, t);
    }
  }

  lemma Cut6(lo: nat, t: nat)
    requires lo < 0x40
    ensures (lo + 0x40 * (t % 0x400_0000)) % 0x400_0000 == lo + 0x40 * (t % 0x10_0000)
  {
    var u := t % 0x400_0000;
    var a, b := u / 0x10_0000, u % 0x10_0000;
    assert t == 0x10_0000 * (0x40 * (t / 0x400_0000) + a) + b;
    assert lo + 0x40 * u == 0x400_0000 * a + (lo + 0x40 * b);
  }

  lemma Cut12(lo: nat, t: nat)
    requires lo < 0x1000
    ensures (lo + 0x1000 * (t % 0x10_0000)) % 0x400_0000 == lo + 0x1000 * (t % 0x4000)
  {
    var u := t % 0x10_0000;
    var a, b := u / 0x4000, u % 0x4000;
    assert t == 0x4000 * (0x40 * (t / 0x10_0000) + a) + b;
    assert lo + 0x1000 * u == 0x400_0000 * a + (lo + 0x1000 * b);
  }

  lemma Cut18(lo: nat, t: nat)
    requires lo < 0x4_0000
    ensures (lo + 0x4_0000 * (t % 0x4000)) % 0x400_0000 == lo + 0x4_0000 * (t % 0x100)
  {
    var u := t % 0x4000;
    var a, b := u / 0x100, u % 0x100;
    assert t == 0x100 * (0x40 * (t / 0x4000) + a) + b;
    assert lo + 0x4_0000 * u == 0x400_0000 * a + (lo + 0x4_0000 * b);
  }
}
