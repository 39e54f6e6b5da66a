/**
Machine words and byte strings.

A word is an integer below its power of two. The functions U32 and U64 are the truncations that a
C++ assignment to uint32_t or uint64_t performs; they are written out wherever the source computes
in a fixed width, so that the absence of wrap-around is something to prove.
*/
module Words {
  import opened Bits

  const TWO26: nat := 0x400_0000
  const TWO32: nat := 0x1_0000_0000
  const TWO64: nat := 0x1_0000_0000_0000_0000

  type byte = x: int | 0 <= x < 0x100
  type u32 = x: int | 0 <= x < 0x1_0000_0000
  type u64 = x: int | 0 <= x < 0x1_0000_0000_0000_0000

  function U32(x: nat): u32 { x % 0x1_0000_0000 }

  lemma U32Small(x: nat)
    requires x < 0x1_0000_0000
    ensures U32(x) == x
  {
  }

  function U64(x: nat): u64 { x % 0x1_0000_0000_0000_0000 }

  // x & 0x3ffffff
  function Low26(x: nat): (r: nat)
    ensures r == x % 0x400_0000
  {
    Pow2Values();
    AndMaskLiteral(x, 26, 0x3ff_ffff);
    And(x, 0x3ff_ffff)
  }

  lemma AndMaskLiteral(x: nat, k: nat, mask: nat)
    requires mask == Pow2(k) - 1
    ensures And(x, mask) == x % (mask + 1)
  {
    AndMask(x, k);
  }

  // ---------------------------------------------------------------- little-endian integers

  function FromLe(s: seq<byte>): nat
  {
    if s == [] then 0 else s[0] + 256 * FromLe(s[1..])
  }

  function ToLe(v: nat, n: nat): (s: seq<byte>)
    ensures |s| == n
  {
    if n == 0 then [] else [v % 256] + ToLe(v / 256, n - 1)
  }

  lemma DigitAndRest(c: byte, m: nat)
    ensures (c + 256 * m) % 256 == c && (c + 256 * m) / 256 == m
  {
  }

  lemma ToLeStep(v: nat, n: nat)
    requires n > 0
    ensures ToLe(v, n) == [v % 256] + ToLe(v / 256, n - 1)
  {
  }

  lemma {:induction false} ToLeFromLe(s: seq<byte>)
    ensures ToLe(FromLe(s), |s|) == s
  {
    if s != [] {
      hide ToLe;
      ToLeFromLe(s[1..]);
      DigitAndRest(s[0], FromLe(s[1..]));
      ToLeStep(FromLe(s), |s|);
    }
  }

  lemma {:induction false} FromLeBound(s: seq<byte>)
    ensures FromLe(s) < Pow2(8 * |s|)
  {
    if s != [] {
      FromLeBound(s[1..]);
      Pow2Add(8, 8 * |s[1..]|);
      assert Pow2(8) == 256;
    }
  }

  lemma {:induction false} FromLeToLe(v: nat, n: nat)
    requires v < Pow2(8 * n)
    ensures FromLe(ToLe(v, n)) == v
  {
    if n > 0 {
      Pow2Add(8, 8 * (n - 1));
      assert Pow2(8) == 256;
      FromLeToLe(v / 256, n - 1);
      assert ToLe(v, n)[1..] == ToLe(v / 256, n - 1);
    }
  }

  lemma {:induction false} FromLeAppend(a: seq<byte>, b: seq<byte>)
    ensures FromLe(a + b) == FromLe(a) + Pow2(8 * |a|) * FromLe(b)
  {
    if a == [] {
      assert a + b == b;
    } else {
      FromLeAppend(a[1..], b);
      assert (a + b)[1..] == a[1..] + b;
      Pow2Add(8, 8 * |a[1..]|);
      assert Pow2(8) == 256;
      var h := Pow2(8 * |a[1..]|);
      assert (256 * h) * FromLe(b) == 256 * (h * FromLe(b));
    }
  }

  lemma {:induction false} ToLeConcat(a: nat, b: nat, m: nat, n: nat)
    requires a < Pow2(8 * m)
    ensures ToLe(a + Pow2(8 * m) * b, m + n) == ToLe(a, m) + ToLe(b, n)
  {
    if m > 0 {
      hide Pow2, ToLe, Product;
      var h := Pow2(8 * (m - 1));
      Pow2Byte(m - 1);
      var p := ShiftedTail(h, b);
      AddMultipleOf256(a, p);
      ToLeConcat(a / 256, b, m - 1, n);
      ToLeStep(a, m);
      ToLeStep(a + 256 * p, m + n);
      assert m + n - 1 == (m - 1) + n;
    }
  }

  lemma Pow2Byte(m: nat)
    ensures Pow2(8 * (m + 1)) == 256 * Pow2(8 * m)
  {
    Pow2Add(8, 8 * m);
    assert Pow2(8) == 256;
  }

  lemma ScaleByte(h: nat, b: nat)
    ensures (256 * h) * b == 256 * (h * b)
  {
  }

  lemma ShiftedTail(h: nat, b: nat) returns (p: nat)
    ensures p == h * b && (256 * h) * b == 256 * p
  {
    p := h * b;
    ScaleByte(h, b);
  }

  lemma AddMultipleOf256(a: nat, x: nat)
    ensures (a + 256 * x) / 256 == a / 256 + x && (a + 256 * x) % 256 == a % 256
  {
  }

  // load32_le: four bytes at offset i.
  function Load32(s: seq<byte>, i: nat): u32
    requires i + 4 <= |s|
  {
    Quad(s[i], s[i + 1], s[i + 2], s[i + 3])
  }

  function Quad(b0: nat, b1: nat, b2: nat, b3: nat): nat
  {
    b0 + 0x100 * b1 + 0x1_0000 * b2 + 0x100_0000 * b3
  }

  lemma Load32IsFromLe(s: seq<byte>, i: nat)
    requires i + 4 <= |s|
    ensures Load32(s, i) == FromLe(s[i..i + 4])
  {
    FromLeFour(s[i..i + 4]);
  }

  lemma FromLeFour(s: seq<byte>)
    requires |s| == 4
    ensures FromLe(s) == Quad(s[0], s[1], s[2], s[3])
  {
    var t := s[1..];
    var u := t[1..];
    var w := u[1..];
    assert w[1..] == [];
    assert FromLe(w) == s[3];
    assert FromLe(u) == s[2] + 256 * FromLe(w);
  }

  function Zeros(n: nat): (s: seq<byte>)
    ensures |s| == n && forall i :: 0 <= i < n ==> s[i] == 0
  {
    seq(n, _ => 0)
  }

  // ---------------------------------------------------------------- shifts of words

  // A left shift of a word drops its n high bits.
  lemma ShlWord(x: nat, n: nat)
    requires n <= 32
    ensures U32(Shl(x, n)) == Pow2(n) * (x % Pow2(32 - n))
  {
    hide Pow2;
    Pow2Values();
    Pow2Add(n, 32 - n);
    ShlMod(x, Pow2(n), Pow2(32 - n));
  }

  lemma ShrBelow(x: u32, n: nat)
    requires n <= 32
    ensures Shr(x, 32 - n) < Pow2(n)
  {
    hide Pow2;
    Pow2Values();
    Pow2Add(32 - n, n);
    QuotientBelow(x, Pow2(32 - n), Pow2(n));
  }

  lemma QuotientBelow(x: nat, d: nat, q: nat)
    requires d > 0 && x < d * q
    ensures x / d < q
  {
    QuotientTimes(x, d);
    TimesMonotone(d, q, x / d);
  }

  lemma TimesMonotone(d: nat, q: nat, k: nat)
    ensures q <= k ==> d * q <= d * k
  {
  }
}
