/**
Bitwise operators on unbounded naturals, defined bit by bit from the low end, and the facts that
turn masks and shifts into remainders and quotients by powers of two.

Fixed-width words are naturals below a bound (module Words); nothing here wraps.
*/
module Bits {

  function Pow2(k: nat): (p: nat)
    ensures p > 0
  {
    if k == 0 then 1 else 2 * Pow2(k - 1)
  }

  function And(a: nat, b: nat): nat
    decreases a + b
  {
    if a == 0 || b == 0 then 0 else (a % 2) * (b % 2) + 2 * And(a / 2, b / 2)
  }

  function Or(a: nat, b: nat): nat
    decreases a + b
  {
    if a == 0 && b == 0 then 0
    else (if a % 2 == 1 || b % 2 == 1 then 1 else 0) + 2 * Or(a / 2, b / 2)
  }

  function Xor(a: nat, b: nat): nat
    decreases a + b
  {
    if a == 0 && b == 0 then 0 else (a % 2 + b % 2) % 2 + 2 * Xor(a / 2, b / 2)
  }

  function Quotient(x: nat, d: nat): nat
    requires d > 0
  {
    x / d
  }

  function Product(x: nat, y: nat): nat
  {
    x * y
  }

  lemma ShrBound(x: nat, k: nat)
    ensures Shr(x, k) <= x
  {
    hide Pow2;
    QuotientAtMost(x, Pow2(k));
  }

  lemma QuotientAtMost(x: nat, d: nat)
    requires d > 0
    ensures x / d <= x
  {
    QuotientTimes(x, d);
    ProductAtLeast(d, x / d);
  }

  lemma ProductAtLeast(d: nat, q: nat)
    requires d > 0
    ensures d * q >= q
  {
    assert d * q == (d - 1) * q + q;
  }

  function Shl(x: nat, k: nat): nat { Product(x, Pow2(k)) }

  function Shr(x: nat, k: nat): nat { Quotient(x, Pow2(k)) }

  // ---------------------------------------------------------------- powers of two

  lemma {:induction false} Pow2Add(j: nat, k: nat)
    ensures Pow2(j + k) == Pow2(j) * Pow2(k)
  {
    if j == 0 {
    } else {
      Pow2Add(j - 1, k);
      assert Pow2(j + k) == 2 * Pow2(j - 1 + k);
    }
  }

  lemma SmallPowers()
    ensures Pow2(1) == 2 && Pow2(2) == 4 && Pow2(4) == 16 && Pow2(7) == 0x80 && Pow2(8) == 0x100
  {
    assert Pow2(3) == 8;
    assert Pow2(6) == 64;
  }

  lemma Pow2Values()
    ensures Pow2(7) == 0x80 && Pow2(8) == 0x100 && Pow2(16) == 0x1_0000
    ensures Pow2(26) == 0x400_0000 && Pow2(28) == 0x1000_0000 && Pow2(31) == 0x8000_0000 && Pow2(32) == 0x1_0000_0000
    ensures Pow2(64) == 0x1_0000_0000_0000_0000
    ensures Pow2(128) == 0x1_0000_0000_0000_0000_0000_0000_0000_0000
  {
    hide Pow2;
    SmallPowers();
    Pow2Add(2, 8);
    Pow2Add(4, 8);
    Pow2Add(7, 8);
    Pow2Add(8, 8);
    Pow2Add(16, 10);
    Pow2Add(16, 12);
    Pow2Add(16, 15);
    Pow2Add(16, 16);
    Pow2Add(32, 32);
    Pow2Add(64, 64);
  }

  // ---------------------------------------------------------------- Xor is an abelian group of exponent two

  lemma {:induction false} XorComm(a: nat, b: nat)
    ensures Xor(a, b) == Xor(b, a)
    decreases a + b
  {
    if a + b > 0 {
      XorComm(a / 2, b / 2);
    }
  }

  lemma {:induction false} XorZero(a: nat)
    ensures Xor(a, 0) == a && Xor(0, a) == a
  {
    if a > 0 {
      XorZero(a / 2);
    }
  }

  lemma {:induction false} XorSelf(a: nat)
    ensures Xor(a, a) == 0
  {
    if a > 0 {
      XorSelf(a / 2);
    }
  }

  lemma {:induction false} XorAssoc(a: nat, b: nat, c: nat)
    ensures Xor(Xor(a, b), c) == Xor(a, Xor(b, c))
    decreases a + b + c
  {
    hide Xor;
    if a + b + c > 0 {
      XorAssoc(a / 2, b / 2, c / 2);
      XorHalves(a, b);
      XorHalves(b, c);
      XorHalves(Xor(a, b), c);
      XorHalves(a, Xor(b, c));
      ParityAssoc(a % 2, b % 2, c % 2);
      SameHalves(Xor(Xor(a, b), c), Xor(a, Xor(b, c)));
    } else {
      XorZero(0);
    }
  }

  lemma SameHalves(x: nat, y: nat)
    requires x / 2 == y / 2 && x % 2 == y % 2
    ensures x == y
  {
  }

  lemma ParityAssoc(i: nat, j: nat, k: nat)
    ensures ((i + j) % 2 + k) % 2 == (i + (j + k) % 2) % 2
  {
  }

  lemma XorHalves(a: nat, b: nat)
    ensures Xor(a, b) / 2 == Xor(a / 2, b / 2)
    ensures Xor(a, b) % 2 == (a % 2 + b % 2) % 2
  {
  }

  // A second Xor with the same operand undoes the first.
  lemma XorCancel(a: nat, b: nat)
    ensures Xor(Xor(a, b), b) == a
  {
    XorAssoc(a, b, b);
    XorSelf(b);
    XorZero(a);
  }

  lemma XorIsZero(a: nat, b: nat)
    ensures Xor(a, b) == 0 <==> a == b
  {
    XorSelf(a);
    XorCancel(a, b);
    XorZero(b);
  }

  lemma {:induction false} XorBound(a: nat, b: nat, k: nat)
    requires a < Pow2(k) && b < Pow2(k)
    ensures Xor(a, b) < Pow2(k)
  {
    if k == 0 {
    } else {
      XorBound(a / 2, b / 2, k - 1);
    }
  }

  lemma {:induction false} OrBound(a: nat, b: nat, k: nat)
    requires a < Pow2(k) && b < Pow2(k)
    ensures Or(a, b) < Pow2(k)
  {
    if k == 0 {
    } else {
      OrBound(a / 2, b / 2, k - 1);
    }
  }

  lemma {:induction false} OrIsZero(a: nat, b: nat)
    ensures Or(a, b) == 0 <==> a == 0 && b == 0
  {
    if a + b > 0 && a % 2 == 0 && b % 2 == 0 {
      OrIsZero(a / 2, b / 2);
    }
  }

  // ---------------------------------------------------------------- splitting at bit k

  lemma DivModUnique(q: nat, r: nat, d: nat)
    requires 0 <= r < d
    ensures (q * d + r) / d == q && (q * d + r) % d == r
  {
    var x := q * d + r;
    var e := q - x / d;
    assert e * d == x % d - r;
    assert e < 1 && e > -1;
  }

  lemma TwiceProduct(h: nat, c: nat)
    ensures (2 * h) * c == 2 * (h * c)
  {
  }

  lemma XorShifted(a: nat, b: nat, m: nat, n: nat)
    ensures Xor(a + 2 * m, b + 2 * n) == (a % 2 + b % 2) % 2 + 2 * Xor(a / 2 + m, b / 2 + n)
  {
    assert (a + 2 * m) / 2 == a / 2 + m && (b + 2 * n) / 2 == b / 2 + n;
    XorHalves(a + 2 * m, b + 2 * n);
  }

  lemma AndShifted(a: nat, b: nat, m: nat, n: nat)
    ensures And(a + 2 * m, b + 2 * n) == (a % 2) * (b % 2) + 2 * And(a / 2 + m, b / 2 + n)
  {
    assert (a + 2 * m) / 2 == a / 2 + m && (b + 2 * n) / 2 == b / 2 + n;
    AndHalves(a + 2 * m, b + 2 * n);
  }

  lemma {:induction false} XorSplit(a: nat, b: nat, c: nat, d: nat, k: nat)
    requires a < Pow2(k) && b < Pow2(k)
    ensures Xor(a + Pow2(k) * c, b + Pow2(k) * d) == Xor(a, b) + Pow2(k) * Xor(c, d)
  {
    hide Xor;
    if k == 0 {
      XorZero(0);
    } else {
      var h := Pow2(k - 1);
      TwiceProduct(h, c);
      TwiceProduct(h, d);
      TwiceProduct(h, Xor(c, d));
      XorShifted(a, b, h * c, h * d);
      XorSplit(a / 2, b / 2, c, d, k - 1);
      XorHalves(a, b);
    }
  }

  lemma {:induction false} AndSplit(a: nat, b: nat, c: nat, d: nat, k: nat)
    requires a < Pow2(k) && b < Pow2(k)
    ensures And(a + Pow2(k) * c, b + Pow2(k) * d) == And(a, b) + Pow2(k) * And(c, d)
  {
    if k == 0 {
    } else {
      var h := Pow2(k - 1);
      TwiceProduct(h, c);
      TwiceProduct(h, d);
      TwiceProduct(h, And(c, d));
      AndShifted(a, b, h * c, h * d);
      AndSplit(a / 2, b / 2, c, d, k - 1);
      AndHalves(a, b);
    }
  }

  lemma AndHalves(a: nat, b: nat)
    ensures And(a, b) == (a % 2) * (b % 2) + 2 * And(a / 2, b / 2)
  {
  }

  // Masking with 2^k - 1 is the remainder by 2^k.
  lemma {:induction false} AndMask(a: nat, k: nat)
    ensures And(a, Pow2(k) - 1) == a % Pow2(k)
  {
    hide And;
    if k == 0 {
      AndZero(a);
    } else {
      var h := Pow2(k - 1);
      AndMask(a / 2, k - 1);
      assert (2 * h - 1) / 2 == h - 1 && (2 * h - 1) % 2 == 1;
      AndHalves(a, 2 * h - 1);
      ModOfDouble(a, h);
      assert And(a, 2 * h - 1) == a % 2 + 2 * (a / 2 % h);
    }
  }

  lemma ModOfDouble(a: nat, h: nat)
    requires h > 0
    ensures a % (2 * h) == a % 2 + 2 * (a / 2 % h)
  {
    var q, r := a / 2 / h, a / 2 % h;
    QuotientTimes(a / 2, h);
    TwiceProduct(h, q);
    assert a == (2 * h) * q + (2 * r + a % 2);
    DivModUnique(q, 2 * r + a % 2, 2 * h);
  }

  lemma QuotientTimes(a: nat, h: nat)
    requires h > 0
    ensures a == h * (a / h) + a % h
  {
  }

  lemma AndZero(a: nat)
    ensures And(a, 0) == 0 && And(0, a) == 0
  {
  }

  // Or of two numbers with no common bit position is their sum.
  lemma {:induction false} OrDisjoint(a: nat, b: nat, k: nat)
    requires a < Pow2(k)
    ensures Or(a, Pow2(k) * b) == a + Pow2(k) * b
  {
    if k == 0 {
      OrZero(b);
    } else {
      var h := Pow2(k - 1);
      assert Pow2(k) * b == 2 * (h * b);
      OrDisjoint(a / 2, b, k - 1);
    }
  }

  lemma {:induction false} OrZero(a: nat)
    ensures Or(a, 0) == a && Or(0, a) == a
  {
    if a > 0 {
      OrZero(a / 2);
    }
  }

  lemma {:induction false} OrComm(a: nat, b: nat)
    ensures Or(a, b) == Or(b, a)
    decreases a + b
  {
    if a + b > 0 {
      OrComm(a / 2, b / 2);
    }
  }

  lemma ShlMod(t: nat, p: nat, q: nat)
    requires p > 0 && q > 0
    ensures t * p % (p * q) == p * (t % q)
  {
    var a, b := t / q, t % q;
    QuotientTimes(t, q);
    Regroup(a, b, p, q);
    ScaleLess(p, b, q);
    DivModUnique(a, p * b, p * q);
  }

  lemma Regroup(a: nat, b: nat, p: nat, q: nat)
    ensures (q * a + b) * p == a * (p * q) + p * b
  {
  }

  lemma ScaleLess(p: nat, b: nat, q: nat)
    requires b < q && p > 0
    ensures p * b < p * q
  {
  }
}
