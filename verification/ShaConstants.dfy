/**
The constants of SHA-256 are what sections 4.2.2 and 5.3.3 of FIPS 180-4 say: bits of the roots of the first primes.
*/
module ShaConstants {
  import Bits
  import opened Words
  import opened MachineWords
  import opened Sha256

  // ---------------------------------------------------------------- the first primes

  ghost predicate Prime(n: nat)
  {
    n >= 2 && forall d :: 2 <= d < n ==> n % d != 0
  }

  // How many primes are less than n.
  ghost function PrimesBelow(n: nat): nat
  {
    if n == 0 then 0 else PrimesBelow(n - 1) + if Prime(n - 1) then 1 else 0
  }

  predicate Sifted(n: nat)
  {
    || (n > 2 && n % 2 == 0) || (n > 3 && n % 3 == 0) || (n > 5 && n % 5 == 0) || (n > 7 && n % 7 == 0)
    || (n > 11 && n % 11 == 0) || (n > 13 && n % 13 == 0) || (n > 17 && n % 17 == 0)
  }

  lemma SmallFactor(n: nat, d: nat)
    requires 2 <= d < 18 && d < n && n % d == 0
    ensures Sifted(n)
  {
    if d % 2 == 0 {
      Divides(n, d, 2);
    } else if d % 3 == 0 {
      Divides(n, d, 3);
    } else if d == 5 || d == 7 || d == 11 || d == 13 || d == 17 {
    }
  }

  lemma Divides(n: nat, d: nat, f: nat)
    requires 0 < f <= d && d % f == 0 && n % d == 0
    ensures n % f == 0
  {
    var k, l := n / d, d / f;
    assert n == d * k && d == f * l;
    assert n == f * (l * k);
    Multiple(f, l * k);
  }

  lemma Multiple(f: nat, q: nat)
    requires f > 0
    ensures f * q % f == 0
  {
    Bits.DivModUnique(q, 0, f);
  }

  // The sieve is exact below 18 * 18.
  lemma SiftedIff(n: nat)
    requires 2 <= n < 324
    ensures Prime(n) <==> !Sifted(n)
  {
    if !Sifted(n) {
      forall d | 2 <= d < n
        ensures n % d != 0
      {
        if n % d == 0 {
          OneIsSmall(n, d);
          if d < 18 {
            SmallFactor(n, d);
          } else {
            SmallFactor(n, n / d);
          }
        }
      }
    }
  }

  lemma OneIsSmall(n: nat, d: nat)
    requires n < 324 && 2 <= d < n && n % d == 0
    ensures d < 18 || (2 <= n / d < 18 && n / d < n && n % (n / d) == 0)
  {
    var e := n / d;
    assert n == d * e;
    ProductSize(d, e);
    Multiple(e, d);
  }

  lemma ProductSize(d: nat, e: nat)
    ensures d >= 18 && e >= 18 ==> d * e >= 324
    ensures e < 2 ==> d * e <= d
    ensures d >= 2 && e >= 1 ==> e < d * e
  {
  }

  predicate AllSifted(lo: nat, hi: nat)
    decreases hi - lo
  {
    lo >= hi || (Sifted(lo) && AllSifted(lo + 1, hi))
  }

  lemma {:induction false} AllSiftedAt(lo: nat, hi: nat, n: nat)
    requires AllSifted(lo, hi) && lo <= n < hi
    ensures Sifted(n)
    decreases hi - lo
  {
    hide Sifted;
    if lo < n {
      AllSiftedAt(lo + 1, hi, n);
    }
  }

  // The next prime after p.
  lemma NextPrime(p: nat, q: nat)
    requires 2 <= p < q < 324 && Prime(p) && !Sifted(q) && AllSifted(p + 1, q)
    ensures Prime(q) && PrimesBelow(q) == PrimesBelow(p) + 1
  {
    hide Sifted, Prime, AllSifted;
    SiftedIff(q);
    forall n | p < n < q
      ensures !Prime(n)
    {
      AllSiftedAt(p + 1, q, n);
      SiftedIff(n);
    }
    NoneBetween(p, q);
  }

  lemma {:induction false} NoneBetween(p: nat, q: nat)
    requires p < q && Prime(p) && forall n :: p < n < q ==> !Prime(n)
    ensures PrimesBelow(q) == PrimesBelow(p) + 1
    decreases q
  {
    hide Prime;
    if p + 1 < q {
      NoneBetween(p, q - 1);
    }
  }

  // p is the prime number i, counted from 0.
  ghost predicate PrimeAt(p: nat, i: nat)
  {
    Prime(p) && PrimesBelow(p) == i
  }

  lemma FirstPrime()
    ensures PrimeAt(2, 0)
  {
    assert PrimesBelow(1) == 0;
  }

  lemma Primes0()
    ensures PrimeAt(2, 0) && PrimeAt(3, 1) && PrimeAt(5, 2) && PrimeAt(7, 3)
  {
    hide Prime, PrimesBelow;
    FirstPrime();
    assert AllSifted(3, 3);
    NextPrime(2, 3);
    assert AllSifted(4, 5);
    NextPrime(3, 5);
    assert AllSifted(6, 7);
    NextPrime(5, 7);
  }

  lemma Primes4()
    requires PrimeAt(7, 3)
    ensures PrimeAt(11, 4) && PrimeAt(13, 5) && PrimeAt(17, 6) && PrimeAt(19, 7)
  {
    hide Prime, PrimesBelow;
    assert AllSifted(8, 11);
    NextPrime(7, 11);
    assert AllSifted(12, 13);
    NextPrime(11, 13);
    assert AllSifted(14, 17);
    NextPrime(13, 17);
    assert AllSifted(18, 19);
    NextPrime(17, 19);
  }

  lemma Primes8()
    requires PrimeAt(19, 7)
    ensures PrimeAt(23, 8) && PrimeAt(29, 9) && PrimeAt(31, 10) && PrimeAt(37, 11)
  {
    hide Prime, PrimesBelow;
    assert AllSifted(20, 23);
    NextPrime(19, 23);
    assert AllSifted(24, 29);
    NextPrime(23, 29);
    assert AllSifted(30, 31);
    NextPrime(29, 31);
    assert AllSifted(32, 37);
    NextPrime(31, 37);
  }

  lemma Primes12()
    requires PrimeAt(37, 11)
    ensures PrimeAt(41, 12) && PrimeAt(43, 13) && PrimeAt(47, 14) && PrimeAt(53, 15)
  {
    hide Prime, PrimesBelow;
    assert AllSifted(38, 41);
    NextPrime(37, 41);
    assert AllSifted(42, 43);
    NextPrime(41, 43);
    assert AllSifted(44, 47);
    NextPrime(43, 47);
    assert AllSifted(48, 53);
    NextPrime(47, 53);
  }

  lemma Primes16()
    requires PrimeAt(53, 15)
    ensures PrimeAt(59, 16) && PrimeAt(61, 17) && PrimeAt(67, 18) && PrimeAt(71, 19)
  {
    hide Prime, PrimesBelow;
    assert AllSifted(54, 59);
    NextPrime(53, 59);
    assert AllSifted(60, 61);
    NextPrime(59, 61);
    assert AllSifted(62, 67);
    NextPrime(61, 67);
    assert AllSifted(68, 71);
    NextPrime(67, 71);
  }

  lemma Primes20()
    requires PrimeAt(71, 19)
    ensures PrimeAt(73, 20) && PrimeAt(79, 21) && PrimeAt(83, 22) && PrimeAt(89, 23)
  {
    hide Prime, PrimesBelow;
    assert AllSifted(72, 73);
    NextPrime(71, 73);
    assert AllSifted(74, 79);
    NextPrime(73, 79);
    assert AllSifted(80, 83);
    NextPrime(79, 83);
    assert AllSifted(84, 89);
    NextPrime(83, 89);
  }

  lemma Primes24()
    requires PrimeAt(89, 23)
    ensures PrimeAt(97, 24) && PrimeAt(101, 25) && PrimeAt(103, 26) && PrimeAt(107, 27)
  {
    hide Prime, PrimesBelow;
    assert AllSifted(90, 97);
    NextPrime(89, 97);
    assert AllSifted(98, 101);
    NextPrime(97, 101);
    assert AllSifted(102, 103);
    NextPrime(101, 103);
    assert AllSifted(104, 107);
    NextPrime(103, 107);
  }

  lemma Primes28()
    requires PrimeAt(107, 27)
    ensures PrimeAt(109, 28) && PrimeAt(113, 29) && PrimeAt(127, 30) && PrimeAt(131, 31)
  {
    hide Prime, PrimesBelow;
    assert AllSifted(108, 109);
    NextPrime(107, 109);
    assert AllSifted(110, 113);
    NextPrime(109, 113);
    assert AllSifted(114, 127);
    NextPrime(113, 127);
    assert AllSifted(128, 131);
    NextPrime(127, 131);
  }

  lemma Primes32()
    requires PrimeAt(131, 31)
    ensures PrimeAt(137, 32) && PrimeAt(139, 33) && PrimeAt(149, 34) && PrimeAt(151, 35)
  {
    hide Prime, PrimesBelow;
    assert AllSifted(132, 137);
    NextPrime(131, 137);
    assert AllSifted(138, 139);
    NextPrime(137, 139);
    assert AllSifted(140, 149);
    NextPrime(139, 149);
    assert AllSifted(150, 151);
    NextPrime(149, 151);
  }

  lemma Primes36()
    requires PrimeAt(151, 35)
    ensures PrimeAt(157, 36) && PrimeAt(163, 37) && PrimeAt(167, 38) && PrimeAt(173, 39)
  {
    hide Prime, PrimesBelow;
    assert AllSifted(152, 157);
    NextPrime(151, 157);
    assert AllSifted(158, 163);
    NextPrime(157, 163);
    assert AllSifted(164, 167);
    NextPrime(163, 167);
    assert AllSifted(168, 173);
    NextPrime(167, 173);
  }

  lemma Primes40()
    requires PrimeAt(173, 39)
    ensures PrimeAt(179, 40) && PrimeAt(181, 41) && PrimeAt(191, 42) && PrimeAt(193, 43)
  {
    hide Prime, PrimesBelow;
    assert AllSifted(174, 179);
    NextPrime(173, 179);
    assert AllSifted(180, 181);
    NextPrime(179, 181);
    assert AllSifted(182, 191);
    NextPrime(181, 191);
    assert AllSifted(192, 193);
    NextPrime(191, 193);
  }

  lemma Primes44()
    requires PrimeAt(193, 43)
    ensures PrimeAt(197, 44) && PrimeAt(199, 45) && PrimeAt(211, 46) && PrimeAt(223, 47)
  {
    hide Prime, PrimesBelow;
    assert AllSifted(194, 197);
    NextPrime(193, 197);
    assert AllSifted(198, 199);
    NextPrime(197, 199);
    assert AllSifted(200, 211);
    NextPrime(199, 211);
    assert AllSifted(212, 223);
    NextPrime(211, 223);
  }

  lemma Primes48()
    requires PrimeAt(223, 47)
    ensures PrimeAt(227, 48) && PrimeAt(229, 49) && PrimeAt(233, 50) && PrimeAt(239, 51)
  {
    hide Prime, PrimesBelow;
    assert AllSifted(224, 227);
    NextPrime(223, 227);
    assert AllSifted(228, 229);
    NextPrime(227, 229);
    assert AllSifted(230, 233);
    NextPrime(229, 233);
    assert AllSifted(234, 239);
    NextPrime(233, 239);
  }

  lemma Primes52()
    requires PrimeAt(239, 51)
    ensures PrimeAt(241, 52) && PrimeAt(251, 53) && PrimeAt(257, 54) && PrimeAt(263, 55)
  {
    hide Prime, PrimesBelow;
    assert AllSifted(240, 241);
    NextPrime(239, 241);
    assert AllSifted(242, 251);
    NextPrime(241, 251);
    assert AllSifted(252, 257);
    NextPrime(251, 257);
    assert AllSifted(258, 263);
    NextPrime(257, 263);
  }

  lemma Primes56()
    requires PrimeAt(263, 55)
    ensures PrimeAt(269, 56) && PrimeAt(271, 57) && PrimeAt(277, 58) && PrimeAt(281, 59)
  {
    hide Prime, PrimesBelow;
    assert AllSifted(264, 269);
    NextPrime(263, 269);
    assert AllSifted(270, 271);
    NextPrime(269, 271);
    assert AllSifted(272, 277);
    NextPrime(271, 277);
    assert AllSifted(278, 281);
    NextPrime(277, 281);
  }

  lemma Primes60()
    requires PrimeAt(281, 59)
    ensures PrimeAt(283, 60) && PrimeAt(293, 61) && PrimeAt(307, 62) && PrimeAt(311, 63)
  {
    hide Prime, PrimesBelow;
    assert AllSifted(282, 283);
    NextPrime(281, 283);
    assert AllSifted(284, 293);
    NextPrime(283, 293);
    assert AllSifted(294, 307);
    NextPrime(293, 307);
    assert AllSifted(308, 311);
    NextPrime(307, 311);
  }

  // ---------------------------------------------------------------- their roots

  // The first 32 bits of the fractional part of the cube root of p.
  ghost predicate CubeRootBits(p: nat, bits: u32)
  {
    exists c: nat :: c * c * c <= p * 0x1_0000_0000_0000_0000_0000_0000 < (c + 1) * (c + 1) * (c + 1) && c % TWO32 == bits
  }

  ghost predicate SquareRootBits(p: nat, bits: u32)
  {
    exists c: nat :: c * c <= p * 0x1_0000_0000_0000_0000 < (c + 1) * (c + 1) && c % TWO32 == bits
  }

  lemma CubeRootIs(p: nat, c: nat, bits: u32)
    requires c * c * c <= p * 0x1_0000_0000_0000_0000_0000_0000 < (c + 1) * (c + 1) * (c + 1) && c % TWO32 == bits
    ensures CubeRootBits(p, bits)
  {
  }

  lemma SquareRootIs(p: nat, c: nat, bits: u32)
    requires c * c <= p * 0x1_0000_0000_0000_0000 < (c + 1) * (c + 1) && c % TWO32 == bits
    ensures SquareRootBits(p, bits)
  {
  }

  lemma Roots0()
    ensures CubeRootBits(2, K(0)) && CubeRootBits(3, K(1)) && CubeRootBits(5, K(2)) && CubeRootBits(7, K(3))
  {
    hide CubeRootBits;
    CubeRootIs(2, 0x1428a2f98, K(0));
    CubeRootIs(3, 0x171374491, K(1));
    CubeRootIs(5, 0x1b5c0fbcf, K(2));
    CubeRootIs(7, 0x1e9b5dba5, K(3));
  }

  lemma Roots4()
    ensures CubeRootBits(11, K(4)) && CubeRootBits(13, K(5)) && CubeRootBits(17, K(6)) && CubeRootBits(19, K(7))
  {
    hide CubeRootBits;
    CubeRootIs(11, 0x23956c25b, K(4));
    CubeRootIs(13, 0x259f111f1, K(5));
    CubeRootIs(17, 0x2923f82a4, K(6));
    CubeRootIs(19, 0x2ab1c5ed5, K(7));
  }

  lemma Roots8()
    ensures CubeRootBits(23, K(8)) && CubeRootBits(29, K(9)) && CubeRootBits(31, K(10)) && CubeRootBits(37, K(11))
  {
    hide CubeRootBits;
    CubeRootIs(23, 0x2d807aa98, K(8));
    CubeRootIs(29, 0x312835b01, K(9));
    CubeRootIs(31, 0x3243185be, K(10));
    CubeRootIs(37, 0x3550c7dc3, K(11));
  }

  lemma Roots12()
    ensures CubeRootBits(41, K(12)) && CubeRootBits(43, K(13)) && CubeRootBits(47, K(14)) && CubeRootBits(53, K(15))
  {
    hide CubeRootBits;
    CubeRootIs(41, 0x372be5d74, K(12));
    CubeRootIs(43, 0x380deb1fe, K(13));
    CubeRootIs(47, 0x39bdc06a7, K(14));
    CubeRootIs(53, 0x3c19bf174, K(15));
  }

  lemma Roots16()
    ensures CubeRootBits(59, K(16)) && CubeRootBits(61, K(17)) && CubeRootBits(67, K(18)) && CubeRootBits(71, K(19))
  {
    hide CubeRootBits;
    CubeRootIs(59, 0x3e49b69c1, K(16));
    CubeRootIs(61, 0x3efbe4786, K(17));
    CubeRootIs(67, 0x40fc19dc6, K(18));
    CubeRootIs(71, 0x4240ca1cc, K(19));
  }

  lemma Roots20()
    ensures CubeRootBits(73, K(20)) && CubeRootBits(79, K(21)) && CubeRootBits(83, K(22)) && CubeRootBits(89, K(23))
  {
    hide CubeRootBits;
    CubeRootIs(73, 0x42de92c6f, K(20));
    CubeRootIs(79, 0x44a7484aa, K(21));
    CubeRootIs(83, 0x45cb0a9dc, K(22));
    CubeRootIs(89, 0x476f988da, K(23));
  }

  lemma Roots24()
    ensures CubeRootBits(97, K(24)) && CubeRootBits(101, K(25)) && CubeRootBits(103, K(26)) && CubeRootBits(107, K(27))
  {
    hide CubeRootBits;
    CubeRootIs(97, 0x4983e5152, K(24));
    CubeRootIs(101, 0x4a831c66d, K(25));
    CubeRootIs(103, 0x4b00327c8, K(26));
    CubeRootIs(107, 0x4bf597fc7, K(27));
  }

  lemma Roots28()
    ensures CubeRootBits(109, K(28)) && CubeRootBits(113, K(29)) && CubeRootBits(127, K(30)) && CubeRootBits(131, K(31))
  {
    hide CubeRootBits;
    CubeRootIs(109, 0x4c6e00bf3, K(28));
    CubeRootIs(113, 0x4d5a79147, K(29));
    CubeRootIs(127, 0x506ca6351, K(30));
    CubeRootIs(131, 0x514292967, K(31));
  }

  lemma Roots32()
    ensures CubeRootBits(137, K(32)) && CubeRootBits(139, K(33)) && CubeRootBits(149, K(34)) && CubeRootBits(151, K(35))
  {
    hide CubeRootBits;
    CubeRootIs(137, 0x527b70a85, K(32));
    CubeRootIs(139, 0x52e1b2138, K(33));
    CubeRootIs(149, 0x54d2c6dfc, K(34));
    CubeRootIs(151, 0x553380d13, K(35));
  }

  lemma Roots36()
    ensures CubeRootBits(157, K(36)) && CubeRootBits(163, K(37)) && CubeRootBits(167, K(38)) && CubeRootBits(173, K(39))
  {
    hide CubeRootBits;
    CubeRootIs(157, 0x5650a7354, K(36));
    CubeRootIs(163, 0x5766a0abb, K(37));
    CubeRootIs(167, 0x581c2c92e, K(38));
    CubeRootIs(173, 0x592722c85, K(39));
  }

  lemma Roots40()
    ensures CubeRootBits(179, K(40)) && CubeRootBits(181, K(41)) && CubeRootBits(191, K(42)) && CubeRootBits(193, K(43))
  {
    hide CubeRootBits;
    CubeRootIs(179, 0x5a2bfe8a1, K(40));
    CubeRootIs(181, 0x5a81a664b, K(41));
    CubeRootIs(191, 0x5c24b8b70, K(42));
    CubeRootIs(193, 0x5c76c51a3, K(43));
  }

  lemma Roots44()
    ensures CubeRootBits(197, K(44)) && CubeRootBits(199, K(45)) && CubeRootBits(211, K(46)) && CubeRootBits(223, K(47))
  {
    hide CubeRootBits;
    CubeRootIs(197, 0x5d192e819, K(44));
    CubeRootIs(199, 0x5d6990624, K(45));
    CubeRootIs(211, 0x5f40e3585, K(46));
    CubeRootIs(223, 0x6106aa070, K(47));
  }

  lemma Roots48()
    ensures CubeRootBits(227, K(48)) && CubeRootBits(229, K(49)) && CubeRootBits(233, K(50)) && CubeRootBits(239, K(51))
  {
    hide CubeRootBits;
    CubeRootIs(227, 0x619a4c116, K(48));
    CubeRootIs(229, 0x61e376c08, K(49));
    CubeRootIs(233, 0x62748774c, K(50));
    CubeRootIs(239, 0x634b0bcb5, K(51));
  }

  lemma Roots52()
    ensures CubeRootBits(241, K(52)) && CubeRootBits(251, K(53)) && CubeRootBits(257, K(54)) && CubeRootBits(263, K(55))
  {
    hide CubeRootBits;
    CubeRootIs(241, 0x6391c0cb3, K(52));
    CubeRootIs(251, 0x64ed8aa4a, K(53));
    CubeRootIs(257, 0x65b9cca4f, K(54));
    CubeRootIs(263, 0x6682e6ff3, K(55));
  }

  lemma Roots56()
    ensures CubeRootBits(269, K(56)) && CubeRootBits(271, K(57)) && CubeRootBits(277, K(58)) && CubeRootBits(281, K(59))
  {
    hide CubeRootBits;
    CubeRootIs(269, 0x6748f82ee, K(56));
    CubeRootIs(271, 0x678a5636f, K(57));
    CubeRootIs(277, 0x684c87814, K(58));
    CubeRootIs(281, 0x68cc70208, K(59));
  }

  lemma Roots60()
    ensures CubeRootBits(283, K(60)) && CubeRootBits(293, K(61)) && CubeRootBits(307, K(62)) && CubeRootBits(311, K(63))
  {
    hide CubeRootBits;
    CubeRootIs(283, 0x690befffa, K(60));
    CubeRootIs(293, 0x6a4506ceb, K(61));
    CubeRootIs(307, 0x6bef9a3f7, K(62));
    CubeRootIs(311, 0x6c67178f2, K(63));
  }

  // Section 4.2.2: constant t is made of the first 32 bits of the fractional part of the cube root of prime t.
  lemma RoundConstants(t: nat) returns (p: nat)
    requires t < 64
    ensures PrimeAt(p, t) && CubeRootBits(p, K(t))
  {
    hide PrimeAt, CubeRootBits, K;
    Primes0();
    Roots0();
    Primes4();
    Roots4();
    Primes8();
    Roots8();
    Primes12();
    Roots12();
    Primes16();
    Roots16();
    Primes20();
    Roots20();
    Primes24();
    Roots24();
    Primes28();
    Roots28();
    Primes32();
    Roots32();
    Primes36();
    Roots36();
    Primes40();
    Roots40();
    Primes44();
    Roots44();
    Primes48();
    Roots48();
    Primes52();
    Roots52();
    Primes56();
    Roots56();
    Primes60();
    Roots60();
    match t
    case 0 => p := 2; case 1 => p := 3; case 2 => p := 5; case 3 => p := 7; case 4 => p := 11; case 5 => p := 13;
    case 6 => p := 17; case 7 => p := 19; case 8 => p := 23; case 9 => p := 29; case 10 => p := 31; case 11 => p := 37;
    case 12 => p := 41; case 13 => p := 43; case 14 => p := 47; case 15 => p := 53; case 16 => p := 59; case 17 => p := 61;
    case 18 => p := 67; case 19 => p := 71; case 20 => p := 73; case 21 => p := 79; case 22 => p := 83; case 23 => p := 89;
    case 24 => p := 97; case 25 => p := 101; case 26 => p := 103; case 27 => p := 107; case 28 => p := 109; case 29 => p := 113;
    case 30 => p := 127; case 31 => p := 131; case 32 => p := 137; case 33 => p := 139; case 34 => p := 149; case 35 => p := 151;
    case 36 => p := 157; case 37 => p := 163; case 38 => p := 167; case 39 => p := 173; case 40 => p := 179; case 41 => p := 181;
    case 42 => p := 191; case 43 => p := 193; case 44 => p := 197; case 45 => p := 199; case 46 => p := 211; case 47 => p := 223;
    case 48 => p := 227; case 49 => p := 229; case 50 => p := 233; case 51 => p := 239; case 52 => p := 241; case 53 => p := 251;
    case 54 => p := 257; case 55 => p := 263; case 56 => p := 269; case 57 => p := 271; case 58 => p := 277; case 59 => p := 281;
    case 60 => p := 283; case 61 => p := 293; case 62 => p := 307; case 63 => p := 311;
  }

  // Section 5.3.3: the initial values are those of the square roots of the first eight primes.
  lemma InitialValues()
    ensures PrimeAt(2, 0) && PrimeAt(3, 1) && PrimeAt(5, 2) && PrimeAt(7, 3)
    ensures PrimeAt(11, 4) && PrimeAt(13, 5) && PrimeAt(17, 6) && PrimeAt(19, 7)
    ensures SquareRootBits(2, IV.a) && SquareRootBits(3, IV.b) && SquareRootBits(5, IV.c) && SquareRootBits(7, IV.d)
    ensures SquareRootBits(11, IV.e) && SquareRootBits(13, IV.f) && SquareRootBits(17, IV.g) && SquareRootBits(19, IV.h)
  {
    hide PrimeAt, SquareRootBits;
    Primes0();
    Primes4();
    SquareRootIs(2, 0x16a09e667, IV.a);
    SquareRootIs(3, 0x1bb67ae85, IV.b);
    SquareRootIs(5, 0x23c6ef372, IV.c);
    SquareRootIs(7, 0x2a54ff53a, IV.d);
    SquareRootIs(11, 0x3510e527f, IV.e);
    SquareRootIs(13, 0x39b05688c, IV.f);
    SquareRootIs(17, 0x41f83d9ab, IV.g);
    SquareRootIs(19, 0x45be0cd19, IV.h);
  }
}
