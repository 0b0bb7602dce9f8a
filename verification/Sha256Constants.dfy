/** Where the constants of SHA-256 come from (sections 4.2.2 and 5.3.3 of FIPS 180-4). */
module Sha256Constants {
  import opened Powers
  import opened Sha256
  import opened Sha256Meaning

  predicate Divides(d: nat, n: nat)
    requires d > 0
  {
    n % d == 0
  }

  ghost predicate IsPrime(n: nat) {
    n >= 2 && forall d: nat | 2 <= d < n :: !Divides(d, n)
  }

  /** The first 64 primes, in four parts. */
  const PRIMES_0: seq<nat> := [
    2, 3, 5, 7, 11, 13, 17, 19, 23, 29, 31, 37, 41, 43, 47, 53]

  const PRIMES_16: seq<nat> := [
    59, 61, 67, 71, 73, 79, 83, 89, 97, 101, 103, 107, 109, 113, 127, 131]

  const PRIMES_32: seq<nat> := [
    137, 139, 149, 151, 157, 163, 167, 173, 179, 181, 191, 193, 197, 199, 211, 223]

  const PRIMES_48: seq<nat> := [
    227, 229, 233, 239, 241, 251, 257, 263, 269, 271, 277, 281, 283, 293, 307, 311]

  const PRIMES: seq<nat> := PRIMES_0 + PRIMES_16 + PRIMES_32 + PRIMES_48

  /** `k` is the first 32 bits of the fraction of the cube root of `p`. */
  ghost predicate CubeRootBits(p: nat, k: nat) {
    k < WORD_LIMIT && exists whole: nat :: CubeBetween(p, whole * WORD_LIMIT + k)
  }

  predicate CubeBetween(p: nat, root: nat) {
    root * root * root <= p * 0x1_0000_0000_0000_0000_0000_0000 < (root + 1) * (root + 1) * (root + 1)
  }

  /** The same of the square root. */
  ghost predicate SquareRootBits(p: nat, k: nat) {
    k < WORD_LIMIT && exists whole: nat :: SquareBetween(p, whole * WORD_LIMIT + k)
  }

  predicate SquareBetween(p: nat, root: nat) {
    root * root <= p * 0x1_0000_0000_0000_0000 < (root + 1) * (root + 1)
  }

  ghost predicate ConstantOk(t: nat) {
    |PRIMES| == |K| == 64 && t < 64 && CubeRootBits(PRIMES[t], K[t])
  }

  lemma CubeRoot(p: nat, whole: nat, k: nat)
    requires k < WORD_LIMIT && CubeBetween(p, whole * WORD_LIMIT + k)
    ensures CubeRootBits(p, k)
  {
  }

  lemma RoundConstants0()
    ensures ConstantOk(0)
    ensures ConstantOk(1)
    ensures ConstantOk(2)
    ensures ConstantOk(3)
  {
    CubeRoot(2, 1, 0x428a2f98);
    CubeRoot(3, 1, 0x71374491);
    CubeRoot(5, 1, 0xb5c0fbcf);
    CubeRoot(7, 1, 0xe9b5dba5);
  }

  lemma RoundConstants4()
    ensures ConstantOk(4)
    ensures ConstantOk(5)
    ensures ConstantOk(6)
    ensures ConstantOk(7)
  {
    CubeRoot(11, 2, 0x3956c25b);
    CubeRoot(13, 2, 0x59f111f1);
    CubeRoot(17, 2, 0x923f82a4);
    CubeRoot(19, 2, 0xab1c5ed5);
  }

  lemma RoundConstants8()
    ensures ConstantOk(8)
    ensures ConstantOk(9)
    ensures ConstantOk(10)
    ensures ConstantOk(11)
  {
    CubeRoot(23, 2, 0xd807aa98);
    CubeRoot(29, 3, 0x12835b01);
    CubeRoot(31, 3, 0x243185be);
    CubeRoot(37, 3, 0x550c7dc3);
  }

  lemma RoundConstants12()
    ensures ConstantOk(12)
    ensures ConstantOk(13)
    ensures ConstantOk(14)
    ensures ConstantOk(15)
  {
    CubeRoot(41, 3, 0x72be5d74);
    CubeRoot(43, 3, 0x80deb1fe);
    CubeRoot(47, 3, 0x9bdc06a7);
    CubeRoot(53, 3, 0xc19bf174);
  }

  lemma RoundConstants16()
    ensures ConstantOk(16)
    ensures ConstantOk(17)
    ensures ConstantOk(18)
    ensures ConstantOk(19)
  {
    CubeRoot(59, 3, 0xe49b69c1);
    CubeRoot(61, 3, 0xefbe4786);
    CubeRoot(67, 4, 0x0fc19dc6);
    CubeRoot(71, 4, 0x240ca1cc);
  }

  lemma RoundConstants20()
    ensures ConstantOk(20)
    ensures ConstantOk(21)
    ensures ConstantOk(22)
    ensures ConstantOk(23)
  {
    CubeRoot(73, 4, 0x2de92c6f);
    CubeRoot(79, 4, 0x4a7484aa);
    CubeRoot(83, 4, 0x5cb0a9dc);
    CubeRoot(89, 4, 0x76f988da);
  }

  lemma RoundConstants24()
    ensures ConstantOk(24)
    ensures ConstantOk(25)
    ensures ConstantOk(26)
    ensures ConstantOk(27)
  {
    CubeRoot(97, 4, 0x983e5152);
    CubeRoot(101, 4, 0xa831c66d);
    CubeRoot(103, 4, 0xb00327c8);
    CubeRoot(107, 4, 0xbf597fc7);
  }

  lemma RoundConstants28()
    ensures ConstantOk(28)
    ensures ConstantOk(29)
    ensures ConstantOk(30)
    ensures ConstantOk(31)
  {
    CubeRoot(109, 4, 0xc6e00bf3);
    CubeRoot(113, 4, 0xd5a79147);
    CubeRoot(127, 5, 0x06ca6351);
    CubeRoot(131, 5, 0x14292967);
  }

  lemma RoundConstants32()
    ensures ConstantOk(32)
    ensures ConstantOk(33)
    ensures ConstantOk(34)
    ensures ConstantOk(35)
  {
    CubeRoot(137, 5, 0x27b70a85);
    CubeRoot(139, 5, 0x2e1b2138);
    CubeRoot(149, 5, 0x4d2c6dfc);
    CubeRoot(151, 5, 0x53380d13);
  }

  lemma RoundConstants36()
    ensures ConstantOk(36)
    ensures ConstantOk(37)
    ensures ConstantOk(38)
    ensures ConstantOk(39)
  {
    CubeRoot(157, 5, 0x650a7354);
    CubeRoot(163, 5, 0x766a0abb);
    CubeRoot(167, 5, 0x81c2c92e);
    CubeRoot(173, 5, 0x92722c85);
  }

  lemma RoundConstants40()
    ensures ConstantOk(40)
    ensures ConstantOk(41)
    ensures ConstantOk(42)
    ensures ConstantOk(43)
  {
    CubeRoot(179, 5, 0xa2bfe8a1);
    CubeRoot(181, 5, 0xa81a664b);
    CubeRoot(191, 5, 0xc24b8b70);
    CubeRoot(193, 5, 0xc76c51a3);
  }

  lemma RoundConstants44()
    ensures ConstantOk(44)
    ensures ConstantOk(45)
    ensures ConstantOk(46)
    ensures ConstantOk(47)
  {
    CubeRoot(197, 5, 0xd192e819);
    CubeRoot(199, 5, 0xd6990624);
    CubeRoot(211, 5, 0xf40e3585);
    CubeRoot(223, 6, 0x106aa070);
  }

  lemma RoundConstants48()
    ensures ConstantOk(48)
    ensures ConstantOk(49)
    ensures ConstantOk(50)
    ensures ConstantOk(51)
  {
    CubeRoot(227, 6, 0x19a4c116);
    CubeRoot(229, 6, 0x1e376c08);
    CubeRoot(233, 6, 0x2748774c);
    CubeRoot(239, 6, 0x34b0bcb5);
  }

  lemma RoundConstants52()
    ensures ConstantOk(52)
    ensures ConstantOk(53)
    ensures ConstantOk(54)
    ensures ConstantOk(55)
  {
    CubeRoot(241, 6, 0x391c0cb3);
    CubeRoot(251, 6, 0x4ed8aa4a);
    CubeRoot(257, 6, 0x5b9cca4f);
    CubeRoot(263, 6, 0x682e6ff3);
  }

  lemma RoundConstants56()
    ensures ConstantOk(56)
    ensures ConstantOk(57)
    ensures ConstantOk(58)
    ensures ConstantOk(59)
  {
    CubeRoot(269, 6, 0x748f82ee);
    CubeRoot(271, 6, 0x78a5636f);
    CubeRoot(277, 6, 0x84c87814);
    CubeRoot(281, 6, 0x8cc70208);
  }

  lemma RoundConstants60()
    ensures ConstantOk(60)
    ensures ConstantOk(61)
    ensures ConstantOk(62)
    ensures ConstantOk(63)
  {
    CubeRoot(283, 6, 0x90befffa);
    CubeRoot(293, 6, 0xa4506ceb);
    CubeRoot(307, 6, 0xbef9a3f7);
    CubeRoot(311, 6, 0xc67178f2);
  }

  /** Section 4.2.2: the constants of the rounds are the fractions of the cube roots of the first 64 primes. */
  lemma RoundConstants(t: nat)
    requires t < 64
    ensures ConstantOk(t)
  {
    hide ConstantOk;
    if t < 4 {
      RoundConstants0();
    } else if t < 8 {
      RoundConstants4();
    } else if t < 12 {
      RoundConstants8();
    } else if t < 16 {
      RoundConstants12();
    } else if t < 20 {
      RoundConstants16();
    } else if t < 24 {
      RoundConstants20();
    } else if t < 28 {
      RoundConstants24();
    } else if t < 32 {
      RoundConstants28();
    } else if t < 36 {
      RoundConstants32();
    } else if t < 40 {
      RoundConstants36();
    } else if t < 44 {
      RoundConstants40();
    } else if t < 48 {
      RoundConstants44();
    } else if t < 52 {
      RoundConstants48();
    } else if t < 56 {
      RoundConstants52();
    } else if t < 60 {
      RoundConstants56();
    } else {
      RoundConstants60();
    }
  }

  lemma SquareRoot(p: nat, whole: nat, k: nat)
    requires k < WORD_LIMIT && SquareBetween(p, whole * WORD_LIMIT + k)
    ensures SquareRootBits(p, k)
  {
  }

  lemma InitialConstants0()
    ensures SquareRootBits(PRIMES[0], INITIAL.a) && SquareRootBits(PRIMES[1], INITIAL.b)
    ensures SquareRootBits(PRIMES[2], INITIAL.c) && SquareRootBits(PRIMES[3], INITIAL.d)
  {
    SquareRoot(2, 1, 0x6a09e667);
    SquareRoot(3, 1, 0xbb67ae85);
    SquareRoot(5, 2, 0x3c6ef372);
    SquareRoot(7, 2, 0xa54ff53a);
  }

  lemma InitialConstants4()
    ensures SquareRootBits(PRIMES[4], INITIAL.e) && SquareRootBits(PRIMES[5], INITIAL.f)
    ensures SquareRootBits(PRIMES[6], INITIAL.g) && SquareRootBits(PRIMES[7], INITIAL.h)
  {
    SquareRoot(11, 3, 0x510e527f);
    SquareRoot(13, 3, 0x9b05688c);
    SquareRoot(17, 4, 0x1f83d9ab);
    SquareRoot(19, 4, 0x5be0cd19);
  }

  /** Section 5.3.3: the initial hash is the fractions of the square roots of the first eight primes. */
  lemma InitialConstants()
    ensures SquareRootBits(PRIMES[0], INITIAL.a) && SquareRootBits(PRIMES[1], INITIAL.b)
    ensures SquareRootBits(PRIMES[2], INITIAL.c) && SquareRootBits(PRIMES[3], INITIAL.d)
    ensures SquareRootBits(PRIMES[4], INITIAL.e) && SquareRootBits(PRIMES[5], INITIAL.f)
    ensures SquareRootBits(PRIMES[6], INITIAL.g) && SquareRootBits(PRIMES[7], INITIAL.h)
  {
    hide SquareRootBits;
    InitialConstants0();
    InitialConstants4();
  }

  // ---- the primes ----

  predicate Small(p: nat) {
    p == 2 || p == 3 || p == 5 || p == 7 || p == 11 || p == 13 || p == 17
  }

  /** No prime up to 17 divides it, or it is one of them. */
  predicate Sifted(n: nat) {
    || Small(n)
    || (n > 17 && !Divides(2, n) && !Divides(3, n) && !Divides(5, n) && !Divides(7, n) && !Divides(11, n)
        && !Divides(13, n) && !Divides(17, n))
  }

  lemma DividesThrough(p: nat, a: nat, n: nat)
    requires p > 0 && a > 0 && Divides(p, a) && Divides(a, n)
    ensures Divides(p, n)
  {
    var q, r := n / a, a / p;
    assert n == a * q && a == p * r;
    assert n == r * q * p;
    Remainder(n, r * q, p, 0);
  }

  /** The smallest prime that divides a number up to 18. */
  function Least(a: nat): (p: nat)
    requires 2 <= a <= 18
    ensures Small(p) && Divides(p, a)
  {
    if a % 2 == 0 then 2 else if a % 3 == 0 then 3 else a
  }

  lemma DivisorPair(d: nat, n: nat)
    requires 2 <= d < n < 361 && Divides(d, n)
    ensures 2 <= n / d < n && Divides(n / d, n) && (d <= 18 || n / d <= 18)
  {
    var e := n / d;
    assert n == d * e;
    assert e == 0 ==> d * e == 0;
    assert e == 1 ==> d * e == d;
    Times(1, d, e);
    Remainder(n, d, e, 0);
    if d > 18 && e > 18 {
      TooLarge(d, e);
    }
  }

  lemma TooLarge(d: nat, e: nat)
    requires d > 18 && e > 18
    ensures d * e >= 361
  {
    Times(19, d, e);
  }

  lemma DivisorSifts(n: nat, d: nat)
    requires 2 <= d < n < 361 && Divides(d, n)
    ensures !Sifted(n)
  {
    DivisorPair(d, n);
    var a := if d <= 18 then d else n / d;
    DividesThrough(Least(a), a, n);
    if Small(n) {
      SmallHasNone(n, d);
    } else {
      hide Divides;
      assert Small(Least(a)) && Divides(Least(a), n);
    }
  }

  lemma SmallHasNone(n: nat, d: nat)
    requires Small(n) && 2 <= d < n
    ensures !Divides(d, n)
  {
  }

  /** Below 19 * 19 that decides. */
  lemma SiftedIsPrime(n: nat)
    requires 2 <= n < 361
    ensures IsPrime(n) <==> Sifted(n)
  {
    hide Divides, Sifted;
    if d: nat :| 2 <= d < n && Divides(d, n) {
      DivisorSifts(n, d);
    } else {
      NoneSifts(n);
    }
  }

  lemma NoneSifts(n: nat)
    requires 2 <= n && forall d: nat | 2 <= d < n :: !Divides(d, n)
    ensures Sifted(n)
  {
    if n <= 18 {
      assert n == Least(n);
    } else {
      hide Divides;
    }
  }

  predicate OneOf(n: nat, a: nat, b: nat, c: nat, d: nat) {
    n == a || n == b || n == c || n == d
  }

  lemma Sifted0(n: nat)
    ensures OneOf(n, 2, 3, 5, 7) <==> 1 < n <= 7 && Sifted(n)
  {
  }

  lemma Sifted4(n: nat)
    ensures OneOf(n, 11, 13, 17, 19) <==> 7 < n <= 19 && Sifted(n)
  {
  }

  lemma Sifted8(n: nat)
    ensures OneOf(n, 23, 29, 31, 37) <==> 19 < n <= 37 && Sifted(n)
  {
  }

  lemma Sifted12(n: nat)
    ensures OneOf(n, 41, 43, 47, 53) <==> 37 < n <= 53 && Sifted(n)
  {
  }

  lemma Sifted16(n: nat)
    ensures OneOf(n, 59, 61, 67, 71) <==> 53 < n <= 71 && Sifted(n)
  {
  }

  lemma Sifted20(n: nat)
    ensures OneOf(n, 73, 79, 83, 89) <==> 71 < n <= 89 && Sifted(n)
  {
  }

  lemma Sifted24(n: nat)
    ensures OneOf(n, 97, 101, 103, 107) <==> 89 < n <= 107 && Sifted(n)
  {
  }

  lemma Sifted28(n: nat)
    ensures OneOf(n, 109, 113, 127, 131) <==> 107 < n <= 131 && Sifted(n)
  {
  }

  lemma Sifted32(n: nat)
    ensures OneOf(n, 137, 139, 149, 151) <==> 131 < n <= 151 && Sifted(n)
  {
  }

  lemma Sifted36(n: nat)
    ensures OneOf(n, 157, 163, 167, 173) <==> 151 < n <= 173 && Sifted(n)
  {
  }

  lemma Sifted40(n: nat)
    ensures OneOf(n, 179, 181, 191, 193) <==> 173 < n <= 193 && Sifted(n)
  {
  }

  lemma Sifted44Low(n: nat)
    ensures n == 197 || n == 199 <==> 193 < n <= 199 && Sifted(n)
  {
  }

  lemma Sifted44High(n: nat)
    ensures n == 211 || n == 223 <==> 199 < n <= 223 && Sifted(n)
  {
  }

  lemma Sifted44(n: nat)
    ensures OneOf(n, 197, 199, 211, 223) <==> 193 < n <= 223 && Sifted(n)
  {
    hide Sifted;
    Sifted44Low(n);
    Sifted44High(n);
  }

  lemma Sifted48(n: nat)
    ensures OneOf(n, 227, 229, 233, 239) <==> 223 < n <= 239 && Sifted(n)
  {
  }

  lemma Sifted52Low(n: nat)
    ensures n == 241 || n == 251 <==> 239 < n <= 251 && Sifted(n)
  {
  }

  lemma Sifted52High(n: nat)
    ensures n == 257 || n == 263 <==> 251 < n <= 263 && Sifted(n)
  {
  }

  lemma Sifted52(n: nat)
    ensures OneOf(n, 241, 251, 257, 263) <==> 239 < n <= 263 && Sifted(n)
  {
    hide Sifted;
    Sifted52Low(n);
    Sifted52High(n);
  }

  lemma Sifted56(n: nat)
    ensures OneOf(n, 269, 271, 277, 281) <==> 263 < n <= 281 && Sifted(n)
  {
  }

  lemma Sifted60Low(n: nat)
    ensures n == 283 || n == 293 <==> 281 < n <= 293 && Sifted(n)
  {
  }

  lemma Sifted60High(n: nat)
    ensures n == 307 || n == 311 <==> 293 < n <= 311 && Sifted(n)
  {
  }

  lemma Sifted60(n: nat)
    ensures OneOf(n, 283, 293, 307, 311) <==> 281 < n <= 311 && Sifted(n)
  {
    hide Sifted;
    Sifted60Low(n);
    Sifted60High(n);
  }

  lemma Part0(n: nat)
    ensures n in PRIMES_0 <==> 1 < n <= 53 && Sifted(n)
  {
    hide Sifted;
    Sifted0(n);
    Sifted4(n);
    Sifted8(n);
    Sifted12(n);
    assert n in PRIMES_0 <==>
      || OneOf(n, 2, 3, 5, 7) || OneOf(n, 11, 13, 17, 19)
      || OneOf(n, 23, 29, 31, 37) || OneOf(n, 41, 43, 47, 53);
  }

  lemma Part16(n: nat)
    ensures n in PRIMES_16 <==> 53 < n <= 131 && Sifted(n)
  {
    hide Sifted;
    Sifted16(n);
    Sifted20(n);
    Sifted24(n);
    Sifted28(n);
    assert n in PRIMES_16 <==>
      || OneOf(n, 59, 61, 67, 71) || OneOf(n, 73, 79, 83, 89)
      || OneOf(n, 97, 101, 103, 107) || OneOf(n, 109, 113, 127, 131);
  }

  lemma Part32(n: nat)
    ensures n in PRIMES_32 <==> 131 < n <= 223 && Sifted(n)
  {
    hide Sifted;
    Sifted32(n);
    Sifted36(n);
    Sifted40(n);
    Sifted44(n);
    assert n in PRIMES_32 <==>
      || OneOf(n, 137, 139, 149, 151) || OneOf(n, 157, 163, 167, 173)
      || OneOf(n, 179, 181, 191, 193) || OneOf(n, 197, 199, 211, 223);
  }

  lemma Part48(n: nat)
    ensures n in PRIMES_48 <==> 223 < n <= 311 && Sifted(n)
  {
    hide Sifted;
    Sifted48(n);
    Sifted52(n);
    Sifted56(n);
    Sifted60(n);
    assert n in PRIMES_48 <==>
      || OneOf(n, 227, 229, 233, 239) || OneOf(n, 241, 251, 257, 263)
      || OneOf(n, 269, 271, 277, 281) || OneOf(n, 283, 293, 307, 311);
  }

  /** The table has every prime below 312, and nothing else. */
  lemma PrimesFound(n: nat)
    requires n < 312
    ensures n in PRIMES <==> IsPrime(n)
  {
    hide Sifted;
    Part0(n);
    Part16(n);
    Part32(n);
    Part48(n);
    assert n in PRIMES <==> n in PRIMES_0 || n in PRIMES_16 || n in PRIMES_32 || n in PRIMES_48;
    if n >= 2 {
      SiftedIsPrime(n);
    }
  }

  predicate Increasing(q: seq<nat>) {
    forall i | 0 <= i < |q| - 1 :: q[i] < q[i + 1]
  }

  lemma JoinIncreasing(a: seq<nat>, b: seq<nat>)
    requires Increasing(a) && Increasing(b) && a != [] && b != [] && a[|a| - 1] < b[0]
    ensures Increasing(a + b) && (a + b)[|a + b| - 1] == b[|b| - 1]
  {
  }

  lemma IncreasingParts()
    ensures Increasing(PRIMES_0) && Increasing(PRIMES_16) && Increasing(PRIMES_32) && Increasing(PRIMES_48)
  {
  }

  /** And it has them in order. */
  lemma PrimesInOrder()
    ensures |PRIMES| == 64 && Increasing(PRIMES)
  {
    hide Increasing;
    IncreasingParts();
    JoinIncreasing(PRIMES_0, PRIMES_16);
    JoinIncreasing(PRIMES_0 + PRIMES_16, PRIMES_32);
    JoinIncreasing(PRIMES_0 + PRIMES_16 + PRIMES_32, PRIMES_48);
  }
}
