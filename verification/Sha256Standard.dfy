/**
 SHA-256 as FIPS 180-4 defines it, from bits and sums, and the proof that the digest of the hasher is that. The
 constants are the ones that `Sha256Constants` derives from roots of primes.
 */
module Sha256Standard {
  import opened Bits
  import opened Powers
  import S = Sha256
  import opened Sha256Meaning
  import opened Utf8

  const LIMIT := 0x1_0000_0000

  // ---- the definition ----

  /** The number with these bits. */
  function FromBits(bit: nat -> bool, n: nat): (x: nat)
    ensures x < Pow2(n)
  {
    if n == 0 then 0 else FromBits(bit, n - 1) + if bit(n - 1) then Pow2(n - 1) else 0
  }

  function Word(bit: nat -> bool): nat {
    FromBits(bit, 32)
  }

  /** Section 4.1.2, equation 4.2. */
  function Ch(x: nat, y: nat, z: nat): nat {
    Word((b: nat) => if HasBit(x, b) then HasBit(y, b) else HasBit(z, b))
  }

  /** Equation 4.3. */
  function Maj(x: nat, y: nat, z: nat): nat {
    Word((b: nat) => if HasBit(x, b) == HasBit(y, b) then HasBit(x, b) else HasBit(z, b))
  }

  /** Equations 4.4 and 4.5: three rotations. */
  function Rotated(x: nat, r: nat, s: nat, t: nat): nat {
    Word((b: nat) => Odd(HasBit(x, (b + r) % 32), HasBit(x, (b + s) % 32), HasBit(x, (b + t) % 32)))
  }

  /** Equations 4.6 and 4.7: two rotations and a shift. */
  function Shifted(x: nat, r: nat, s: nat, t: nat): nat {
    Word((b: nat) => Odd(HasBit(x, (b + r) % 32), HasBit(x, (b + s) % 32), HasBit(x, b + t)))
  }

  /** Section 6.2.2, step 1. */
  function W(block: seq<Byte>, t: nat): nat
    requires |block| == 64 && t < 64
  {
    if t < 16 then BigEndian(block[4 * t..4 * t + 4])
    else
      var sum := Shifted(W(block, t - 2), 17, 19, 10) + W(block, t - 7) + Shifted(W(block, t - 15), 7, 18, 3);
      (sum + W(block, t - 16)) % LIMIT
  }

  /** Step 3, for one t. */
  function Step(v: S.Hash, k: nat, w: nat): S.Hash {
    var t1 := v.h + Rotated(v.e, 6, 11, 25) + Ch(v.e, v.f, v.g) + k + w;
    var t2 := Rotated(v.a, 2, 13, 22) + Maj(v.a, v.b, v.c);
    S.Hash((t1 + t2) % LIMIT, v.a, v.b, v.c, (v.d + t1) % LIMIT, v.e, v.f, v.g)
  }

  function Steps(v: S.Hash, block: seq<Byte>, t: nat): S.Hash
    requires |block| == 64 && t <= 64
  {
    if t == 0 then v else Step(Steps(v, block, t - 1), S.K[t - 1], W(block, t - 1))
  }

  /** Step 4. */
  function Next(v: S.Hash, block: seq<Byte>): S.Hash
    requires |block| == 64
  {
    var u := Steps(v, block, 64);
    S.Hash((v.a + u.a) % LIMIT, (v.b + u.b) % LIMIT, (v.c + u.c) % LIMIT, (v.d + u.d) % LIMIT,
           (v.e + u.e) % LIMIT, (v.f + u.f) % LIMIT, (v.g + u.g) % LIMIT, (v.h + u.h) % LIMIT)
  }

  /** The hash value after the first `n` blocks. */
  function Value(padded: seq<Byte>, n: nat): S.Hash
    requires 64 * n <= |padded|
  {
    if n == 0 then S.INITIAL else Next(Value(padded, n - 1), padded[64 * (n - 1)..64 * n])
  }

  /** The lowest `count` bytes of a number, most significant first. */
  function Digits(n: nat, count: nat): (bytes: seq<Byte>)
    ensures |bytes| == count
  {
    if count == 0 then [] else Digits(n / 0x100, count - 1) + [n % 0x100]
  }

  /** Section 5.1.1 in bytes: zeros that leave eight bytes in the last block, and the number of bits modulo 2^64. */
  function Padded(message: seq<Byte>): seq<Byte> {
    message + [0x80] + seq((55 - |message|) % 64, _ => 0) + Digits(8 * |message| % 0x1_0000_0000_0000_0000, 8)
  }

  function Digest(message: seq<Byte>): seq<Byte> {
    var padded := Padded(message);
    var v := Value(padded, |padded| / 64);
    Digits(v.a, 4) + Digits(v.b, 4) + Digits(v.c, 4) + Digits(v.d, 4)
    + Digits(v.e, 4) + Digits(v.f, 4) + Digits(v.g, 4) + Digits(v.h, 4)
  }

  // ---- the hasher meets it ----

  lemma {:induction false} FromBitsBit(bit: nat -> bool, n: nat, b: nat)
    requires b < n
    ensures HasBit(FromBits(bit, n), b) <==> bit(b)
  {
    var x := FromBits(bit, n - 1);
    TopBit(x, n - 1, b);
    if b < n - 1 {
      FromBitsBit(bit, n - 1, b);
    }
  }

  /** A word with these bits is that number. */
  lemma IsWord(x: nat, bit: nat -> bool)
    requires x < LIMIT && forall b: nat | b < 32 :: HasBit(x, b) <==> bit(b)
    ensures x == Word(bit)
  {
    hide FromBits, HasBit, Pow2;
    Power32();
    forall b: nat | b < 32 ensures HasBit(x, b) <==> HasBit(Word(bit), b) {
      FromBitsBit(bit, 32, b);
    }
    WordOfBits(x, Word(bit));
  }

  lemma {:induction false} BitwiseBound(gate: S.Gate, x: nat, y: nat, n: nat)
    ensures S.Bitwise(gate, x, y, n) < Pow2(n)
  {
    if n > 0 {
      BitwiseBound(gate, x / 2, y / 2, n - 1);
    }
  }

  lemma XorBound(x: nat, y: nat)
    ensures S.Xor(x, y) < LIMIT
  {
    hide S.Bitwise, Pow2;
    Power32();
    BitwiseBound(S.XorGate, x, y, 32);
  }

  lemma ChoiceIs(x: nat, y: nat, z: nat)
    ensures S.Choice(x, y, z) == Ch(x, y, z)
  {
    hide HasBit, S.Xor, S.And, S.Not, Word;
    XorBound(S.And(x, y), S.And(S.Not(x), z));
    forall b: nat | b < 32
      ensures HasBit(S.Choice(x, y, z), b) <==> if HasBit(x, b) then HasBit(y, b) else HasBit(z, b)
    {
      ChoiceBit(x, y, z, b);
    }
    IsWord(S.Choice(x, y, z), (b: nat) => if HasBit(x, b) then HasBit(y, b) else HasBit(z, b));
  }

  lemma MajorityIs(x: nat, y: nat, z: nat)
    ensures S.Majority(x, y, z) == Maj(x, y, z)
  {
    hide HasBit, S.Xor, S.And, Word;
    XorBound(S.Xor(S.And(x, y), S.And(x, z)), S.And(y, z));
    forall b: nat | b < 32
      ensures HasBit(S.Majority(x, y, z), b) <==> if HasBit(x, b) == HasBit(y, b) then HasBit(x, b) else HasBit(z, b)
    {
      MajorityBit(x, y, z, b);
    }
    IsWord(S.Majority(x, y, z), (b: nat) => if HasBit(x, b) == HasBit(y, b) then HasBit(x, b) else HasBit(z, b));
  }

  lemma BigSigmasAre(x: nat)
    requires x < LIMIT
    ensures S.BigSigma0(x) == Rotated(x, 2, 13, 22) && S.BigSigma1(x) == Rotated(x, 6, 11, 25)
  {
    hide HasBit, S.Xor, S.RotateRight, Word;
    XorBound(S.Xor(S.RotateRight(x, 2), S.RotateRight(x, 13)), S.RotateRight(x, 22));
    XorBound(S.Xor(S.RotateRight(x, 6), S.RotateRight(x, 11)), S.RotateRight(x, 25));
    forall b: nat | b < 32
      ensures HasBit(S.BigSigma0(x), b)
         <==> Odd(HasBit(x, (b + 2) % 32), HasBit(x, (b + 13) % 32), HasBit(x, (b + 22) % 32))
      ensures HasBit(S.BigSigma1(x), b)
         <==> Odd(HasBit(x, (b + 6) % 32), HasBit(x, (b + 11) % 32), HasBit(x, (b + 25) % 32))
    {
      BigSigmaBits(x, b);
    }
    IsWord(S.BigSigma0(x),
           (b: nat) => Odd(HasBit(x, (b + 2) % 32), HasBit(x, (b + 13) % 32), HasBit(x, (b + 22) % 32)));
    IsWord(S.BigSigma1(x),
           (b: nat) => Odd(HasBit(x, (b + 6) % 32), HasBit(x, (b + 11) % 32), HasBit(x, (b + 25) % 32)));
  }

  lemma SmallSigmasAre(x: nat)
    requires x < LIMIT
    ensures S.SmallSigma0(x) == Shifted(x, 7, 18, 3) && S.SmallSigma1(x) == Shifted(x, 17, 19, 10)
  {
    hide HasBit, S.Xor, S.RotateRight, S.ShiftRight, Word;
    XorBound(S.Xor(S.RotateRight(x, 7), S.RotateRight(x, 18)), S.ShiftRight(x, 3));
    XorBound(S.Xor(S.RotateRight(x, 17), S.RotateRight(x, 19)), S.ShiftRight(x, 10));
    forall b: nat | b < 32
      ensures HasBit(S.SmallSigma0(x), b)
         <==> Odd(HasBit(x, (b + 7) % 32), HasBit(x, (b + 18) % 32), HasBit(x, b + 3))
      ensures HasBit(S.SmallSigma1(x), b)
         <==> Odd(HasBit(x, (b + 17) % 32), HasBit(x, (b + 19) % 32), HasBit(x, b + 10))
    {
      SmallSigmaBits(x, b);
    }
    IsWord(S.SmallSigma0(x), (b: nat) => Odd(HasBit(x, (b + 7) % 32), HasBit(x, (b + 18) % 32), HasBit(x, b + 3)));
    IsWord(S.SmallSigma1(x), (b: nat) => Odd(HasBit(x, (b + 17) % 32), HasBit(x, (b + 19) % 32), HasBit(x, b + 10)));
  }

  lemma {:induction false} ScheduleIs(block: seq<Byte>, t: nat)
    requires |block| == 64 && t < 64
    ensures S.Schedule(block, t) == W(block, t) < LIMIT
  {
    hide S.SmallSigma0, S.SmallSigma1, Shifted, S.ScheduleStep, BigEndian, S.WordAt;
    if t < 16 {
      WordOfBlock(block, t);
      FourBytesBound(block, t);
    } else {
      ScheduleIs(block, t - 2);
      ScheduleIs(block, t - 7);
      ScheduleIs(block, t - 15);
      ScheduleIs(block, t - 16);
      SmallSigmasAre(W(block, t - 2));
      SmallSigmasAre(W(block, t - 15));
      ScheduleSum(W(block, t - 16), W(block, t - 15), W(block, t - 7), W(block, t - 2));
    }
  }

  lemma FourBytesBound(block: seq<Byte>, t: nat)
    requires |block| == 64 && t < 16
    ensures S.WordAt(block, t) < LIMIT
  {
  }

  predicate Words(v: S.Hash) {
    && v.a < LIMIT && v.b < LIMIT && v.c < LIMIT && v.d < LIMIT
    && v.e < LIMIT && v.f < LIMIT && v.g < LIMIT && v.h < LIMIT
  }

  lemma StepIs(v: S.Hash, k: nat, w: nat)
    requires Words(v)
    ensures S.Round(v, k, w) == Step(v, k, w) && Words(Step(v, k, w))
  {
    hide S.Round, S.BigSigma0, S.BigSigma1, S.Choice, S.Majority, Rotated, Ch, Maj;
    RoundSums(v, k, w);
    BigSigmasAre(v.a);
    BigSigmasAre(v.e);
    ChoiceIs(v.e, v.f, v.g);
    MajorityIs(v.a, v.b, v.c);
  }

  lemma {:induction false} StepsAre(v: S.Hash, block: seq<Byte>, t: nat)
    requires |block| == 64 && t <= 64 && Words(v)
    ensures S.Rounds(v, block, t) == Steps(v, block, t) && Words(Steps(v, block, t))
  {
    hide S.Round, Step, W, S.Schedule, Words;
    if t > 0 {
      StepsAre(v, block, t - 1);
      ScheduleIs(block, t - 1);
      StepIs(Steps(v, block, t - 1), S.K[t - 1], W(block, t - 1));
    }
  }

  lemma NextIs(v: S.Hash, block: seq<Byte>)
    requires |block| == 64 && Words(v)
    ensures S.Compress(v, block) == Next(v, block) && Words(Next(v, block))
  {
    hide S.Rounds, Steps, S.Add;
    StepsAre(v, block, 64);
    var u := Steps(v, block, 64);
    SumIs(v.a, u.a);
    SumIs(v.b, u.b);
    SumIs(v.c, u.c);
    SumIs(v.d, u.d);
    SumIs(v.e, u.e);
    SumIs(v.f, u.f);
    SumIs(v.g, u.g);
    SumIs(v.h, u.h);
  }

  lemma {:induction false} ValueIs(padded: seq<Byte>, n: nat)
    requires 64 * n <= |padded|
    ensures |padded[..64 * n]| % 64 == 0 && S.Absorb(padded[..64 * n]) == Value(padded, n) && Words(Value(padded, n))
  {
    hide S.Compress, Next;
    var whole := padded[..64 * n];
    if n > 0 {
      ValueIs(padded, n - 1);
      assert whole[..64 * (n - 1)] == padded[..64 * (n - 1)];
      assert whole[64 * (n - 1)..] == padded[64 * (n - 1)..64 * n];
      NextIs(Value(padded, n - 1), padded[64 * (n - 1)..64 * n]);
    }
  }

  lemma {:induction false} DigitsAt(n: nat, count: nat, i: nat)
    requires i < count
    ensures Digits(n, count)[i] == S.ShiftBytes(n, count - 1 - i) % 0x100
  {
    if i < count - 1 {
      DigitsAt(n / 0x100, count - 1, i);
      ShiftInside(n, count - 2 - i);
    }
  }

  lemma {:induction false} ShiftInside(n: nat, k: nat)
    ensures S.ShiftBytes(n / 0x100, k) == S.ShiftBytes(n, k + 1)
  {
    if k > 0 {
      ShiftInside(n, k - 1);
    }
  }

  lemma LengthIs(bits: nat)
    ensures S.LengthBytes(bits) == Digits(bits, 8)
  {
    hide Digits, S.ShiftBytes;
    forall i: nat | i < 8 ensures S.LengthBytes(bits)[i] == Digits(bits, 8)[i] {
      DigitsAt(bits, 8, i);
    }
  }

  lemma PaddedIs(message: seq<Byte>)
    ensures S.Pad(message) == Padded(message)
  {
    hide Digits, S.LengthBytes;
    LengthIs(|message| * 8 % S.WORD64);
    ZerosAre(|message|);
  }

  lemma ZerosAre(length: nat)
    ensures S.Zeros(S.PadZeros(length)) == seq((55 - length) % 64, _ => 0)
  {
  }

  lemma WordBytesAre(w: nat)
    ensures S.WordBytes(w) == Digits(w, 4)
  {
    hide Digits;
    DigitsAt(w, 4, 0);
    DigitsAt(w, 4, 1);
    DigitsAt(w, 4, 2);
    DigitsAt(w, 4, 3);
  }

  /** The digest of the hasher is the one of the standard, for every message. */
  lemma DigestIsStandard(message: seq<Byte>)
    ensures S.Digest(message) == Digest(message)
  {
    hide S.Pad, Padded, S.Absorb, Value, S.WordBytes, Digits;
    PaddedIs(message);
    var padded := Padded(message);
    var n := |padded| / 64;
    ValueIs(padded, n);
    assert padded[..64 * n] == padded;
    var v := Value(padded, n);
    WordBytesAre(v.a);
    WordBytesAre(v.b);
    WordBytesAre(v.c);
    WordBytesAre(v.d);
    WordBytesAre(v.e);
    WordBytesAre(v.f);
    WordBytesAre(v.g);
    WordBytesAre(v.h);
  }
}
