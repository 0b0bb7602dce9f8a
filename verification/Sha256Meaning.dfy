/**
 What the parts of SHA-256 are, told bit by bit and number by number: the word functions of section 4.1.2 of FIPS 180-4,
 the constants of sections 4.2.2 and 5.3.3, the sums of section 6.2.2, and the order of the bytes.
 */
module Sha256Meaning {
  import opened Bits
  import opened Powers
  import opened Sha256
  import opened Utf8

  // ---- words, bit by bit ----

  predicate Gated(gate: Gate, x: bool, y: bool) {
    match gate
    case AndGate => x && y
    case XorGate => x != y
  }

  lemma {:induction false} BitwiseBit(gate: Gate, x: Word, y: Word, n: nat, b: nat)
    requires b < n
    ensures HasBit(Bitwise(gate, x, y, n), b) <==> Gated(gate, HasBit(x, b), HasBit(y, b))
  {
    if b > 0 {
      BitwiseBit(gate, x / 2, y / 2, n - 1, b - 1);
    }
  }

  lemma {:induction false} AllOnes(n: nat, b: nat)
    requires b < n
    ensures HasBit(Pow2(n) - 1, b)
  {
    if b > 0 {
      assert (Pow2(n) - 1) / 2 == Pow2(n - 1) - 1;
      AllOnes(n - 1, b - 1);
    } else {
      assert Pow2(n) == 2 * Pow2(n - 1);
    }
  }

  lemma Power32()
    ensures Pow2(32) == WORD_LIMIT
  {
    assert Pow2(8) == 0x100;
    Pow2Sum(8, 8);
    Pow2Sum(16, 16);
  }

  lemma NotBit(x: Word, b: nat)
    requires b < 32
    ensures HasBit(Not(x), b) <==> !HasBit(x, b)
  {
    Power32();
    AllOnes(32, b);
    BitwiseBit(XorGate, x, WORD_LIMIT - 1, 32, b);
  }

  /** Where the first word has a bit it chooses the second, elsewhere the third. */
  lemma ChoiceBit(x: Word, y: Word, z: Word, b: nat)
    requires b < 32
    ensures HasBit(Choice(x, y, z), b) <==> if HasBit(x, b) then HasBit(y, b) else HasBit(z, b)
  {
    NotBit(x, b);
    BitwiseBit(AndGate, x, y, 32, b);
    BitwiseBit(AndGate, Not(x), z, 32, b);
    BitwiseBit(XorGate, And(x, y), And(Not(x), z), 32, b);
  }

  /** The bit that at least two of the three words have. */
  lemma MajorityBit(x: Word, y: Word, z: Word, b: nat)
    requires b < 32
    ensures var count: nat :=
        (if HasBit(x, b) then 1 else 0) + (if HasBit(y, b) then 1 else 0) + (if HasBit(z, b) then 1 else 0);
      HasBit(Majority(x, y, z), b) <==> count >= 2
  {
    BitwiseBit(AndGate, x, y, 32, b);
    BitwiseBit(AndGate, x, z, 32, b);
    BitwiseBit(AndGate, y, z, 32, b);
    BitwiseBit(XorGate, And(x, y), And(x, z), 32, b);
    BitwiseBit(XorGate, Xor(And(x, y), And(x, z)), And(y, z), 32, b);
  }

  lemma {:induction false} ShiftBit(x: Word, n: nat, b: nat)
    ensures HasBit(ShiftRight(x, n), b) <==> HasBit(x, b + n)
  {
    if n > 0 {
      ShiftBit(x, n - 1, b + 1);
    }
  }

  lemma {:induction false} TopBit(x: nat, n: nat, b: nat)
    requires x < Pow2(n) && b <= n
    ensures !HasBit(x, n)
    ensures HasBit(x + Pow2(n), b) <==> b == n || HasBit(x, b)
  {
    NoBitBeyond(x, n, n);
    if b > 0 {
      assert Pow2(n) == 2 * Pow2(n - 1);
      assert (x + Pow2(n)) / 2 == x / 2 + Pow2(n - 1);
      TopBit(x / 2, n - 1, b - 1);
    } else if n > 0 {
      assert Pow2(n) == 2 * Pow2(n - 1);
    }
  }

  lemma RotateOnce(y: Word, b: nat)
    requires y < WORD_LIMIT && b < 32
    ensures RotateRight(y, 1) < WORD_LIMIT
    ensures HasBit(y / 2 + y % 2 * 0x8000_0000, b) <==> HasBit(y, (b + 1) % 32)
  {
    Power31();
    assert b < 31 ==> (HasBit(y, b + 1) <==> HasBit(y / 2, b));
    if y % 2 == 1 {
      TopBit(y / 2, 31, b);
      assert y / 2 + y % 2 * 0x8000_0000 == y / 2 + Pow2(31);
    } else if b == 31 {
      NoBitBeyond(y / 2, 31, 31);
    }
  }

  lemma Power31()
    ensures Pow2(31) == 0x8000_0000
  {
    Power32();
    assert Pow2(32) == 2 * Pow2(31);
  }

  lemma {:induction false} RotateBit(x: Word, n: nat, b: nat)
    requires x < WORD_LIMIT && n <= 32 && b < 32
    ensures RotateRight(x, n) < WORD_LIMIT
    ensures HasBit(RotateRight(x, n), b) <==> HasBit(x, (b + n) % 32)
  {
    hide HasBit;
    if n > 0 {
      RotateBit(x, n - 1, (b + 1) % 32);
      RotateOnce(RotateRight(x, n - 1), b);
      assert ((b + 1) % 32 + (n - 1)) % 32 == (b + n) % 32;
    }
  }

  predicate Odd(x: bool, y: bool, z: bool) {
    (x != y) != z
  }

  lemma XorThree(x: Word, y: Word, z: Word, b: nat)
    requires b < 32
    ensures HasBit(Xor(Xor(x, y), z), b) <==> Odd(HasBit(x, b), HasBit(y, b), HasBit(z, b))
  {
    BitwiseBit(XorGate, x, y, 32, b);
    BitwiseBit(XorGate, Xor(x, y), z, 32, b);
  }

  lemma BigSigmaBits(x: Word, b: nat)
    requires x < WORD_LIMIT && b < 32
    ensures HasBit(BigSigma0(x), b)
       <==> Odd(HasBit(x, (b + 2) % 32), HasBit(x, (b + 13) % 32), HasBit(x, (b + 22) % 32))
    ensures HasBit(BigSigma1(x), b)
       <==> Odd(HasBit(x, (b + 6) % 32), HasBit(x, (b + 11) % 32), HasBit(x, (b + 25) % 32))
  {
    hide RotateRight, Xor, HasBit;
    RotateBit(x, 2, b);
    RotateBit(x, 13, b);
    RotateBit(x, 22, b);
    RotateBit(x, 6, b);
    RotateBit(x, 11, b);
    RotateBit(x, 25, b);
    XorThree(RotateRight(x, 2), RotateRight(x, 13), RotateRight(x, 22), b);
    XorThree(RotateRight(x, 6), RotateRight(x, 11), RotateRight(x, 25), b);
  }

  lemma SmallSigmaBits(x: Word, b: nat)
    requires x < WORD_LIMIT && b < 32
    ensures HasBit(SmallSigma0(x), b) <==> Odd(HasBit(x, (b + 7) % 32), HasBit(x, (b + 18) % 32), HasBit(x, b + 3))
    ensures HasBit(SmallSigma1(x), b) <==> Odd(HasBit(x, (b + 17) % 32), HasBit(x, (b + 19) % 32), HasBit(x, b + 10))
  {
    hide RotateRight, ShiftRight, Xor, HasBit;
    RotateBit(x, 7, b);
    RotateBit(x, 18, b);
    RotateBit(x, 17, b);
    RotateBit(x, 19, b);
    ShiftBit(x, 3, b);
    ShiftBit(x, 10, b);
    XorThree(RotateRight(x, 7), RotateRight(x, 18), ShiftRight(x, 3), b);
    XorThree(RotateRight(x, 17), RotateRight(x, 19), ShiftRight(x, 10), b);
  }

  /** The bits say everything: words with the same 32 bits are the same. */
  lemma WordOfBits(x: Word, y: Word)
    requires x < WORD_LIMIT && y < WORD_LIMIT && forall b: nat | b < 32 :: HasBit(x, b) <==> HasBit(y, b)
    ensures x == y
  {
    Power32();
    SameBits(x, y, 32);
  }

  // ---- sums, section 6.2.2 ----

  lemma ScheduleSum(w16: Word, w15: Word, w7: Word, w2: Word)
    ensures ScheduleStep(w16, w15, w7, w2) == (SmallSigma1(w2) + w7 + SmallSigma0(w15) + w16) % WORD_LIMIT
  {
    hide Wrapped, SmallSigma0, SmallSigma1;
    WrappedIsModulo(w16 + SmallSigma0(w15));
    WrappedIsModulo(Add(w16, SmallSigma0(w15)) + w7);
    WrappedIsModulo(Add(Add(w16, SmallSigma0(w15)), w7) + SmallSigma1(w2));
    Inside(w16 + SmallSigma0(w15), w7);
    Inside(w16 + SmallSigma0(w15) + w7, SmallSigma1(w2));
  }

  lemma Inside(a: nat, b: nat)
    ensures (a % WORD_LIMIT + b) % WORD_LIMIT == (a + b) % WORD_LIMIT
  {
  }

  /** One round: two new words, which are sums modulo 2 to the 32, and six that move on by one. */
  lemma RoundSums(v: Hash, k: Word, w: Word)
    ensures var r := Round(v, k, w);
      var t1 := v.h + BigSigma1(v.e) + Choice(v.e, v.f, v.g) + k + w;
      && r.a == (t1 + BigSigma0(v.a) + Majority(v.a, v.b, v.c)) % WORD_LIMIT
      && r.e == (v.d + t1) % WORD_LIMIT
      && (r.b, r.c, r.d, r.f, r.g, r.h) == (v.a, v.b, v.c, v.e, v.f, v.g)
  {
    hide Wrapped, BigSigma0, BigSigma1, Choice, Majority;
    var s1, ch := BigSigma1(v.e), Choice(v.e, v.f, v.g);
    var s0, maj := BigSigma0(v.a), Majority(v.a, v.b, v.c);
    FirstSumIs(v.h, s1, ch, k, w);
    SumIs(s0, maj);
    var t1, t2 := v.h + s1 + ch + k + w, s0 + maj;
    WrappedIsModulo(t1 % WORD_LIMIT + t2 % WORD_LIMIT);
    WrappedIsModulo(v.d + t1 % WORD_LIMIT);
    Inside(t1, t2 % WORD_LIMIT);
    Inside(t2, t1);
    Inside(t1, v.d);
  }

  lemma SumIs(a: Word, b: Word)
    ensures Add(a, b) == (a + b) % WORD_LIMIT
  {
    WrappedIsModulo(a + b);
  }

  lemma FirstSumIs(h: Word, s: Word, ch: Word, k: Word, w: Word)
    ensures Add(Add(Add(Add(h, s), ch), k), w) == (h + s + ch + k + w) % WORD_LIMIT
  {
    hide Add;
    SumIs(h, s);
    SumIs(Add(h, s), ch);
    SumIs(Add(Add(h, s), ch), k);
    SumIs(Add(Add(Add(h, s), ch), k), w);
    Inside(h + s, ch);
    Inside(h + s + ch, k);
    Inside(h + s + ch + k, w);
  }

  // ---- bytes, most significant first ----

  function BigEndian(bytes: seq<Byte>): nat {
    if bytes == [] then 0 else BigEndian(bytes[..|bytes| - 1]) * 0x100 + bytes[|bytes| - 1]
  }

  lemma FourBytes(b0: Byte, b1: Byte, b2: Byte, b3: Byte)
    ensures BigEndian([b0, b1, b2, b3]) == ((b0 as int * 0x100 + b1) * 0x100 + b2) * 0x100 + b3
  {
    assert [b0][..0] == [] && BigEndian([b0]) == b0;
    assert [b0, b1][..1] == [b0] && BigEndian([b0, b1]) == b0 as int * 0x100 + b1;
    assert [b0, b1, b2][..2] == [b0, b1];
    assert [b0, b1, b2, b3][..3] == [b0, b1, b2];
  }

  /** The words of a block. */
  lemma WordOfBlock(block: seq<Byte>, t: nat)
    requires |block| == BLOCK && t < 16
    ensures Sha256.WordAt(block, t) == BigEndian(block[4 * t..4 * t + 4])
  {
    FourBytes(block[4 * t], block[4 * t + 1], block[4 * t + 2], block[4 * t + 3]);
    assert block[4 * t..4 * t + 4] == [block[4 * t], block[4 * t + 1], block[4 * t + 2], block[4 * t + 3]];
  }
}
