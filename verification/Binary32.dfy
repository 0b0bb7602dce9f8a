/** Binary32 numbers as words of 32 bits: their values, their order, and which of them are finite. */
module Binary32 {
  import opened Powers

  const SIGN := 0x8000_0000
  const NEGATIVE_INFINITY := 0xff80_0000

  predicate Word(bits: nat) {
    bits < 0x1_0000_0000
  }

  /** binary32 numbers in order; the two zeros are equal. */
  function Key(bits: nat): int {
    if bits < SIGN then bits else SIGN - bits
  }

  /** The comparison of two numbers; a word that is not a number has no place in the order. */
  predicate Greater(left: nat, right: nat) {
    Key(left) > Key(right)
  }

  predicate Finite(bits: nat) {
    bits / 0x80_0000 % 0x100 != 0xff
  }

  predicate AllFinite(words: seq<nat>) {
    forall i | 0 <= i < |words| :: Finite(words[i])
  }

  predicate AllWords(words: seq<nat>) {
    forall i | 0 <= i < |words| :: Word(words[i])
  }

  predicate FiniteWord(bits: nat) {
    Word(bits) && Finite(bits)
  }

  // ---- values ----

  /** The fields of a word: 1 bit, 8 bits, 23 bits. */
  datatype Fields = Fields(negative: bool, exponent: nat, fraction: nat)

  function FieldsOf(bits: nat): Fields {
    Fields(bits / 0x8000_0000 % 2 == 1, bits / 0x80_0000 % 0x100, bits % 0x80_0000)
  }

  /** The magnitude in units of 2 to the -149; with exponent 0 it has no hidden bit (section 3.4 of IEEE 754). */
  function Magnitude(f: Fields): nat {
    if f.exponent == 0 then f.fraction else (0x80_0000 + f.fraction) * Pow2(f.exponent - 1)
  }

  /** The value of a finite word in units of 2 to the -149. */
  function Real(bits: nat): int {
    var f := FieldsOf(bits);
    if f.negative then 0 - Magnitude(f) else Magnitude(f)
  }

  /** Between words of the same sign, the larger number below the sign has the larger magnitude. */
  lemma MagnitudeGrows(m: nat, n: nat)
    requires m < n < SIGN
    ensures Magnitude(FieldsOf(m)) < Magnitude(FieldsOf(n))
  {
    var x, y := FieldsOf(m), FieldsOf(n);
    assert m == x.exponent * 0x80_0000 + x.fraction && n == y.exponent * 0x80_0000 + y.fraction;
    if x.exponent == y.exponent {
      if x.exponent > 0 {
        Times(0x80_0000 + x.fraction, 0x80_0000 + y.fraction, Pow2(x.exponent - 1));
      }
    } else {
      var top := if x.exponent == 0 then 1 else Pow2(x.exponent - 1);
      Times(0x80_0000 + x.fraction, 0x100_0000, top);
      Pow2Grows(x.exponent, y.exponent - 1);
      Times(0x80_0000, 0x80_0000 + y.fraction, Pow2(y.exponent - 1));
      assert x.exponent > 0 ==> Pow2(x.exponent) == 2 * top;
      Times(Pow2(x.exponent), Pow2(y.exponent - 1), 0x80_0000);
    }
  }

  /** A word and the one of the other sign. */
  lemma SignedFields(bits: nat)
    requires Word(bits)
    ensures bits < SIGN ==> Real(bits) == Magnitude(FieldsOf(bits))
    ensures bits >= SIGN ==> Real(bits) == 0 - Magnitude(FieldsOf(bits - SIGN))
  {
    if bits >= SIGN {
      assert bits / 0x80_0000 == (bits - SIGN) / 0x80_0000 + 0x100;
      assert FieldsOf(bits) == FieldsOf(bits - SIGN).(negative := true);
    }
  }

  /** The comparison compares the values. */
  lemma GreaterIsReal(left: nat, right: nat)
    requires Word(left) && Word(right)
    ensures Greater(left, right) <==> Real(left) > Real(right)
    ensures Key(left) == Key(right) <==> Real(left) == Real(right)
  {
    assert Magnitude(FieldsOf(0)) == 0;
    SignedFields(left);
    SignedFields(right);
    var l, r := if left < SIGN then left else left - SIGN, if right < SIGN then right else right - SIGN;
    if l < r { MagnitudeGrows(l, r); }
    if r < l { MagnitudeGrows(r, l); }
    if 0 < l { MagnitudeGrows(0, l); }
    if 0 < r { MagnitudeGrows(0, r); }
  }

  /** Below zero are the words with the sign, except minus zero. */
  lemma SignOfReal(bits: nat)
    requires Word(bits)
    ensures Real(bits) < 0 <==> bits > SIGN
  {
    assert Magnitude(FieldsOf(0)) == 0;
    SignedFields(bits);
    if bits > SIGN {
      MagnitudeGrows(0, bits - SIGN);
    }
  }

  /** The exponent decides on which side of the largest power a magnitude is. */
  lemma MagnitudeSide(f: Fields, below: nat)
    requires f.fraction < 0x80_0000
    ensures f.exponent == below + 2 ==> Magnitude(f) >= 0x100_0000 * Pow2(below)
    ensures f.exponent < below + 2 ==> Magnitude(f) < 0x100_0000 * Pow2(below)
  {
    if f.exponent == below + 2 {
      assert Pow2(below + 1) == 2 * Pow2(below);
      Times(0x80_0000, 0x80_0000 + f.fraction, Pow2(below + 1));
    } else if 0 < f.exponent < below + 2 {
      Pow2Grows(f.exponent - 1, below);
      Times(0x80_0000 + f.fraction, 0x100_0000, Pow2(below));
      Times(Pow2(f.exponent - 1), Pow2(below), 0x80_0000 + f.fraction);
    }
  }

  /** Finite are the words whose magnitude is below 2 to the 128, that is 2 to the 277 in its units. */
  lemma FiniteIsBounded(bits: nat, limit: nat)
    requires Word(bits) && limit == 277
    ensures Finite(bits) <==> Magnitude(FieldsOf(bits)) < Pow2(limit)
  {
    hide Magnitude;
    var below := limit - 24;
    MagnitudeSide(FieldsOf(bits), below);
    Power24();
    Pow2Sum(below, 24);
  }

  lemma Power24()
    ensures Pow2(24) == 0x100_0000
  {
    assert Pow2(8) == 0x100;
    Pow2Sum(8, 8);
    Pow2Sum(16, 8);
  }

  /** Minus infinity is below everything finite. */
  lemma FiniteIsGreater(bits: nat)
    requires FiniteWord(bits)
    ensures Greater(bits, NEGATIVE_INFINITY) && !Greater(NEGATIVE_INFINITY, bits)
  {
  }
}
