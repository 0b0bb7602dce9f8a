/** The bits of a number. */
module Bits {
  import opened Powers

  /** Bit `b`: `x & 1 << b != 0`. */
  predicate HasBit(x: nat, b: nat) {
    if b == 0 then x % 2 == 1 else HasBit(x / 2, b - 1)
  }

  /** Numbers of so many bits are the same when their bits are. */
  lemma {:induction false} SameBits(x: nat, y: nat, n: nat)
    requires x < Pow2(n) && y < Pow2(n) && forall b: nat | b < n :: HasBit(x, b) <==> HasBit(y, b)
    ensures x == y
  {
    if n > 0 {
      assert HasBit(x, 0) <==> HasBit(y, 0);
      forall b: nat | b < n - 1 ensures HasBit(x / 2, b) <==> HasBit(y / 2, b) {
        assert HasBit(x, b + 1) <==> HasBit(y, b + 1);
      }
      SameBits(x / 2, y / 2, n - 1);
    }
  }

  /** There are none beyond the size of a number. */
  lemma {:induction false} NoBitBeyond(x: nat, n: nat, b: nat)
    requires x < Pow2(n) && n <= b
    ensures !HasBit(x, b)
  {
    if b > 0 {
      NoBitBeyond(x / 2, if n == 0 then 0 else n - 1, b - 1);
    }
  }
}
