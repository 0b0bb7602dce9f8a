/** Powers of two. */
module Powers {
  function Pow2(n: nat): (p: nat)
    ensures p > 0
  {
    if n == 0 then 1 else 2 * Pow2(n - 1)
  }

  lemma {:induction false} Pow2Sum(a: nat, b: nat)
    ensures Pow2(a + b) == Pow2(a) * Pow2(b)
  {
    if b > 0 {
      Pow2Sum(a, b - 1);
    }
  }

  lemma {:induction false} Pow2Grows(a: nat, b: nat)
    requires a <= b
    ensures Pow2(a) <= Pow2(b)
  {
    if a < b {
      Pow2Grows(a, b - 1);
    }
  }

  lemma Times(a: nat, b: nat, k: nat)
    requires k > 0
    ensures a < b ==> a * k < b * k
    ensures a <= b ==> a * k <= b * k
  {
  }

  lemma DivisionUnique(q: nat, r: nat, p: nat, s: nat, d: nat)
    requires q * d + r == p * d + s && r < d && s < d
    ensures r == s
  {
    if q < p {
      Times(q + 1, p, d);
    } else if p < q {
      Times(p + 1, q, d);
    }
  }

  lemma Remainder(m: nat, q: nat, d: nat, r: nat)
    requires m == q * d + r && r < d
    ensures m % d == r
  {
    assert m == m / d * d + m % d;
    DivisionUnique(q, r, m / d, m % d, d);
  }
}
