/** The hypotheses on exact arithmetic can be met: words as fractions. */
module ExactNumbers {
  import opened Attention
  import opened AttentionMeaning
  import opened Binary32

  // ---- all pairs of numbers, one after the other ----

  function Pair(k: nat): (nat, nat) {
    if k == 0 then (0, 0)
    else
      var (i, j) := Pair(k - 1);
      if i == 0 then (j + 1, 0) else (i - 1, j + 1)
  }

  function Place(i: nat, j: nat): nat
    decreases i + j, j
  {
    if j > 0 then Place(i + 1, j - 1) + 1 else if i > 0 then Place(0, i - 1) + 1 else 0
  }

  lemma {:induction false} PairAtPlace(i: nat, j: nat)
    ensures Pair(Place(i, j)) == (i, j)
    decreases i + j, j
  {
    if j > 0 {
      PairAtPlace(i + 1, j - 1);
    } else if i > 0 {
      PairAtPlace(0, i - 1);
    }
  }

  // ---- fractions ----

  datatype Fraction = Fraction(numerator: int, below: nat)

  function Signed(i: nat): int {
    if i % 2 == 0 then i / 2 else -1 - i / 2
  }

  function Unsigned(a: int): nat {
    if a >= 0 then 2 * a else -2 * a - 1
  }

  /** The fraction that a word stands for; its denominator is one more than `below`. */
  function FractionOf(k: nat): Fraction {
    if k == SCALE then Fraction(1, 7)
    else
      var (i, j) := Pair(k);
      Fraction(Signed(i), j)
  }

  function Ratio(a: int, b: int): real
    requires b > 0
  {
    a as real / b as real
  }

  function Value(k: nat): real {
    Ratio(FractionOf(k).numerator, FractionOf(k).below + 1)
  }

  predicate Reserved(k: nat) {
    k == NEGATIVE_INFINITY || k == SCALE
  }

  function WordFor(a: int, b: int): nat
    requires b > 0
  {
    Place(Unsigned(a), b - 1)
  }

  /** A word for a fraction, reduced or not, that is not reserved. */
  function Code(a: int, b: int): nat
    requires b > 0
  {
    if !Reserved(WordFor(a, b)) then WordFor(a, b)
    else if !Reserved(WordFor(2 * a, 2 * b)) then WordFor(2 * a, 2 * b)
    else WordFor(3 * a, 3 * b)
  }

  lemma WordForMeans(a: int, b: int)
    requires b > 0
    ensures Pair(WordFor(a, b)) == (Unsigned(a), b - 1)
    ensures WordFor(a, b) != SCALE ==> Value(WordFor(a, b)) == Ratio(a, b)
  {
    PairAtPlace(Unsigned(a), b - 1);
  }

  lemma SameRatio(a: int, b: int, c: int)
    requires b > 0 && c > 0
    ensures c * b > 0 && Ratio(c * a, c * b) == Ratio(a, b)
  {
    Quotient((c * a) as real, (c * b) as real, a as real / b as real);
  }

  /** How a quotient of reals is recognised. */
  lemma Quotient(a: real, b: real, q: real)
    requires b != 0.0 && q * b == a
    ensures a / b == q
  {
  }

  lemma CodeMeans(a: int, b: int)
    requires b > 0
    ensures Value(Code(a, b)) == Ratio(a, b) && !Reserved(Code(a, b))
  {
    WordForMeans(a, b);
    WordForMeans(2 * a, 2 * b);
    WordForMeans(3 * a, 3 * b);
    SameRatio(a, b, 2);
    SameRatio(a, b, 3);
  }

  // ---- exact operations ----

  function Times(x: nat, y: nat): nat {
    var f, g := FractionOf(x), FractionOf(y);
    PositiveProduct(f.below + 1, g.below + 1);
    Code(f.numerator * g.numerator, (f.below + 1) * (g.below + 1))
  }

  function Plus(x: nat, y: nat): nat {
    var f, g := FractionOf(x), FractionOf(y);
    PositiveProduct(f.below + 1, g.below + 1);
    Code(f.numerator * (g.below + 1) + g.numerator * (f.below + 1), (f.below + 1) * (g.below + 1))
  }

  function Inverse(x: nat): nat {
    var f := FractionOf(x);
    if f.numerator > 0 then Code(f.below + 1, f.numerator)
    else if f.numerator < 0 then Code(-(f.below + 1), -f.numerator)
    else 0
  }

  /** Only whether a score is masked has to survive the subtraction. */
  function Minus(x: nat, y: nat): nat {
    if x == NEGATIVE_INFINITY then NEGATIVE_INFINITY else 0
  }

  function One(x: nat): nat {
    if x == NEGATIVE_INFINITY then Code(0, 1) else Code(1, 1)
  }

  function Same(x: nat): nat {
    x
  }

  predicate Above(x: nat, y: nat) {
    Value(x) > Value(y)
  }

  function Ones(x: real): real {
    1.0
  }

  const FRACTIONS := Arithmetic(Times, Minus, Plus, Plus, Same, Same, One, Inverse, Above)

  lemma PositiveProduct(a: nat, b: nat)
    requires a > 0 && b > 0
    ensures a * b > 0
  {
  }

  lemma TimesMeans(x: nat, y: nat)
    ensures Value(Times(x, y)) == Value(x) * Value(y) && Times(x, y) != NEGATIVE_INFINITY
  {
    hide Ratio, Code, FractionOf;
    var f, g := FractionOf(x), FractionOf(y);
    var b, d := f.below + 1, g.below + 1;
    PositiveProduct(b, d);
    CodeMeans(f.numerator * g.numerator, b * d);
    RatioTimes(f.numerator, b, g.numerator, d);
  }

  lemma RatioTimes(a: int, b: int, c: int, d: int)
    requires b > 0 && d > 0
    ensures b * d > 0 && Ratio(a * c, b * d) == Ratio(a, b) * Ratio(c, d)
  {
    var p, q := Ratio(a, b), Ratio(c, d);
    RatioBack(a, b);
    RatioBack(c, d);
    assert (a * c) as real == a as real * c as real && (b * d) as real == b as real * d as real;
    Rearranged(p, b as real, q, d as real);
    Quotient((a * c) as real, (b * d) as real, p * q);
  }

  lemma RatioBack(a: int, b: int)
    requires b > 0
    ensures Ratio(a, b) * b as real == a as real
  {
  }

  lemma Rearranged(p: real, b: real, q: real, d: real)
    ensures (p * q) * (b * d) == (p * b) * (q * d)
  {
  }

  lemma RatioPlus(a: int, b: int, c: int, d: int)
    requires b > 0 && d > 0
    ensures b * d > 0 && Ratio(a * d + c * b, b * d) == Ratio(a, b) + Ratio(c, d)
  {
    var p, q := Ratio(a, b), Ratio(c, d);
    RatioBack(a, b);
    RatioBack(c, d);
    var br, dr := b as real, d as real;
    assert (b * d) as real == br * dr;
    assert (a * d + c * b) as real == a as real * dr + c as real * br;
    Spread(p, q, br, dr);
    Quotient((a * d + c * b) as real, (b * d) as real, p + q);
  }

  lemma Spread(p: real, q: real, b: real, d: real)
    ensures (p + q) * (b * d) == (p * b) * d + (q * d) * b
  {
    assert p * (b * d) == (p * b) * d;
    assert q * (b * d) == (q * d) * b;
  }

  lemma PlusMeans(x: nat, y: nat)
    ensures Value(Plus(x, y)) == Value(x) + Value(y)
  {
    var f, g := FractionOf(x), FractionOf(y);
    PositiveProduct(f.below + 1, g.below + 1);
    CodeMeans(f.numerator * (g.below + 1) + g.numerator * (f.below + 1), (f.below + 1) * (g.below + 1));
    RatioPlus(f.numerator, f.below + 1, g.numerator, g.below + 1);
  }

  lemma ZeroRatio(b: int)
    requires b > 0
    ensures Ratio(0, b) == 0.0
  {
  }

  lemma RatioInverse(a: int, b: int)
    requires a > 0 && b > 0
    ensures Ratio(b, a) * Ratio(a, b) == 1.0 && Ratio(-b, a) * Ratio(-a, b) == 1.0
  {
    RatioBack(a, b);
    RatioBack(b, a);
    RatioBack(-b, a);
    RatioBack(-a, b);
    Reciprocal(Ratio(b, a), Ratio(a, b), a as real, b as real);
    Reciprocal(Ratio(-b, a), Ratio(-a, b), -(a as real), b as real);
  }

  lemma Reciprocal(p: real, q: real, a: real, b: real)
    requires a != 0.0 && b != 0.0 && q * b == a
    requires p * a == b || p * -a == -b
    ensures p * q == 1.0
  {
    assert p * a == b;
    assert (p * q) * b == p * (q * b);
  }

  lemma InverseMeans(x: nat)
    requires Value(x) != 0.0
    ensures Value(Inverse(x)) * Value(x) == 1.0
  {
    hide Ratio, Code, FractionOf;
    var f := FractionOf(x);
    var b := f.below + 1;
    ZeroRatio(b);
    if f.numerator > 0 {
      CodeMeans(b, f.numerator);
      RatioInverse(f.numerator, b);
    } else {
      CodeMeans(-b, -f.numerator);
      RatioInverse(-f.numerator, b);
    }
  }

  lemma OneMeans(x: nat, y: nat)
    ensures Value(One(Minus(x, y))) == if x == NEGATIVE_INFINITY then 0.0 else 1.0
  {
    CodeMeans(0, 1);
    CodeMeans(1, 1);
  }

  /** So there is an exact arithmetic. */
  lemma ExactExists()
    ensures Exact(FRACTIONS, Value, Ones)
  {
    hide Times, Plus, Inverse, One, Minus, Code, Value, Ratio, FractionOf;
    forall x: nat, y: nat ensures ExactAt(FRACTIONS, Value, Ones, x, y) {
      TimesMeans(x, y);
      PlusMeans(x, y);
      OneMeans(x, y);
      if Value(x) != 0.0 {
        InverseMeans(x);
      }
    }
    Constants();
  }

  lemma Constants()
    ensures Value(0) == 0.0 && Value(SCALE) == 0.125
  {
  }
}
