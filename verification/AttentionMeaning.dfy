/**
 What attention computes, told without its code: which words have a say in which, and that with exact arithmetic every
 output word is the mean of the values weighted by the exponentials of the scaled products of query and keys.
 */
module AttentionMeaning {
  import opened Attention
  import opened Binary32
  import opened KvLayout
  import opened Powers

  // ---- which words have a say ----

  predicate SameWords(a: seq<nat>, b: seq<nat>, from: nat, to: nat)
    requires from <= to <= |a| == |b|
  {
    forall w | from <= w < to :: a[w] == b[w]
  }

  /** Two lists of vectors that agree on the 64 words of key-value head `g`. */
  predicate SameHead(a: seq<Vector>, b: seq<Vector>, g: nat)
    requires g < 2
  {
    |a| == |b| && forall p | 0 <= p < |a| :: SameWords(a[p], b[p], 64 * g, 64 * g + 64)
  }

  lemma GroupOf(head: nat, g: nat)
    requires 7 * g <= head < 7 * g + 7
    ensures head / HEADS_PER_KV == g
  {
  }

  lemma {:induction false} DotFootprint(n: Arithmetic, query: Query, query': Query, key: Vector, key': Vector, head: nat,
                                        g: nat, c: nat)
    requires g < 2 && 7 * g <= head < 7 * g + 7 && c <= 64
    requires SameWords(query, query', 64 * head, 64 * head + 64) && SameWords(key, key', 64 * g, 64 * g + 64)
    ensures Dot(n, query, key, head, c) == Dot(n, query', key', head, c)
  {
    if c > 0 {
      GroupOf(head, g);
      assert query[64 * head + (c - 1)] == query'[64 * head + (c - 1)] && key[64 * g + (c - 1)] == key'[64 * g + (c - 1)];
      DotFootprint(n, query, query', key, key', head, g, c - 1);
    }
  }

  lemma ScoresFootprint(n: Arithmetic, query: Query, query': Query, keys: seq<Vector>, keys': seq<Vector>, head: nat,
                        g: nat)
    requires g < 2 && 7 * g <= head < 7 * g + 7
    requires SameWords(query, query', 64 * head, 64 * head + 64) && SameHead(keys, keys', g)
    ensures Scores(n, query, keys, head) == Scores(n, query', keys', head)
  {
    forall p | 0 <= p < |keys| ensures Score(n, query, keys[p], head) == Score(n, query', keys'[p], head) {
      DotFootprint(n, query, query', keys[p], keys'[p], head, g, 64);
    }
  }

  lemma {:induction false} TotalFootprint(n: Arithmetic, scores: seq<nat>, values: seq<Vector>, values': seq<Vector>,
                                          word: nat, g: nat, k: nat)
    requires g < 2 && 64 * g <= word < 64 * g + 64 && SameHead(values, values', g) && k <= |values|
    ensures Total(n, scores, values, word, k) == Total(n, scores, values', word, k)
  {
    if k > 0 {
      TotalFootprint(n, scores, values, values', word, g, k - 1);
      assert SameWords(values[k - 1], values'[k - 1], 64 * g, 64 * g + 64);
    }
  }

  /**
   The 64 output words of a query head depend on the 64 query words of that head and on the 64 words of one key-value
   head in every key and value: the first for the first seven query heads, the second for the others.
   */
  lemma HeadFootprint(n: Arithmetic, query: Query, query': Query, keys: seq<Vector>, keys': seq<Vector>,
                      values: seq<Vector>, values': seq<Vector>, head: nat, g: nat)
    requires g < 2 && 7 * g <= head < 7 * g + 7
    requires SameWords(query, query', 64 * head, 64 * head + 64)
    requires SameHead(keys, keys', g) && SameHead(values, values', g)
    ensures SameWords(Attend(n, query, keys, values), Attend(n, query', keys', values'), 64 * head, 64 * head + 64)
  {
    hide AttendWord;
    forall i | 64 * head <= i < 64 * head + 64
      ensures Attend(n, query, keys, values)[i] == Attend(n, query', keys', values')[i]
    {
      assert i / HEAD_WORDS == head;
      WordFootprint(n, query, query', keys, keys', values, values', head, g, i % HEAD_WORDS);
    }
  }

  lemma WordFootprint(n: Arithmetic, query: Query, query': Query, keys: seq<Vector>, keys': seq<Vector>,
                      values: seq<Vector>, values': seq<Vector>, head: nat, g: nat, c: nat)
    requires g < 2 && 7 * g <= head < 7 * g + 7 && c < 64
    requires SameWords(query, query', 64 * head, 64 * head + 64)
    requires SameHead(keys, keys', g) && SameHead(values, values', g)
    ensures AttendWord(n, query, keys, values, head, c) == AttendWord(n, query', keys', values', head, c)
  {
    hide Total, Scores, SameWords, SameHead;
    GroupOf(head, g);
    ScoresFootprint(n, query, query', keys, keys', head, g);
    TotalFootprint(n, Scores(n, query, keys, head), values, values', 64 * g + c, g, |values|);
    SameLength(values, values', g);
  }

  lemma SameLength(a: seq<Vector>, b: seq<Vector>, g: nat)
    requires g < 2 && SameHead(a, b, g)
    ensures |a| == |b|
  {
  }

  /** For a whole group of query heads. */
  lemma Footprint(n: Arithmetic, query: Query, keys: seq<Vector>, keys': seq<Vector>, values: seq<Vector>,
                  values': seq<Vector>, g: nat)
    requires g < 2 && SameHead(keys, keys', g) && SameHead(values, values', g)
    ensures SameWords(Attend(n, query, keys, values), Attend(n, query, keys', values'), 448 * g, 448 * g + 448)
  {
    var a, b := Attend(n, query, keys, values), Attend(n, query, keys', values');
    forall i | 448 * g <= i < 448 * g + 448 ensures a[i] == b[i] {
      var head := i / 64;
      HeadFootprint(n, query, query, keys, keys', values, values', head, g);
      assert SameWords(a, b, 64 * head, 64 * head + 64);
    }
  }

  /** With a product that is its second factor and plain sums, one position is copied to the seven heads of its group. */
  lemma OnePosition(n: Arithmetic, query: Query, key: Vector, value: Vector, i: nat)
    requires forall x: nat, y: nat :: n.mul(x, y) == y && n.addWide(x, y) == x + y
    requires forall x: nat :: n.widen(x) == x && n.narrow(x) == x
    requires i < 896
    ensures Attend(n, query, [key], [value])[i] == value[i / 448 * 64 + i % 64]
  {
    var scores := Scores(n, query, [key], i / HEAD_WORDS);
    var word := i / 448 * 64 + i % 64;
    assert i / HEAD_WORDS / HEADS_PER_KV == i / 448;
    assert Total(n, scores, [value], word, 1) == Total(n, scores, [value], word, 0) + value[word];
  }

  // ---- with exact arithmetic ----

  /** The operations are those of real numbers, as `value` reads the words; a masked score has no weight at all. */
  predicate ExactAt(n: Arithmetic, value: nat -> real, e: real -> real, x: nat, y: nat) {
    && value(n.mul(x, y)) == value(x) * value(y) && n.mul(x, y) != NEGATIVE_INFINITY
    && value(n.add(x, y)) == value(n.addWide(x, y)) == value(x) + value(y)
    && value(n.widen(x)) == value(n.narrow(x)) == value(x)
    && (value(x) != 0.0 ==> value(n.inverse(x)) * value(x) == 1.0)
    && value(n.exp(n.sub(x, y))) == (if x == NEGATIVE_INFINITY then 0.0 else e(value(x) - value(y)))
  }

  predicate Exponential(e: real -> real, a: real, b: real) {
    e(a) > 0.0 && e(a - b) * e(b) == e(a)
  }

  ghost predicate Exact(n: Arithmetic, value: nat -> real, e: real -> real) {
    && (forall x: nat, y: nat :: ExactAt(n, value, e, x, y))
    && (forall a: real, b: real :: Exponential(e, a, b))
    && value(0) == 0.0 && value(SCALE) == 0.125
  }

  lemma Accumulated(n: Arithmetic, value: nat -> real, e: real -> real, sum: nat, x: nat, y: nat)
    requires Exact(n, value, e)
    ensures value(n.addWide(sum, n.widen(n.mul(x, y)))) == value(sum) + value(x) * value(y)
  {
    assert ExactAt(n, value, e, x, y) && ExactAt(n, value, e, n.mul(x, y), 0);
    assert ExactAt(n, value, e, sum, n.widen(n.mul(x, y)));
  }

  lemma Sums(n: Arithmetic, value: nat -> real, e: real -> real, x: nat, y: nat)
    requires Exact(n, value, e)
    ensures value(n.add(x, y)) == value(x) + value(y) && value(n.addWide(x, n.widen(y))) == value(x) + value(y)
    ensures value(n.narrow(x)) == value(x)
  {
    assert ExactAt(n, value, e, x, y) && ExactAt(n, value, e, y, 0) && ExactAt(n, value, e, x, n.widen(y));
  }

  lemma Products(n: Arithmetic, value: nat -> real, e: real -> real, x: nat, y: nat)
    requires Exact(n, value, e)
    ensures value(n.mul(x, y)) == value(x) * value(y) && n.mul(x, y) != NEGATIVE_INFINITY
    ensures value(n.mul(x, n.narrow(y))) == value(x) * value(y) == value(n.mul(n.narrow(x), y))
    ensures n.mul(n.narrow(x), y) != NEGATIVE_INFINITY
    ensures value(0) == 0.0 && value(SCALE) == 0.125
  {
    assert ExactAt(n, value, e, x, y) && ExactAt(n, value, e, y, 0);
    assert ExactAt(n, value, e, x, n.narrow(y)) && ExactAt(n, value, e, n.narrow(x), y);
  }

  lemma Exponentials(n: Arithmetic, value: nat -> real, e: real -> real, x: nat, y: nat)
    requires Exact(n, value, e)
    ensures x != NEGATIVE_INFINITY ==> value(n.exp(n.sub(x, y))) == e(value(x) - value(y))
    ensures x == NEGATIVE_INFINITY ==> value(n.exp(n.sub(x, y))) == 0.0
    ensures e(value(x) - value(y)) > 0.0 && e(value(y)) > 0.0
    ensures e(value(x) - value(y)) * e(value(y)) == e(value(x))
  {
    assert ExactAt(n, value, e, x, y) && Exponential(e, value(x), value(y));
    assert Exponential(e, value(x) - value(y), 0.0) && Exponential(e, value(y), 0.0);
  }

  lemma Inverses(n: Arithmetic, value: nat -> real, e: real -> real, x: nat)
    requires Exact(n, value, e) && value(x) != 0.0
    ensures value(n.inverse(x)) * value(x) == 1.0
  {
    assert ExactAt(n, value, e, x, 0);
  }

  /** The product of the query words of a head and the key words of its group, up to the `c`th. */
  function Product(value: nat -> real, query: Query, key: Vector, head: nat, g: nat, c: nat): real
    requires head < 14 && g < 2 && c <= 64
  {
    if c == 0 then 0.0
    else Product(value, query, key, head, g, c - 1) + value(query[64 * head + c - 1]) * value(key[64 * g + c - 1])
  }

  /** The weight of a position: the exponential of an eighth of the product. */
  function Importance(value: nat -> real, e: real -> real, query: Query, key: Vector, head: nat, g: nat): real
    requires head < 14 && g < 2
  {
    e(Product(value, query, key, head, g, 64) / 8.0)
  }

  function Importances(value: nat -> real, e: real -> real, query: Query, keys: seq<Vector>, head: nat, g: nat, k: nat): real
    requires head < 14 && g < 2 && k <= |keys|
  {
    if k == 0 then 0.0
    else Importances(value, e, query, keys, head, g, k - 1) + Importance(value, e, query, keys[k - 1], head, g)
  }

  /** The sum of the values at one word, each with the weight of its position. */
  function WeightedValues(value: nat -> real, e: real -> real, query: Query, keys: seq<Vector>, values: seq<Vector>,
                          head: nat, g: nat, word: nat, k: nat): real
    requires head < 14 && g < 2 && word < VECTOR_WORDS && k <= |keys| == |values|
  {
    if k == 0 then 0.0
    else
      WeightedValues(value, e, query, keys, values, head, g, word, k - 1)
      + Importance(value, e, query, keys[k - 1], head, g) * value(values[k - 1][word])
  }

  lemma {:induction false} ExactDot(n: Arithmetic, value: nat -> real, e: real -> real, query: Query, key: Vector,
                                    head: nat, g: nat, c: nat)
    requires Exact(n, value, e) && head < 14 && g == head / 7 && c <= 64
    ensures value(Dot(n, query, key, head, c)) == Product(value, query, key, head, g, c)
  {
    hide Exact;
    if c > 0 {
      ExactDot(n, value, e, query, key, head, g, c - 1);
      Accumulated(n, value, e, Dot(n, query, key, head, c - 1), query[64 * head + c - 1], key[64 * g + c - 1]);
    } else {
      Products(n, value, e, 0, 0);
    }
  }

  lemma ExactScore(n: Arithmetic, value: nat -> real, e: real -> real, query: Query, key: Vector, head: nat, g: nat)
    requires Exact(n, value, e) && head < 14 && g == head / 7
    ensures value(Score(n, query, key, head)) == Product(value, query, key, head, g, 64) / 8.0
    ensures Score(n, query, key, head) != NEGATIVE_INFINITY
  {
    hide Exact, Dot, Product;
    ExactDot(n, value, e, query, key, head, g, 64);
    Products(n, value, e, Dot(n, query, key, head, 64), SCALE);
  }

  /** Weights as the loops compute them: shifted by the largest score. */
  function Shifted(value: nat -> real, e: real -> real, scores: seq<nat>, largest: nat, k: nat): real
    requires k <= |scores|
  {
    if k == 0 then 0.0
    else Shifted(value, e, scores, largest, k - 1) + e(value(scores[k - 1]) - value(largest))
  }

  ghost predicate NoneMasked(scores: seq<nat>) {
    forall p | 0 <= p < |scores| :: scores[p] != NEGATIVE_INFINITY
  }

  function Least(a: nat, b: nat): nat {
    if a < b then a else b
  }

  lemma ExactWeight(n: Arithmetic, value: nat -> real, e: real -> real, scores: seq<nat>, largest: nat, p: nat)
    requires Exact(n, value, e) && NoneMasked(scores)
    ensures var more := if p < |scores| then e(value(scores[p]) - value(largest)) else 0.0;
      value(Weight(n, scores, largest, p)) == more
    ensures Shifted(value, e, scores, largest, Least(p + 1, |scores|))
         == Shifted(value, e, scores, largest, Least(p, |scores|)) + value(Weight(n, scores, largest, p))
  {
    hide Exact;
    Exponentials(n, value, e, if p < |scores| then scores[p] else LOWEST, largest);
  }

  lemma ExactTile(n: Arithmetic, value: nat -> real, e: real -> real, scores: seq<nat>, largest: nat, p: nat)
    requires Exact(n, value, e) && NoneMasked(scores)
    ensures Shifted(value, e, scores, largest, Least(p + 4, |scores|))
         == Shifted(value, e, scores, largest, Least(p, |scores|)) + value(TileSum(n, scores, largest, p))
  {
    hide Weight, Shifted, Exact;
    ExactWeight(n, value, e, scores, largest, p);
    ExactWeight(n, value, e, scores, largest, p + 1);
    ExactWeight(n, value, e, scores, largest, p + 2);
    ExactWeight(n, value, e, scores, largest, p + 3);
    var w0, w1 := Weight(n, scores, largest, p), Weight(n, scores, largest, p + 1);
    var w2, w3 := Weight(n, scores, largest, p + 2), Weight(n, scores, largest, p + 3);
    Sums(n, value, e, w0, w1);
    Sums(n, value, e, w2, w3);
    Sums(n, value, e, n.add(w0, w1), n.add(w2, w3));
  }

  lemma {:induction false} ExactSum(n: Arithmetic, value: nat -> real, e: real -> real, scores: seq<nat>, largest: nat,
                                    tiles: nat)
    requires Exact(n, value, e) && NoneMasked(scores)
    ensures value(WeightSum(n, scores, largest, tiles)) == Shifted(value, e, scores, largest, Least(4 * tiles, |scores|))
  {
    hide Exact, TileSum, Shifted;
    if tiles > 0 {
      ExactSum(n, value, e, scores, largest, tiles - 1);
      ExactTile(n, value, e, scores, largest, 4 * tiles - 4);
      Sums(n, value, e, WeightSum(n, scores, largest, tiles - 1), TileSum(n, scores, largest, 4 * tiles - 4));
    } else {
      Products(n, value, e, 0, 0);
      NoneShifted(value, e, scores, largest);
    }
  }

  lemma NoneShifted(value: nat -> real, e: real -> real, scores: seq<nat>, largest: nat)
    ensures Shifted(value, e, scores, largest, 0) == 0.0
  {
  }

  /** The shift does not matter. */
  lemma {:induction false} ShiftedTimes(n: Arithmetic, value: nat -> real, e: real -> real, query: Query,
                                        keys: seq<Vector>, head: nat, g: nat, largest: nat, k: nat)
    requires Exact(n, value, e) && head < 14 && g == head / 7 && k <= |keys|
    ensures var scores := Scores(n, query, keys, head);
      && Shifted(value, e, scores, largest, k) * e(value(largest)) == Importances(value, e, query, keys, head, g, k)
      && (k > 0 ==> Shifted(value, e, scores, largest, k) > 0.0)
  {
    hide Exact, Score, Product;
    if k > 0 {
      ShiftedTimes(n, value, e, query, keys, head, g, largest, k - 1);
      ExactScore(n, value, e, query, keys[k - 1], head, g);
      var scores := Scores(n, query, keys, head);
      Exponentials(n, value, e, scores[k - 1], largest);
      Distribute(Shifted(value, e, scores, largest, k - 1), e(value(scores[k - 1]) - value(largest)), e(value(largest)));
      if k == 1 {
        NoneShifted(value, e, scores, largest);
      }
    }
  }

  lemma Distribute(a: real, b: real, c: real)
    ensures (a + b) * c == a * c + b * c
  {
  }

  /** The running sum of a component, times what all weights were divided by and shifted with. */
  lemma {:induction false} ExactTotal(n: Arithmetic, value: nat -> real, e: real -> real, query: Query,
                                      keys: seq<Vector>, values: seq<Vector>, head: nat, g: nat, word: nat, k: nat)
    requires Exact(n, value, e) && head < 14 && g == head / 7 && word < VECTOR_WORDS && k <= |keys| == |values|
    ensures var scores := Scores(n, query, keys, head);
      var largest := Largest(n, scores, |scores|);
      var inverse := value(n.inverse(WeightSum(n, scores, largest, Tiles(|scores|))));
      value(Total(n, scores, values, word, k)) * e(value(largest))
      == WeightedValues(value, e, query, keys, values, head, g, word, k) * inverse
  {
    hide Exact, Tiles, WeightSum, Largest, Score, Probability, Importance;
    if k > 0 {
      ExactTotal(n, value, e, query, keys, values, head, g, word, k - 1);
      var scores := Scores(n, query, keys, head);
      var largest := Largest(n, scores, |scores|);
      var i := value(n.inverse(WeightSum(n, scores, largest, Tiles(|scores|))));
      var p, v := Probability(n, scores, k - 1), values[k - 1][word];
      var w, m := Importance(value, e, query, keys[k - 1], head, g), e(value(largest));
      ExactProbability(n, value, e, query, keys, head, g, k - 1);
      Accumulated(n, value, e, Total(n, scores, values, word, k - 1), p, v);
      OneMore(value(Total(n, scores, values, word, k - 1)), value(p), value(v), m,
              WeightedValues(value, e, query, keys, values, head, g, word, k - 1), w, i);
    } else {
      Products(n, value, e, 0, 0);
    }
  }

  lemma OneMore(total: real, p: real, v: real, m: real, result: real, w: real, i: real)
    requires total * m == result * i && p * m == w * i
    ensures (total + p * v) * m == (result + w * v) * i
  {
    Distribute(total, p * v, m);
    Distribute(result, w * v, i);
    Swap(p, v, m);
    Swap(w, v, i);
  }

  lemma Swap(a: real, b: real, c: real)
    ensures a * b * c == a * c * b
  {
  }

  lemma ExactProbability(n: Arithmetic, value: nat -> real, e: real -> real, query: Query, keys: seq<Vector>, head: nat,
                         g: nat, p: nat)
    requires Exact(n, value, e) && head < 14 && g == head / 7 && p < |keys|
    ensures var scores := Scores(n, query, keys, head);
      var largest := Largest(n, scores, |scores|);
      var inverse := n.inverse(WeightSum(n, scores, largest, Tiles(|scores|)));
      value(Probability(n, scores, p)) * e(value(largest))
      == Importance(value, e, query, keys[p], head, g) * value(inverse)
  {
    hide Exact, Tiles, WeightSum, Largest, Score, Product;
    var scores := Scores(n, query, keys, head);
    var largest := Largest(n, scores, |scores|);
    var i := n.inverse(WeightSum(n, scores, largest, Tiles(|scores|)));
    var weight := Weight(n, scores, largest, p);
    ExactScore(n, value, e, query, keys[p], head, g);
    Exponentials(n, value, e, scores[p], largest);
    Products(n, value, e, weight, i);
    Swap(value(weight), value(i), e(value(largest)));
  }

  /**
   With exact arithmetic the output of a head is the mean of the values, weighted by the exponentials of an eighth of the
   products of query and keys. The first seven query heads go with the first key-value head, the others with the second.
   */
  lemma ExactSoftmax(n: Arithmetic, value: nat -> real, e: real -> real, query: Query, keys: seq<Vector>,
                     values: seq<Vector>, head: nat, c: nat)
    requires Exact(n, value, e) && head < 14 && c < 64 && |keys| == |values| > 0
    ensures var g := if head < 7 then 0 else 1;
      var all := Importances(value, e, query, keys, head, g, |keys|);
      && all > 0.0
      && value(Attend(n, query, keys, values)[64 * head + c]) * all
         == WeightedValues(value, e, query, keys, values, head, g, 64 * g + c, |keys|)
  {
    hide Exact, WeightSum, Largest, Scores, Total, Importances, WeightedValues;
    var g := if head < 7 then 0 else 1;
    var scores := Scores(n, query, keys, head);
    var largest := Largest(n, scores, |scores|);
    var sum := WeightSum(n, scores, largest, Tiles(|scores|));
    OneHead(n, value, e, query, keys, head, g);
    ExactTotal(n, value, e, query, keys, values, head, g, 64 * g + c, |keys|);
    var total := Total(n, scores, values, 64 * g + c, |keys|);
    Inverses(n, value, e, sum);
    Sums(n, value, e, total, 0);
    assert (64 * head + c) / HEAD_WORDS == head && (64 * head + c) % HEAD_WORDS == c;
    assert Attend(n, query, keys, values)[64 * head + c] == n.narrow(total);
    var all, m := Importances(value, e, query, keys, head, g, |keys|), e(value(largest));
    var result := WeightedValues(value, e, query, keys, values, head, g, 64 * g + c, |keys|);
    Cancel(value(total), m, value(sum), value(n.inverse(sum)), result);
  }

  /** The sum of the weights that a head divides by. */
  lemma OneHead(n: Arithmetic, value: nat -> real, e: real -> real, query: Query, keys: seq<Vector>, head: nat, g: nat)
    requires Exact(n, value, e) && head < 14 && g == head / 7 && |keys| > 0
    ensures var scores := Scores(n, query, keys, head);
      var largest := Largest(n, scores, |scores|);
      var sum := value(WeightSum(n, scores, largest, Tiles(|scores|)));
      && |scores| == |keys| && sum > 0.0 && e(value(largest)) > 0.0
      && sum * e(value(largest)) == Importances(value, e, query, keys, head, g, |keys|)
  {
    hide Exact, WeightSum, Largest, Score, Shifted, Importances;
    var scores := Scores(n, query, keys, head);
    var largest := Largest(n, scores, |scores|);
    forall p: nat | p < |keys| ensures scores[p] != NEGATIVE_INFINITY {
      ExactScore(n, value, e, query, keys[p], head, g);
    }
    ExactSum(n, value, e, scores, largest, Tiles(|scores|));
    ShiftedTimes(n, value, e, query, keys, head, g, largest, |keys|);
    Exponentials(n, value, e, 0, largest);
  }

  lemma Cancel(total: real, m: real, sum: real, inverse: real, result: real)
    requires total * m == result * inverse && inverse * sum == 1.0
    ensures total * (sum * m) == result
  {
    assert total * (sum * m) == total * m * sum;
    assert result * inverse * sum == result * (inverse * sum);
  }

  // ---- the shift and the two constants ----

  /** The shift is the largest score, so no exponential is of a positive number. */
  lemma {:induction false} LargestIsLargest(n: Arithmetic, scores: seq<nat>, k: nat)
    requires forall x: nat, y: nat :: n.greater(x, y) <==> Greater(x, y)
    requires 0 < k <= |scores| && forall p | 0 <= p < k :: FiniteWord(scores[p])
    ensures exists p :: 0 <= p < k && Largest(n, scores, k) == scores[p]
    ensures forall p | 0 <= p < k :: Real(scores[p]) <= Real(Largest(n, scores, k))
  {
    hide Real;
    FiniteIsGreater(scores[k - 1]);
    if k > 1 {
      LargestIsLargest(n, scores, k - 1);
      GreaterIsReal(scores[k - 1], Largest(n, scores, k - 1));
    } else {
      assert Largest(n, scores, 0) == LOWEST;
      assert Largest(n, scores, 1) == scores[0];
    }
  }

  /** The scale is an eighth: with `unit` for 1, in the units of `Real`. */
  lemma ScaleIsAnEighth(scale: nat, unit: nat)
    requires scale == SCALE && unit == 149
    ensures 8 * Real(scale) == Pow2(unit)
  {
    hide Magnitude;
    var rest := unit - 26;
    assert FieldsOf(scale) == Fields(false, rest + 1, 0);
    OneBit(rest);
    PowerSteps(rest);
  }

  lemma OneBit(e: nat)
    ensures Magnitude(Fields(false, e + 1, 0)) == 0x80_0000 * Pow2(e)
  {
  }

  lemma PowerSteps(e: nat)
    ensures Pow2(e + 26) == 8 * (0x80_0000 * Pow2(e))
  {
    Power24();
    Pow2Sum(e, 24);
    assert Pow2(e + 26) == 2 * Pow2(e + 25) == 4 * Pow2(e + 24);
  }
}
