/**
 Attention over the KV arena, with the arithmetic left uninterpreted: which words the loops load, which score slots they
 read, and that the two implementations compute the same. What comes out depends on the query and on the keys and values
 of the positions up to the current one, and on nothing else in the arena or in the score buffer.
 */
module Attention {
  import opened KvLayout

  const QUERY_HEADS := 14
  const HEADS_PER_KV := 7
  const QUERY_WORDS := QUERY_HEADS * HEAD_WORDS
  /** 0.125, and minus infinity */
  const SCALE: nat := 0x3e00_0000
  const LOWEST: nat := 0xff80_0000

  type Query = q: seq<nat> | |q| == QUERY_WORDS witness seq(QUERY_WORDS, _ => 0)

  /** Binary32 and binary64 operations on bits. */
  datatype Arithmetic = Arithmetic(
    mul: (nat, nat) -> nat,
    sub: (nat, nat) -> nat,
    add: (nat, nat) -> nat,
    addWide: (nat, nat) -> nat,
    widen: nat -> nat,
    narrow: nat -> nat,
    exp: nat -> nat,
    inverse: nat -> nat,
    greater: (nat, nat) -> bool)

  // ---- what attention computes ----

  /** The wide sum over the first `c` components. */
  function Dot(n: Arithmetic, query: Query, key: Vector, head: nat, c: nat): nat
    requires head < QUERY_HEADS && c <= HEAD_WORDS
  {
    if c == 0 then 0
    else
      var q, k := query[head * HEAD_WORDS + c - 1], key[head / HEADS_PER_KV * HEAD_WORDS + c - 1];
      n.addWide(Dot(n, query, key, head, c - 1), n.widen(n.mul(q, k)))
  }

  function Score(n: Arithmetic, query: Query, key: Vector, head: nat): nat
    requires head < QUERY_HEADS
  {
    n.mul(n.narrow(Dot(n, query, key, head, HEAD_WORDS)), SCALE)
  }

  function Scores(n: Arithmetic, query: Query, keys: seq<Vector>, head: nat): seq<nat>
    requires head < QUERY_HEADS
  {
    seq(|keys|, p requires 0 <= p < |keys| => Score(n, query, keys[p], head))
  }

  /** The largest of the first `k` scores. */
  function Largest(n: Arithmetic, scores: seq<nat>, k: nat): nat
    requires k <= |scores|
  {
    if k == 0 then LOWEST
    else
      var largest := Largest(n, scores, k - 1);
      if n.greater(scores[k - 1], largest) then scores[k - 1] else largest
  }

  function Tiles(positions: nat): nat {
    (positions + 3) / KV_TILE
  }

  /** The positions rounded up to whole tiles. */
  function Span(positions: nat): (span: nat)
    ensures positions <= span < positions + KV_TILE && span % KV_TILE == 0
  {
    Tiles(positions) * KV_TILE
  }

  /** The weight of a position before normalising; positions beyond the scores are masked. */
  function Weight(n: Arithmetic, scores: seq<nat>, largest: nat, p: nat): nat {
    n.exp(n.sub(if p < |scores| then scores[p] else LOWEST, largest))
  }

  /** The weights of a tile, added in pairs. */
  function TileSum(n: Arithmetic, scores: seq<nat>, largest: nat, position: nat): nat {
    var left := n.add(Weight(n, scores, largest, position), Weight(n, scores, largest, position + 1));
    var right := n.add(Weight(n, scores, largest, position + 2), Weight(n, scores, largest, position + 3));
    n.add(left, right)
  }

  /** The sum of the weights of the first `tiles` tiles. */
  function WeightSum(n: Arithmetic, scores: seq<nat>, largest: nat, tiles: nat): nat {
    if tiles == 0 then 0
    else n.addWide(WeightSum(n, scores, largest, tiles - 1), n.widen(TileSum(n, scores, largest, (tiles - 1) * KV_TILE)))
  }

  function Probability(n: Arithmetic, scores: seq<nat>, p: nat): nat {
    var largest := Largest(n, scores, |scores|);
    n.mul(Weight(n, scores, largest, p),
          n.narrow(n.inverse(WeightSum(n, scores, largest, Tiles(|scores|)))))
  }

  /** One component of the weighted sum over the first `k` positions. */
  function Total(n: Arithmetic, scores: seq<nat>, values: seq<Vector>, word: nat, k: nat): nat
    requires k <= |values| && word < VECTOR_WORDS
  {
    if k == 0 then 0
    else
      var product := n.mul(Probability(n, scores, k - 1), values[k - 1][word]);
      n.addWide(Total(n, scores, values, word, k - 1), n.widen(product))
  }

  function AttendWord(n: Arithmetic, query: Query, keys: seq<Vector>, values: seq<Vector>, head: nat,
                      component: nat): nat
    requires head < QUERY_HEADS && component < HEAD_WORDS
  {
    n.narrow(Total(n, Scores(n, query, keys, head), values, head / HEADS_PER_KV * HEAD_WORDS + component, |values|))
  }

  /** The attention output for one query. */
  function Attend(n: Arithmetic, query: Query, keys: seq<Vector>, values: seq<Vector>): Query {
    seq(QUERY_WORDS, i requires 0 <= i < QUERY_WORDS =>
      AttendWord(n, query, keys, values, i / HEAD_WORDS, i % HEAD_WORDS))
  }

  // ---- the score loops ----

  /** Where the loops work: arena and score buffer, in one layer, for one query head. */
  predicate Place(kv: array<nat>, scores: array<nat>, layer: nat, head: nat, positions: nat, span: nat) {
    && kv.Length == KV_WORDS && scores.Length == CONTEXT_LIMIT && kv != scores
    && layer < LAYERS && head < QUERY_HEADS && 0 < positions <= span <= CONTEXT_LIMIT && span % KV_TILE == 0
  }

  /** `attention_scores_sse2`: one position after the other. */
  method ScoresSse2(n: Arithmetic, query: Query, kv: array<nat>, scores: array<nat>, layer: nat, head: nat,
                    positions: nat, ghost span: nat)
    requires Place(kv, scores, layer, head, positions, span)
    modifies scores
    ensures scores[..positions] == Scores(n, query, Gather(kv[..], layer, 0, positions), head)
  {
    ghost var keys := Gather(kv[..], layer, 0, positions);
    for position := 0 to positions
      invariant kv[..] == old(kv[..])
      invariant forall p | 0 <= p < position :: scores[p] == Score(n, query, keys[p], head)
    {
      var dot := DotOf(n, query, kv, layer, head, position);
      scores[position] := n.mul(n.narrow(dot), SCALE);
    }
  }

  /** The inner loop over the components of one key. */
  method DotOf(n: Arithmetic, query: Query, kv: array<nat>, layer: nat, head: nat, position: nat) returns (dot: nat)
    requires kv.Length == KV_WORDS && layer < LAYERS && head < QUERY_HEADS && position < CONTEXT_LIMIT
    ensures dot == Dot(n, query, VectorAt(kv[..], layer, 0, position), head, HEAD_WORDS)
  {
    hide KvWord, VectorAt;
    var kvHead := head / HEADS_PER_KV;
    dot := 0;
    for component := 0 to HEAD_WORDS
      invariant dot == Dot(n, query, VectorAt(kv[..], layer, 0, position), head, component)
    {
      WordOfVector(kv[..], layer, 0, position, kvHead, component);
      var key := kv[KvWord(layer, 0, position, kvHead, component)];
      dot := n.addWide(dot, n.widen(n.mul(query[head * HEAD_WORDS + component], key)));
    }
  }

  /** A masked load of four words: those beyond `remaining` are not touched and read as 0. */
  method LoadLanes(memory: array<nat>, word: nat, remaining: nat) returns (lanes: seq<nat>)
    requires remaining <= 4 && word + remaining <= memory.Length
    ensures |lanes| == 4 && forall l | 0 <= l < 4 :: lanes[l] == if l < remaining then memory[word + l] else 0
  {
    lanes := [];
    for lane := 0 to 4
      invariant |lanes| == lane
      invariant forall l | 0 <= l < lane :: lanes[l] == if l < remaining then memory[word + l] else 0
    {
      lanes := lanes + [if lane < remaining then memory[word + lane] else 0];
    }
  }

  /** Four products added to four wide sums. */
  function MulAdd(n: Arithmetic, sums: seq<nat>, factor: nat, lanes: seq<nat>): (r: seq<nat>)
    requires |sums| == |lanes| == 4
    ensures |r| == 4 && forall l | 0 <= l < 4 :: r[l] == n.addWide(sums[l], n.widen(n.mul(factor, lanes[l])))
  {
    [n.addWide(sums[0], n.widen(n.mul(factor, lanes[0]))), n.addWide(sums[1], n.widen(n.mul(factor, lanes[1]))),
     n.addWide(sums[2], n.widen(n.mul(factor, lanes[2]))), n.addWide(sums[3], n.widen(n.mul(factor, lanes[3])))]
  }

  /** The lanes of a tile that hold positions. */
  function Remaining(positions: nat, position: nat): nat {
    if position >= positions then 0 else if positions - position < 4 then positions - position else 4
  }

  /** `attention_scores_avx2`: one tile of four positions after the other. */
  method ScoresAvx2(n: Arithmetic, query: Query, kv: array<nat>, scores: array<nat>, layer: nat, head: nat,
                    positions: nat, span: nat)
    requires Place(kv, scores, layer, head, positions, span)
    modifies scores
    ensures scores[..positions] == Scores(n, query, Gather(kv[..], layer, 0, positions), head)
  {
    ghost var keys := Gather(kv[..], layer, 0, positions);
    var position := 0;
    while position < span
      invariant position <= span && position % KV_TILE == 0 && kv[..] == old(kv[..])
      invariant forall p | 0 <= p < position && p < positions :: scores[p] == Score(n, query, keys[p], head)
    {
      var dots := TileDots(n, query, kv, layer, head, positions, position);
      var lane := 0;
      while lane < 4
        invariant lane <= 4 && kv[..] == old(kv[..])
        invariant forall p | 0 <= p < position + lane && p < positions :: scores[p] == Score(n, query, keys[p], head)
      {
        scores[position + lane] := n.mul(n.narrow(dots[lane]), SCALE);
        lane := lane + 1;
      }
      position := position + 4;
    }
  }

  /** The key words that a tile load gets. */
  lemma TileWord(kv: seq<nat>, layer: nat, position: nat, kvHead: nat, component: nat, l: nat)
    requires |kv| == KV_WORDS && InArena(Address(layer, 0, position, kvHead, component))
    requires position % KV_TILE == 0 && position + 4 <= CONTEXT_LIMIT && l < 4
    ensures var word := KvWord(layer, 0, position, kvHead, component);
      && word + l < KV_WORDS
      && VectorAt(kv, layer, 0, position + l)[kvHead * HEAD_WORDS + component] == kv[word + l]
  {
    KeyLanes(layer, position, kvHead, component, l);
    WordOfVector(kv, layer, 0, position + l, kvHead, component);
  }

  /** Four dot products at once; those of lanes beyond the positions are of no key at all. */
  method TileDots(n: Arithmetic, query: Query, kv: array<nat>, layer: nat, head: nat, positions: nat, position: nat)
      returns (dots: seq<nat>)
    requires kv.Length == KV_WORDS && layer < LAYERS && head < QUERY_HEADS
    requires position % KV_TILE == 0 && position + 4 <= CONTEXT_LIMIT
    ensures |dots| == 4
    ensures forall l | 0 <= l < 4 && position + l < positions ::
      dots[l] == Dot(n, query, VectorAt(kv[..], layer, 0, position + l), head, HEAD_WORDS)
  {
    var remaining := Remaining(positions, position);
    dots := [0, 0, 0, 0];
    for component := 0 to HEAD_WORDS
      invariant |dots| == 4
      invariant forall l | 0 <= l < remaining ::
        dots[l] == Dot(n, query, VectorAt(kv[..], layer, 0, position + l), head, component)
    {
      var keys := TileKeys(kv, layer, head / HEADS_PER_KV, position, component, remaining);
      dots := MulAdd(n, dots, query[head * HEAD_WORDS + component], keys);
    }
  }

  /** One component of the keys of a tile. */
  method TileKeys(kv: array<nat>, layer: nat, kvHead: nat, position: nat, component: nat, remaining: nat)
      returns (keys: seq<nat>)
    requires kv.Length == KV_WORDS && InArena(Address(layer, 0, position, kvHead, component)) && remaining <= 4
    requires position % KV_TILE == 0 && position + 4 <= CONTEXT_LIMIT
    ensures |keys| == 4
    ensures forall l | 0 <= l < remaining ::
      keys[l] == VectorAt(kv[..], layer, 0, position + l)[kvHead * HEAD_WORDS + component]
  {
    hide KvWord, VectorAt;
    var word := KvWord(layer, 0, position, kvHead, component);
    TileWord(kv[..], layer, position, kvHead, component, 0);
    TileWord(kv[..], layer, position, kvHead, component, 1);
    TileWord(kv[..], layer, position, kvHead, component, 2);
    TileWord(kv[..], layer, position, kvHead, component, 3);
    keys := LoadLanes(kv, word, remaining);
  }

  // ---- softmax over the score buffer ----

  /** The largest score; only slots that the score loop wrote are read. */
  method FindLargest(n: Arithmetic, buffer: array<nat>, positions: nat, ghost scores: seq<nat>) returns (largest: nat)
    requires positions <= buffer.Length && buffer[..positions] == scores
    ensures largest == Largest(n, scores, positions)
  {
    largest := LOWEST;
    for position := 0 to positions
      invariant largest == Largest(n, scores, position)
    {
      var score := buffer[position];
      assert score == scores[position];
      if n.greater(score, largest) {
        largest := score;
      }
    }
  }

  /** The slots of the last tile beyond the positions are masked before anything reads them. */
  method Mask(buffer: array<nat>, positions: nat, span: nat)
    requires positions <= span <= buffer.Length
    modifies buffer
    ensures buffer[..positions] == old(buffer[..positions])
    ensures forall p | positions <= p < span :: buffer[p] == LOWEST
  {
    for masked := positions to span
      invariant buffer[..positions] == old(buffer[..positions])
      invariant forall p | positions <= p < masked :: buffer[p] == LOWEST
    {
      buffer[masked] := LOWEST;
    }
  }

  /** Slots `from..span` hold masked scores, those below hold their weights. */
  ghost predicate Weighted(n: Arithmetic, buffer: array<nat>, scores: seq<nat>, largest: nat, from: nat, span: nat)
    requires |scores| <= span <= buffer.Length
    reads buffer
  {
    && (forall p | 0 <= p < from && p < span :: buffer[p] == Weight(n, scores, largest, p))
    && (forall p | from <= p < span :: buffer[p] == if p < |scores| then scores[p] else LOWEST)
  }

  /** Four slots: read, replaced by their exponentials, and summed. */
  method ExponentialTile(n: Arithmetic, buffer: array<nat>, ghost scores: seq<nat>, largest: nat, position: nat,
                         ghost span: nat)
      returns (sum: nat)
    requires |scores| <= span <= buffer.Length && position + 4 <= span
    requires Weighted(n, buffer, scores, largest, position, span)
    modifies buffer
    ensures Weighted(n, buffer, scores, largest, position + 4, span)
    ensures sum == TileSum(n, scores, largest, position)
  {
    var p0 := n.exp(n.sub(buffer[position], largest));
    var p1 := n.exp(n.sub(buffer[position + 1], largest));
    var p2 := n.exp(n.sub(buffer[position + 2], largest));
    var p3 := n.exp(n.sub(buffer[position + 3], largest));
    buffer[position], buffer[position + 1], buffer[position + 2], buffer[position + 3] := p0, p1, p2, p3;
    sum := n.add(n.add(p0, p1), n.add(p2, p3));
  }

  /** The exponential loop over the whole tiles. */
  method Exponentials(n: Arithmetic, buffer: array<nat>, ghost scores: seq<nat>, largest: nat, tiles: nat,
                      ghost span: nat)
      returns (sum: nat)
    requires |scores| <= span <= buffer.Length && span == tiles * KV_TILE
    requires Weighted(n, buffer, scores, largest, 0, span)
    modifies buffer
    ensures Weighted(n, buffer, scores, largest, span, span)
    ensures sum == WeightSum(n, scores, largest, tiles)
  {
    sum := 0;
    for tile := 0 to tiles
      invariant Weighted(n, buffer, scores, largest, tile * KV_TILE, span)
      invariant sum == WeightSum(n, scores, largest, tile)
    {
      var tileSum := ExponentialTile(n, buffer, scores, largest, tile * KV_TILE, span);
      sum := n.addWide(sum, n.widen(tileSum));
    }
  }

  /** The last loop: weights become probabilities. */
  method Scale(n: Arithmetic, buffer: array<nat>, positions: nat, normalizer: nat)
    requires positions <= buffer.Length
    modifies buffer
    ensures forall p | 0 <= p < positions :: buffer[p] == n.mul(old(buffer[p]), normalizer)
  {
    for position := 0 to positions
      invariant forall p | 0 <= p < positions ::
        buffer[p] == if p < position then n.mul(old(buffer[p]), normalizer) else old(buffer[p])
    {
      buffer[position] := n.mul(buffer[position], normalizer);
    }
  }

  /** From scores to probabilities, in the buffer. */
  method Normalise(n: Arithmetic, buffer: array<nat>, ghost scores: seq<nat>, positions: nat, span: nat)
    requires |scores| == positions && span == Span(positions) <= buffer.Length && buffer[..positions] == scores
    modifies buffer
    ensures Probable(n, buffer, scores)
  {
    var largest := FindLargest(n, buffer, positions, scores);
    Mask(buffer, positions, span);
    assert forall p | 0 <= p < positions :: buffer[p] == buffer[..positions][p];
    var sum := Exponentials(n, buffer, scores, largest, Tiles(positions), span);
    Scale(n, buffer, positions, n.narrow(n.inverse(sum)));
  }

  /** The buffer holds the probabilities of all positions. */
  ghost predicate Probable(n: Arithmetic, buffer: array<nat>, scores: seq<nat>)
    reads buffer
  {
    |scores| <= buffer.Length && forall p | 0 <= p < |scores| :: buffer[p] == Probability(n, scores, p)
  }

  // ---- the value loops ----

  /** One output word; `word` is its place in a vector of values. */
  function HeadWord(n: Arithmetic, scores: seq<nat>, values: seq<Vector>, word: nat): nat
    requires word < VECTOR_WORDS
  {
    n.narrow(Total(n, scores, values, word, |values|))
  }

  /** The output words of a query head; `kvBase` is where its key-value head starts in a vector. */
  function HeadWords(n: Arithmetic, scores: seq<nat>, values: seq<Vector>, kvBase: nat): (words: seq<nat>)
    requires kvBase + HEAD_WORDS <= VECTOR_WORDS
    ensures |words| == HEAD_WORDS
  {
    seq<nat>(HEAD_WORDS, c requires 0 <= c < HEAD_WORDS => HeadWord(n, scores, values, kvBase + c))
  }

  /** `now` holds the first `count` of `words` from `base` on, and is as `before` elsewhere. */
  ghost predicate Stored(before: seq<nat>, now: seq<nat>, base: nat, words: seq<nat>, count: nat)
    requires count <= |words| && base + count <= |now| == |before|
  {
    && (forall c | 0 <= c < count :: now[base + c] == words[c])
    && (forall i | 0 <= i < |now| && !(base <= i < base + count) :: now[i] == before[i])
  }

  lemma StoredStep(before: seq<nat>, now: seq<nat>, base: nat, words: seq<nat>, count: nat)
    requires count < |words| && base + |words| <= |now| == |before| && Stored(before, now, base, words, count)
    ensures Stored(before, now[base + count := words[count]], base, words, count + 1)
  {
  }

  lemma HeadWordsAt(n: Arithmetic, scores: seq<nat>, values: seq<Vector>, from: nat, component: nat)
    requires from + HEAD_WORDS <= VECTOR_WORDS && component < HEAD_WORDS
    ensures HeadWords(n, scores, values, from)[component]
         == n.narrow(Total(n, scores, values, from + component, |values|))
  {
    assert HeadWords(n, scores, values, from)[component] == HeadWord(n, scores, values, from + component);
  }

  /** `attention_values_sse2`: one component after the other. */
  method ValuesSse2(n: Arithmetic, kv: array<nat>, buffer: array<nat>, output: array<nat>, layer: nat, base: nat,
                    kvHead: nat, positions: nat, ghost scores: seq<nat>)
    requires kv.Length == KV_WORDS && output != kv && output != buffer && base + HEAD_WORDS <= output.Length
    requires layer < LAYERS && kvHead < KV_HEADS && positions <= CONTEXT_LIMIT
    requires |scores| == positions && Probable(n, buffer, scores)
    modifies output
    ensures var words := HeadWords(n, scores, Gather(kv[..], layer, 1, positions), kvHead * HEAD_WORDS);
      Stored(old(output[..]), output[..], base, words, HEAD_WORDS)
  {
    ghost var values := Gather(kv[..], layer, 1, positions);
    hide HeadWords, Total;
    ghost var words := HeadWords(n, scores, values, kvHead * HEAD_WORDS);
    for component := 0 to HEAD_WORDS
      invariant kv[..] == old(kv[..]) && Stored(old(output[..]), output[..], base, words, component)
    {
      var total := TotalOf(n, kv, buffer, layer, kvHead, component, positions, scores);
      assert total == Total(n, scores, values, kvHead * HEAD_WORDS + component, |values|);
      ghost var now := output[..];
      HeadWordsAt(n, scores, values, kvHead * HEAD_WORDS, component);
      output[base + component] := n.narrow(total);
      assert output[..] == now[base + component := n.narrow(total)];
      StoredStep(old(output[..]), now, base, words, component);
    }
  }

  /** The inner loop over the positions. */
  method TotalOf(n: Arithmetic, kv: array<nat>, buffer: array<nat>, layer: nat, kvHead: nat, component: nat,
                 positions: nat, ghost scores: seq<nat>)
      returns (total: nat)
    requires kv.Length == KV_WORDS && layer < LAYERS && kvHead < KV_HEADS && component < HEAD_WORDS
    requires positions <= CONTEXT_LIMIT && |scores| == positions && Probable(n, buffer, scores)
    ensures var values := Gather(kv[..], layer, 1, positions);
      total == Total(n, scores, values, kvHead * HEAD_WORDS + component, positions)
  {
    ghost var values := Gather(kv[..], layer, 1, positions);
    total := 0;
    for position := 0 to positions
      invariant total == Total(n, scores, values, kvHead * HEAD_WORDS + component, position)
    {
      WordOfVector(kv[..], layer, 1, position, kvHead, component);
      var value := kv[KvWord(layer, 1, position, kvHead, component)];
      total := n.addWide(total, n.widen(n.mul(buffer[position], value)));
    }
  }

  /** `attention_values_avx2`: four components at once. */
  method ValuesAvx2(n: Arithmetic, kv: array<nat>, buffer: array<nat>, output: array<nat>, layer: nat, base: nat,
                    kvHead: nat, positions: nat, ghost scores: seq<nat>)
    requires kv.Length == KV_WORDS && output != kv && output != buffer && base + HEAD_WORDS <= output.Length
    requires layer < LAYERS && kvHead < KV_HEADS && positions <= CONTEXT_LIMIT
    requires |scores| == positions && Probable(n, buffer, scores)
    modifies output
    ensures var words := HeadWords(n, scores, Gather(kv[..], layer, 1, positions), kvHead * HEAD_WORDS);
      Stored(old(output[..]), output[..], base, words, HEAD_WORDS)
  {
    ghost var values := Gather(kv[..], layer, 1, positions);
    ghost var words := HeadWords(n, scores, values, kvHead * HEAD_WORDS);
    for tile := 0 to HEAD_WORDS / 4
      invariant kv[..] == old(kv[..]) && Stored(old(output[..]), output[..], base, words, tile * 4)
    {
      var component := tile * 4;
      var totals := FourTotals(n, kv, buffer, layer, kvHead, component, positions, scores);
      ghost var now := output[..];
      NarrowedWords(n, scores, values, kvHead * HEAD_WORDS, totals, component);
      var lanes := Narrowed(n, totals);
      CopyFour(output, base + component, lanes);
      StoredFour(old(output[..]), now, output[..], base, words, component, lanes);
    }
  }

  function Narrowed(n: Arithmetic, totals: seq<nat>): (r: seq<nat>)
    requires |totals| == 4
    ensures |r| == 4 && forall l | 0 <= l < 4 :: r[l] == n.narrow(totals[l])
  {
    [n.narrow(totals[0]), n.narrow(totals[1]), n.narrow(totals[2]), n.narrow(totals[3])]
  }

  lemma NarrowedWords(n: Arithmetic, scores: seq<nat>, values: seq<Vector>, kvBase: nat, totals: seq<nat>, component: nat)
    requires |totals| == 4 && component + 4 <= HEAD_WORDS && kvBase + HEAD_WORDS <= VECTOR_WORDS
    requires forall l | 0 <= l < 4 :: totals[l] == Total(n, scores, values, kvBase + component + l, |values|)
    ensures Narrowed(n, totals) == HeadWords(n, scores, values, kvBase)[component..component + 4]
  {
    forall l | 0 <= l < 4
      ensures Narrowed(n, totals)[l] == HeadWords(n, scores, values, kvBase)[component + l]
    {
      var c := component + l;
      assert HeadWords(n, scores, values, kvBase)[c] == HeadWord(n, scores, values, kvBase + c);
    }
  }

  /** The copy of four output words. */
  method CopyFour(output: array<nat>, word: nat, lanes: seq<nat>)
    requires |lanes| == 4 && word + 4 <= output.Length
    modifies output
    ensures forall i | 0 <= i < output.Length ::
      output[i] == if word <= i < word + 4 then lanes[i - word] else old(output[i])
  {
    output[word], output[word + 1], output[word + 2], output[word + 3] := lanes[0], lanes[1], lanes[2], lanes[3];
  }

  lemma StoredFour(before: seq<nat>, now: seq<nat>, next: seq<nat>, base: nat, words: seq<nat>, count: nat,
                   lanes: seq<nat>)
    requires count + 4 <= |words| && base + |words| <= |now| == |before| && Stored(before, now, base, words, count)
    requires |next| == |now| && |lanes| == 4 && lanes == words[count..count + 4]
    requires forall i | 0 <= i < |now| ::
      next[i] == if base + count <= i < base + count + 4 then lanes[i - (base + count)] else now[i]
    ensures Stored(before, next, base, words, count + 4)
  {
  }

  method FourTotals(n: Arithmetic, kv: array<nat>, buffer: array<nat>, layer: nat, kvHead: nat, component: nat,
                    positions: nat, ghost scores: seq<nat>)
      returns (totals: seq<nat>)
    requires kv.Length == KV_WORDS && layer < LAYERS && kvHead < KV_HEADS && component + 4 <= HEAD_WORDS
    requires positions <= CONTEXT_LIMIT && |scores| == positions && Probable(n, buffer, scores)
    ensures |totals| == 4
    ensures var values := Gather(kv[..], layer, 1, positions);
      forall l | 0 <= l < 4 :: totals[l] == Total(n, scores, values, kvHead * HEAD_WORDS + component + l, positions)
  {
    ghost var values := Gather(kv[..], layer, 1, positions);
    totals := [0, 0, 0, 0];
    for position := 0 to positions
      invariant |totals| == 4
      invariant forall l | 0 <= l < 4 ::
        totals[l] == Total(n, scores, values, kvHead * HEAD_WORDS + component + l, position)
    {
      var lanes := FourValues(kv, layer, kvHead, position, component);
      totals := MulAdd(n, totals, buffer[position], lanes);
    }
  }

  /** Four components of one value. */
  method FourValues(kv: array<nat>, layer: nat, kvHead: nat, position: nat, component: nat) returns (lanes: seq<nat>)
    requires kv.Length == KV_WORDS && layer < LAYERS && kvHead < KV_HEADS && position < CONTEXT_LIMIT
    requires component + 4 <= HEAD_WORDS
    ensures |lanes| == 4
    ensures forall l | 0 <= l < 4 ::
      lanes[l] == VectorAt(kv[..], layer, 1, position)[kvHead * HEAD_WORDS + component + l]
  {
    hide KvWord, VectorAt;
    ValueWord(kv[..], layer, position, kvHead, component, 0);
    ValueWord(kv[..], layer, position, kvHead, component, 1);
    ValueWord(kv[..], layer, position, kvHead, component, 2);
    ValueWord(kv[..], layer, position, kvHead, component, 3);
    lanes := LoadLanes(kv, KvWord(layer, 1, position, kvHead, component), 4);
  }

  lemma ValueWord(kv: seq<nat>, layer: nat, position: nat, kvHead: nat, component: nat, l: nat)
    requires |kv| == KV_WORDS && InArena(Address(layer, 1, position, kvHead, component + l))
    ensures var word := KvWord(layer, 1, position, kvHead, component);
      && word + l < KV_WORDS
      && VectorAt(kv, layer, 1, position)[kvHead * HEAD_WORDS + component + l] == kv[word + l]
  {
    ValueLanes(layer, position, kvHead, component, l);
    WordOfVector(kv, layer, 1, position, kvHead, component + l);
  }

  // ---- all heads ----

  /** One query head. */
  method AttendHead(n: Arithmetic, avx2: bool, query: Query, kv: array<nat>, output: array<nat>, buffer: array<nat>,
                    layer: nat, head: nat, positions: nat, span: nat)
    requires Place(kv, buffer, layer, head, positions, span) && span == Span(positions)
    requires output.Length == QUERY_WORDS && output != kv && output != buffer
    modifies buffer, output
    ensures var scores := Scores(n, query, Gather(kv[..], layer, 0, positions), head);
      var words := HeadWords(n, scores, Gather(kv[..], layer, 1, positions), head / HEADS_PER_KV * HEAD_WORDS);
      Stored(old(output[..]), output[..], head * HEAD_WORDS, words, HEAD_WORDS)
  {
    ghost var scores := Scores(n, query, Gather(kv[..], layer, 0, positions), head);
    if avx2 {
      ScoresAvx2(n, query, kv, buffer, layer, head, positions, span);
    } else {
      ScoresSse2(n, query, kv, buffer, layer, head, positions, span);
    }
    Normalise(n, buffer, scores, positions, span);
    var base, kvHead := head * HEAD_WORDS, head / HEADS_PER_KV;
    if avx2 {
      ValuesAvx2(n, kv, buffer, output, layer, base, kvHead, positions, scores);
    } else {
      ValuesSse2(n, kv, buffer, output, layer, base, kvHead, positions, scores);
    }
  }

  /**
   `inference_attention`: whatever the score buffer and the arena beyond the current position hold, and with either set
   of loops, the output is the attention over the keys and values of the positions up to the current one.
   */
  method RunAttention(n: Arithmetic, avx2: bool, query: Query, kv: array<nat>, output: array<nat>, buffer: array<nat>,
                      layer: nat, position: nat)
    requires kv.Length == KV_WORDS && buffer.Length == CONTEXT_LIMIT && output.Length == QUERY_WORDS
    requires kv != buffer && output != kv && output != buffer && layer < LAYERS && position < CONTEXT_LIMIT
    modifies buffer, output
    ensures output[..]
         == Attend(n, query, Gather(kv[..], layer, 0, position + 1), Gather(kv[..], layer, 1, position + 1))
  {
    ghost var keys, values := Gather(kv[..], layer, 0, position + 1), Gather(kv[..], layer, 1, position + 1);
    for head := 0 to QUERY_HEADS
      invariant kv[..] == old(kv[..])
      invariant forall i | 0 <= i < head * HEAD_WORDS ::
        output[i] == AttendWord(n, query, keys, values, i / HEAD_WORDS, i % HEAD_WORDS)
    {
      AttendHead(n, avx2, query, kv, output, buffer, layer, head, position + 1, Span(position + 1));
      forall i | head * HEAD_WORDS <= i < (head + 1) * HEAD_WORDS
        ensures output[i] == AttendWord(n, query, keys, values, i / HEAD_WORDS, i % HEAD_WORDS)
      {
        WordOfHead(n, query, keys, values, head, i);
      }
    }
  }

  lemma WordOfHead(n: Arithmetic, query: Query, keys: seq<Vector>, values: seq<Vector>, head: nat, i: nat)
    requires head < QUERY_HEADS && head * HEAD_WORDS <= i < (head + 1) * HEAD_WORDS
    ensures i / HEAD_WORDS == head
    ensures AttendWord(n, query, keys, values, i / HEAD_WORDS, i % HEAD_WORDS)
         == HeadWords(n, Scores(n, query, keys, head), values, head / HEADS_PER_KV * HEAD_WORDS)[i - head * HEAD_WORDS]
  {
    hide HeadWords, Scores, Total;
    HeadWordsAt(n, Scores(n, query, keys, head), values, head / HEADS_PER_KV * HEAD_WORDS, i - head * HEAD_WORDS);
  }
}
