/**
 What an evaluation reads and what goes through it, without looking at how it is put together: each part of a layer
 depends on its own weights alone, and where nothing is added the hidden state passes through.
 */
module EvaluationMeaning {
  import opened Attention
  import opened Binary32
  import opened Evaluation
  import opened KvLayout
  import opened Wrappers

  // ---- what the parts read ----

  /** The two models have the same matrix for a product. */
  ghost predicate SameMatrix(m: Model, n: Model, layer: nat, product: Product) {
    forall staged, r: nat :: m.row(Input(layer, product, staged), r) == n.row(Input(layer, product, staged), r)
  }

  ghost predicate SameNorm(m: Model, n: Model, norm: Norm) {
    m.stage == n.stage && forall hidden :: m.rmsnorm(norm, hidden) == n.rmsnorm(norm, hidden)
  }

  ghost predicate SameQuery(m: Model, n: Model, layer: nat, position: nat) {
    && SameMatrix(m, n, layer, Q)
    && (forall q :: m.biasQuery(layer, q) == n.biasQuery(layer, q))
    && (forall q :: m.rotateQuery(position, q) == n.rotateQuery(position, q))
  }

  ghost predicate SameKey(m: Model, n: Model, layer: nat, position: nat) {
    && SameMatrix(m, n, layer, K)
    && (forall k :: m.biasKey(layer, k) == n.biasKey(layer, k))
    && (forall k :: m.rotateKey(position, k) == n.rotateKey(position, k))
  }

  ghost predicate SameValue(m: Model, n: Model, layer: nat) {
    SameMatrix(m, n, layer, V) && forall v :: m.biasValue(layer, v) == n.biasValue(layer, v)
  }

  lemma SameProduct(m: Model, n: Model, input: Input)
    requires SameMatrix(m, n, input.layer, input.product)
    ensures Apply(m, input) == Apply(n, input)
  {
    forall r: nat | r < ProductRows(input.product) ensures m.row(input, r) == n.row(input, r) {
      assert input == Input(input.layer, input.product, input.staged);
    }
  }

  /**
   Query, key and value each come from their own matrix and bias in this layer, under the norm before attention; query
   and key are rotated for this position, the value is not.
   */
  lemma ProjectReads(m: Model, n: Model, layer: nat, position: nat, hidden: Hidden)
    requires SameNorm(m, n, ATTN_NORM(layer))
    requires Project(m, layer, position, hidden).Some? && Project(n, layer, position, hidden).Some?
    ensures var (q, entry) := Project(m, layer, position, hidden).value;
      var (q', entry') := Project(n, layer, position, hidden).value;
      && (SameQuery(m, n, layer, position) ==> q == q')
      && (SameKey(m, n, layer, position) ==> entry.key == entry'.key)
      && (SameValue(m, n, layer) ==> entry.value == entry'.value)
  {
    hide Apply;
    var staged := m.stage(m.rmsnorm(ATTN_NORM(layer), hidden));
    if SameQuery(m, n, layer, position) { SameProduct(m, n, Input(layer, Q, staged)); }
    if SameKey(m, n, layer, position) { SameProduct(m, n, Input(layer, K, staged)); }
    if SameValue(m, n, layer) { SameProduct(m, n, Input(layer, V, staged)); }
  }

  /** The second half of a layer reads its three matrices and the norm before them. */
  lemma FeedForwardReads(m: Model, n: Model, layer: nat, hidden: Hidden)
    requires SameNorm(m, n, FFN_NORM(layer)) && m.swiglu == n.swiglu && m.residual == n.residual
    requires SameMatrix(m, n, layer, GATE) && SameMatrix(m, n, layer, UP) && SameMatrix(m, n, layer, DOWN)
    ensures FeedForward(m, layer, hidden) == FeedForward(n, layer, hidden)
  {
    hide Apply, SameMatrix;
    var staged := m.stage(m.rmsnorm(FFN_NORM(layer), hidden));
    var gate, up := Input(layer, GATE, staged), Input(layer, UP, staged);
    SameProduct(m, n, gate);
    SameProduct(m, n, up);
    SameProduct(m, n, Input(layer, DOWN, m.stage(m.swiglu(Apply(m, gate), Apply(m, up)))));
  }

  /** Two models that differ in their rotations only, and not at this position. */
  ghost predicate SameAt(m: Model, n: Model, position: nat) {
    && n == m.(rotateQuery := n.rotateQuery, rotateKey := n.rotateKey)
    && (forall q :: m.rotateQuery(position, q) == n.rotateQuery(position, q))
    && (forall k :: m.rotateKey(position, k) == n.rotateKey(position, k))
  }

  lemma SameProjection(m: Model, n: Model, layer: nat, position: nat, hidden: Hidden)
    requires SameAt(m, n, position)
    ensures Project(m, layer, position, hidden) == Project(n, layer, position, hidden)
  {
    hide Apply, Finite;
    var staged := m.stage(m.rmsnorm(ATTN_NORM(layer), hidden));
    SameProduct(m, n, Input(layer, Q, staged));
    SameProduct(m, n, Input(layer, K, staged));
    SameProduct(m, n, Input(layer, V, staged));
  }

  lemma SameMix(m: Model, n: Model, layer: nat, position: nat, hidden: Hidden, heads: Query)
    requires SameAt(m, n, position)
    ensures Mix(m, layer, hidden, heads) == Mix(n, layer, hidden, heads)
  {
    hide Apply, Finite;
    SameProduct(m, n, Input(layer, ATTN_OUTPUT, m.stage(heads)));
  }

  /** A layer rotates for one position only: that of the token behind the rows. */
  lemma PositionRead(m: Model, n: Model, rows: seq<Row>, layer: nat, hidden: Hidden)
    requires layer < LAYERS && SameAt(m, n, |rows|)
    ensures EvalLayer(m, rows, layer, hidden) == EvalLayer(n, rows, layer, hidden)
  {
    hide Project, Mix, FeedForward, Attend;
    SameProjection(m, n, layer, |rows|, hidden);
    var projected := Project(m, layer, |rows|, hidden);
    if projected.Some? {
      var heads := Heads(m, rows, layer, projected.value.0, projected.value.1);
      SameMix(m, n, layer, |rows|, hidden, heads);
      var mixed := Mix(m, layer, hidden, heads);
      if mixed.Some? {
        FeedForwardReads(m, n, layer, mixed.value);
      }
    }
  }

  // ---- what goes through ----

  /** The product is zero whatever is put in. */
  ghost predicate Silent(m: Model, layer: nat, product: Product) {
    forall staged, r: nat :: m.row(Input(layer, product, staged), r) == 0
  }

  /** Adding zeros to a hidden state leaves it as it is. */
  ghost predicate AddsNothing(m: Model) {
    forall hidden: Hidden, zeros: Hidden | IsZero(zeros) :: m.residual(hidden, zeros) == hidden
  }

  /** A closed gate lets nothing of the other product through. */
  ghost predicate GateCloses(m: Model) {
    forall gate: Wide, up: Wide | IsZero(gate) :: IsZero(m.swiglu(gate, up))
  }

  predicate IsZero(words: Words) {
    forall i | 0 <= i < |words| :: words[i] == 0
  }

  /** What is projected back from attention is added to the hidden state. */
  lemma MixPasses(m: Model, layer: nat, hidden: Hidden, heads: Query)
    requires AddsNothing(m) && Silent(m, layer, ATTN_OUTPUT) && Mix(m, layer, hidden, heads).Some?
    ensures Mix(m, layer, hidden, heads) == Some(hidden)
  {
    assert IsZero(Apply(m, Input(layer, ATTN_OUTPUT, m.stage(heads))));
  }

  /** So is what the second half gives. */
  lemma FeedForwardPasses(m: Model, layer: nat, hidden: Hidden)
    requires AddsNothing(m) && Silent(m, layer, DOWN) && FeedForward(m, layer, hidden).Some?
    ensures FeedForward(m, layer, hidden) == Some(hidden)
  {
    hide Finite;
    var staged := m.stage(m.rmsnorm(FFN_NORM(layer), hidden));
    var product := m.swiglu(Apply(m, Input(layer, GATE, staged)), Apply(m, Input(layer, UP, staged)));
    assert IsZero(Apply(m, Input(layer, DOWN, m.stage(product))));
  }

  /** It is the gate, not the other product, that closes: then only zeros are staged for the last product. */
  lemma ClosedGate(m: Model, layer: nat, hidden: Hidden)
    requires AddsNothing(m) && GateCloses(m) && Silent(m, layer, GATE) && FeedForward(m, layer, hidden).Some?
    requires forall words: Wide | IsZero(words) :: IsZero(Apply(m, Input(layer, DOWN, m.stage(words))))
    ensures FeedForward(m, layer, hidden) == Some(hidden)
  {
    hide Finite;
    var staged := m.stage(m.rmsnorm(FFN_NORM(layer), hidden));
    var gate := Apply(m, Input(layer, GATE, staged));
    assert IsZero(gate);
    assert IsZero(m.swiglu(gate, Apply(m, Input(layer, UP, staged))));
  }

  /** Attention and second half of every layer add nothing. */
  ghost predicate Bypassed(m: Model) {
    AddsNothing(m) && forall layer: nat | layer < LAYERS :: Silent(m, layer, ATTN_OUTPUT) && Silent(m, layer, DOWN)
  }

  lemma {:induction false} LayersPass(m: Model, rows: seq<Row>, hidden: Hidden, done: seq<KV>)
    requires Bypassed(m) && |done| <= LAYERS && EvalLayers(m, rows, hidden, done).Some?
    ensures EvalLayers(m, rows, hidden, done).value.1 == hidden
    decreases LAYERS - |done|
  {
    hide Project, Mix, FeedForward, Heads, Silent, AddsNothing;
    if |done| < LAYERS {
      var layer := |done|;
      var (query, entry) := Project(m, layer, |rows|, hidden).value;
      var heads := Heads(m, rows, layer, query, entry);
      MixPasses(m, layer, hidden, heads);
      FeedForwardPasses(m, layer, hidden);
      LayersPass(m, rows, hidden, done + [entry]);
    }
  }

  /** Then the embedding of the last token is read out as it is, whatever tokens came before it. */
  lemma BypassedReadout(m: Model, tokens: seq<nat>)
    requires Bypassed(m) && tokens != [] && FreshLogits(m, tokens).Some?
    ensures FreshLogits(m, tokens) == Readout(m, m.embedding(tokens[|tokens| - 1]))
  {
    hide Readout, FreshRows, EvalLayers, Bypassed, Finite;
    var rows := FreshRows(m, tokens[..|tokens| - 1]).value;
    LayersPass(m, rows, m.embedding(tokens[|tokens| - 1]), []);
  }
}
