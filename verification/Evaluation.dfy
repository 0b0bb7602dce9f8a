/**
 What evaluating tokens from scratch means: one transformer evaluation as a function of the
 rows that earlier positions left behind.
 */
module Evaluation {
  import opened Attention
  import opened Binary32
  import opened KvLayout
  import opened Wrappers

  const FFN_WORDS := 4_864
  const LOGIT_WORDS := 151_936

  type Words = seq<nat>

  /** The hidden state, and everything as wide as it. */
  type Hidden = Query

  type Wide = w: Words | |w| == FFN_WORDS witness seq(FFN_WORDS, _ => 0)

  datatype KV = KV(key: Vector, value: Vector)

  const BLANK: KV := KV(seq(VECTOR_WORDS, _ => 0), seq(VECTOR_WORDS, _ => 0))

  /** One position's entry in every layer. */
  type Row = r: seq<KV> | |r| == LAYERS witness seq(LAYERS, _ => BLANK)

  // ---- matrix products ----

  /** The matrices of a layer in the order of their use, and the one after the last layer. */
  datatype Product = Q | K | V | ATTN_OUTPUT | GATE | UP | DOWN | LOGITS

  function ProductRows(product: Product): nat {
    match product
    case Q => QUERY_WORDS
    case K => VECTOR_WORDS
    case V => VECTOR_WORDS
    case ATTN_OUTPUT => QUERY_WORDS
    case GATE => FFN_WORDS
    case UP => FFN_WORDS
    case DOWN => QUERY_WORDS
    case LOGITS => LOGIT_WORDS
  }

  /** A product that the evaluation asks for: which matrix, and the staged vector. */
  datatype Input = Input(layer: nat, product: Product, staged: Words)

  datatype Norm = ATTN_NORM(layer: nat) | FFN_NORM(layer: nat) | OUTPUT_NORM

  /** The loaded weights together with the numeric kernels; `row` is one row of a matrix product. */
  datatype Model = Model(
    numbers: Arithmetic,
    embedding: nat -> Hidden,
    rmsnorm: (Norm, Hidden) -> Hidden,
    stage: Words -> Words,
    row: (Input, nat) -> nat,
    biasQuery: (nat, Hidden) -> Hidden,
    biasKey: (nat, Vector) -> Vector,
    biasValue: (nat, Vector) -> Vector,
    rotateQuery: (nat, Hidden) -> Query,
    rotateKey: (nat, Vector) -> Vector,
    residual: (Hidden, Hidden) -> Hidden,
    swiglu: (Wide, Wide) -> Wide,
    argmax: Words -> nat,
    eos: nat)

  function Apply(m: Model, input: Input): (words: Words)
    ensures |words| == ProductRows(input.product)
  {
    seq<nat>(ProductRows(input.product), r requires 0 <= r < ProductRows(input.product) => m.row(input, r))
  }

  // ---- one layer ----

  /** Query and cache entry of one position: three products, three biases, the rotations, and all checks. */
  function Project(m: Model, layer: nat, position: nat, hidden: Hidden): Option<(Query, KV)> {
    var norm := m.rmsnorm(ATTN_NORM(layer), hidden);
    :- Need(AllFinite(norm));
    var staged := m.stage(norm);
    var q := m.biasQuery(layer, Apply(m, Input(layer, Q, staged)));
    :- Need(AllFinite(q));
    var k := m.biasKey(layer, Apply(m, Input(layer, K, staged)));
    :- Need(AllFinite(k));
    var v := m.biasValue(layer, Apply(m, Input(layer, V, staged)));
    :- Need(AllFinite(v));
    var query, key := m.rotateQuery(position, q), m.rotateKey(position, k);
    :- Need(AllFinite(query) && AllFinite(key));
    Some((query, KV(key, v)))
  }

  /** The attention output projected back and added to the hidden state. */
  function Mix(m: Model, layer: nat, hidden: Hidden, heads: Query): Option<Hidden> {
    var staged := m.stage(heads);
    :- Need(AllFinite(heads));
    var mixed := m.residual(hidden, Apply(m, Input(layer, ATTN_OUTPUT, staged)));
    :- Need(AllFinite(mixed));
    Some(mixed)
  }

  function FeedForward(m: Model, layer: nat, hidden: Hidden): Option<Hidden> {
    var norm := m.rmsnorm(FFN_NORM(layer), hidden);
    :- Need(AllFinite(norm));
    var staged := m.stage(norm);
    var gate := Apply(m, Input(layer, GATE, staged));
    :- Need(AllFinite(gate));
    var up := Apply(m, Input(layer, UP, staged));
    :- Need(AllFinite(up));
    var product := m.swiglu(gate, up);
    :- Need(AllFinite(product));
    var next := m.residual(hidden, Apply(m, Input(layer, DOWN, m.stage(product))));
    :- Need(AllFinite(next));
    Some(next)
  }

  function SecondHalf(m: Model, layer: nat, hidden: Hidden, heads: Query): Option<Hidden> {
    var mixed :- Mix(m, layer, hidden, heads);
    FeedForward(m, layer, mixed)
  }

  function Keys(rows: seq<Row>, layer: nat): seq<Vector>
    requires layer < LAYERS
  {
    seq(|rows|, p requires 0 <= p < |rows| => rows[p][layer].key)
  }

  function Values(rows: seq<Row>, layer: nat): seq<Vector>
    requires layer < LAYERS
  {
    seq(|rows|, p requires 0 <= p < |rows| => rows[p][layer].value)
  }

  /** What attention gives for the position after `rows`, whose own entry is `entry`. */
  function Heads(m: Model, rows: seq<Row>, layer: nat, query: Query, entry: KV): Query
    requires layer < LAYERS
  {
    Attend(m.numbers, query, Keys(rows, layer) + [entry.key], Values(rows, layer) + [entry.value])
  }

  /** One layer of one token at position `|rows|`: its cache entry and the next hidden state. */
  function EvalLayer(m: Model, rows: seq<Row>, layer: nat, hidden: Hidden): Option<(KV, Hidden)>
    requires layer < LAYERS
  {
    var projected :- Project(m, layer, |rows|, hidden);
    var next :- SecondHalf(m, layer, hidden, Heads(m, rows, layer, projected.0, projected.1));
    Some((projected.1, next))
  }

  // ---- one token ----

  /** Layers `|done|..`, entered with `hidden`. */
  function EvalLayers(m: Model, rows: seq<Row>, hidden: Hidden, done: seq<KV>): Option<(Row, Hidden)>
    requires |done| <= LAYERS
    decreases LAYERS - |done|
  {
    if |done| == LAYERS then Some((done, hidden))
    else
      var layer :- EvalLayer(m, rows, |done|, hidden);
      EvalLayers(m, rows, layer.1, done + [layer.0])
  }

  function EvalToken(m: Model, rows: seq<Row>, token: nat): Option<(Row, Hidden)> {
    var hidden := m.embedding(token);
    :- Need(AllFinite(hidden));
    EvalLayers(m, rows, hidden, [])
  }

  /** The logits for the last hidden state. */
  function Readout(m: Model, hidden: Hidden): Option<Words> {
    var norm := m.rmsnorm(OUTPUT_NORM, hidden);
    :- Need(AllFinite(norm));
    var logits := Apply(m, Input(LAYERS, LOGITS, m.stage(norm)));
    :- Need(AllFinite(logits));
    Some(logits)
  }

  // ---- many tokens ----

  /** Rows left behind by evaluating all of `tokens` from an empty cache. */
  function FreshRows(m: Model, tokens: seq<nat>): (rows: Option<seq<Row>>)
    ensures rows.Some? ==> |rows.value| == |tokens|
  {
    if tokens == [] then Some([])
    else
      match FreshRows(m, tokens[..|tokens| - 1])
      case None => None
      case Some(rows) =>
        match EvalToken(m, rows, tokens[|tokens| - 1])
        case None => None
        case Some((row, _)) => Some(rows + [row])
  }

  /** Logits after the last of `tokens`, all evaluated from scratch. */
  function FreshLogits(m: Model, tokens: seq<nat>): Option<Words>
    requires tokens != []
  {
    match FreshRows(m, tokens[..|tokens| - 1])
    case None => None
    case Some(rows) =>
      match EvalToken(m, rows, tokens[|tokens| - 1])
      case None => None
      case Some((_, hidden)) => Readout(m, hidden)
  }

  /** The rows of a prefix do not depend on what follows it. */
  lemma {:induction false} FreshRowsPrefix(m: Model, tokens: seq<nat>, n: nat)
    requires n <= |tokens| && FreshRows(m, tokens).Some?
    ensures FreshRows(m, tokens[..n]) == Some(FreshRows(m, tokens).value[..n])
  {
    var rows := FreshRows(m, tokens).value;
    if n == |tokens| {
      assert tokens[..n] == tokens && rows[..n] == rows;
    } else {
      var shorter := tokens[..|tokens| - 1];
      FreshRowsPrefix(m, shorter, n);
      assert shorter[..n] == tokens[..n];
      assert FreshRows(m, shorter).value[..n] == rows[..n];
    }
  }

  lemma FreshRowsAppend(m: Model, tokens: seq<nat>, token: nat)
    requires FreshRows(m, tokens).Some?
    ensures var next := EvalToken(m, FreshRows(m, tokens).value, token);
      && FreshRows(m, tokens + [token]) ==
           (if next.Some? then Some(FreshRows(m, tokens).value + [next.value.0]) else None)
      && FreshLogits(m, tokens + [token]) == (if next.Some? then Readout(m, next.value.1) else None)
  {
    assert (tokens + [token])[..|tokens|] == tokens;
  }

  lemma NoRowNoLogits(m: Model, tokens: seq<nat>, token: nat)
    requires FreshRows(m, tokens).Some? && FreshRows(m, tokens + [token]).None?
    ensures FreshLogits(m, tokens + [token]).None?
  {
    FreshRowsAppend(m, tokens, token);
  }

  /** If the whole can be evaluated, so can every prefix of it. */
  lemma FreshLogitsPrefix(m: Model, tokens: seq<nat>, n: nat)
    requires 0 < n <= |tokens|
    ensures FreshLogits(m, tokens).Some? ==> FreshRows(m, tokens[..n]).Some?
    ensures FreshLogits(m, tokens).Some? && n == |tokens| ==> FreshLogits(m, tokens[..n]).Some?
  {
    if FreshLogits(m, tokens).Some? {
      FreshRowsPrefix(m, tokens, n);
      assert n == |tokens| ==> tokens[..n] == tokens;
    }
  }
}
