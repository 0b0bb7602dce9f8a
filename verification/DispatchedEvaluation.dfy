/**
 A token evaluated by all processors together.  The layer loop asks for its matrix products one at a time; whoever
 computes their rows, the token ends as it does on one processor.
 */
module DispatchedEvaluation {
  import opened Attention
  import opened Dispatch
  import opened DispatchProgress
  import opened DispatchSafety
  import opened Evaluation
  import opened Binary32
  import L = KvLayout
  import opened ProductSteps
  import opened Wrappers

  // ---- the layer loop, from the products it has been given ----

  function ProjectFrom(m: Model, layer: nat, position: nat, hidden: Hidden, given: seq<Words>): Progress<(Query, KV)> {
    var norm := m.rmsnorm(ATTN_NORM(layer), hidden);
    :- Finiteness(norm);
    var staged := m.stage(norm);
    var qWords :- Take(given, 0, Input(layer, Q, staged));
    var q := m.biasQuery(layer, qWords);
    :- Finiteness(q);
    var kWords :- Take(given, 1, Input(layer, K, staged));
    var k := m.biasKey(layer, kWords);
    :- Finiteness(k);
    var vWords :- Take(given, 2, Input(layer, Product.V, staged));
    var v := m.biasValue(layer, vWords);
    :- Finiteness(v);
    var query, key := m.rotateQuery(position, q), m.rotateKey(position, k);
    :- Finiteness(query);
    :- Finiteness(key);
    Reached((query, KV(key, v)))
  }

  function MixFrom(m: Model, layer: nat, hidden: Hidden, heads: Query, given: seq<Words>): Progress<Hidden> {
    var staged := m.stage(heads);
    :- Finiteness(heads);
    var output :- Take(given, 0, Input(layer, ATTN_OUTPUT, staged));
    var mixed := m.residual(hidden, output);
    :- Finiteness(mixed);
    Reached(mixed)
  }

  function FeedForwardFrom(m: Model, layer: nat, hidden: Hidden, given: seq<Words>): Progress<Hidden> {
    var norm := m.rmsnorm(FFN_NORM(layer), hidden);
    :- Finiteness(norm);
    var staged := m.stage(norm);
    var gate :- Take(given, 0, Input(layer, GATE, staged));
    :- Finiteness(gate);
    var up :- Take(given, 1, Input(layer, UP, staged));
    :- Finiteness(up);
    var product := m.swiglu(gate, up);
    :- Finiteness(product);
    var down :- Take(given, 2, Input(layer, DOWN, m.stage(product)));
    var next := m.residual(hidden, down);
    :- Finiteness(next);
    Reached(next)
  }

  function ReadoutFrom(m: Model, hidden: Hidden, given: seq<Words>): Progress<Words> {
    var norm := m.rmsnorm(OUTPUT_NORM, hidden);
    :- Finiteness(norm);
    var logits :- Take(given, 0, Input(L.LAYERS, Product.LOGITS, m.stage(norm)));
    :- Finiteness(logits);
    Reached(logits)
  }

  const LAYER_PRODUCTS := 7

  /** The fourth product of a layer, and the last three. */
  function SecondHalfFrom(m: Model, layer: nat, hidden: Hidden, heads: Query, given: seq<Words>): Progress<Hidden> {
    var mixed :- MixFrom(m, layer, hidden, heads, given);
    FeedForwardFrom(m, layer, mixed, Rest(given, 1))
  }

  /** One layer, in which the first three products are for the projections. */
  function LayerFrom(m: Model, rows: seq<Row>, layer: nat, hidden: Hidden, given: seq<Words>): Progress<(KV, Hidden)>
    requires layer < L.LAYERS
  {
    var projected :- ProjectFrom(m, layer, |rows|, hidden, given);
    AttendedFrom(m, rows, layer, hidden, projected, Rest(given, 3))
  }

  function AttendedFrom(m: Model, rows: seq<Row>, layer: nat, hidden: Hidden, projected: (Query, KV),
                        given: seq<Words>): Progress<(KV, Hidden)>
    requires layer < L.LAYERS
  {
    var heads := Heads(m, rows, layer, projected.0, projected.1);
    var next :- SecondHalfFrom(m, layer, hidden, heads, given);
    Reached((projected.1, next))
  }

  function LayersFrom(m: Model, rows: seq<Row>, hidden: Hidden, done: seq<KV>, given: seq<Words>): Progress<(Row, Hidden)>
    requires |done| <= L.LAYERS
    decreases L.LAYERS - |done|
  {
    if |done| == L.LAYERS then Reached((done, hidden))
    else
      var layer :- LayerFrom(m, rows, |done|, hidden, given);
      LayersFrom(m, rows, layer.1, done + [layer.0], Rest(given, LAYER_PRODUCTS))
  }

  /** What a token leaves: its row, and its logits when they are asked for. */
  type TokenResult = (Row, Option<Words>)

  function LogitsFrom(m: Model, produceLogits: bool, layers: (Row, Hidden), given: seq<Words>): Progress<TokenResult> {
    if !produceLogits then Reached((layers.0, None))
    else
      var logits :- ReadoutFrom(m, layers.1, given);
      Reached((layers.0, Some(logits)))
  }

  function TokenFrom(m: Model, rows: seq<Row>, token: nat, produceLogits: bool, given: seq<Words>): Progress<TokenResult> {
    var hidden := m.embedding(token);
    :- Finiteness(hidden);
    var layers :- LayersFrom(m, rows, hidden, [], given);
    LogitsFrom(m, produceLogits, layers, Rest(given, L.LAYERS * LAYER_PRODUCTS))
  }

  /** The same with all products at hand. */
  function EvalResult(m: Model, rows: seq<Row>, token: nat, produceLogits: bool): Option<TokenResult> {
    var layers :- EvalToken(m, rows, token);
    EvalLogits(m, produceLogits, layers)
  }

  function EvalLogits(m: Model, produceLogits: bool, layers: (Row, Hidden)): Option<TokenResult> {
    if !produceLogits then Some((layers.0, None))
    else
      var logits :- Readout(m, layers.1);
      Some((layers.0, Some(logits)))
  }

  // ---- each part asks for so many products, and gives what it gives with all of them at hand ----

  function ProjectSteps(m: Model, layer: nat, position: nat, hidden: Hidden): seq<Words> -> Progress<(Query, KV)> {
    (given: seq<Words>) => ProjectFrom(m, layer, position, hidden, given)
  }

  lemma ProjectAsks(m: Model, layer: nat, position: nat, hidden: Hidden, given: seq<Words>)
    ensures AsksFor(ProjectSteps(m, layer, position, hidden), 3, given)
  {
    if |given| >= 3 {
      assert given[..3][0] == given[0] && given[..3][1] == given[1] && given[..3][2] == given[2];
    }
  }

  lemma ProjectGives(m: Model, layer: nat, position: nat, hidden: Hidden, given: seq<Words>)
    ensures Gives(m, ProjectSteps(m, layer, position, hidden), Project(m, layer, position, hidden), given)
  {
    var f := ProjectSteps(m, layer, position, hidden);
    if Answered(m, f, given) {
      ProjectAsks(m, layer, position, hidden, given);
      assert |given| > 0 ==> AnsweredAt(m, f, given, 0);
      assert |given| > 1 ==> AnsweredAt(m, f, given, 1) && given[..1][0] == given[0];
      assert |given| > 2 ==> AnsweredAt(m, f, given, 2) && given[..2][0] == given[0] && given[..2][1] == given[1];
    }
  }

  function MixSteps(m: Model, layer: nat, hidden: Hidden, heads: Query): seq<Words> -> Progress<Hidden> {
    (given: seq<Words>) => MixFrom(m, layer, hidden, heads, given)
  }

  lemma MixExact(m: Model, layer: nat, hidden: Hidden, heads: Query, given: seq<Words>)
    ensures AsksFor(MixSteps(m, layer, hidden, heads), 1, given)
    ensures Gives(m, MixSteps(m, layer, hidden, heads), Mix(m, layer, hidden, heads), given)
  {
    var f := MixSteps(m, layer, hidden, heads);
    assert |given| >= 1 ==> given[..1][0] == given[0];
    if Answered(m, f, given) {
      assert |given| > 0 ==> AnsweredAt(m, f, given, 0);
    }
  }

  function FeedForwardSteps(m: Model, layer: nat, hidden: Hidden): seq<Words> -> Progress<Hidden> {
    (given: seq<Words>) => FeedForwardFrom(m, layer, hidden, given)
  }

  lemma FeedForwardAsks(m: Model, layer: nat, hidden: Hidden, given: seq<Words>)
    ensures AsksFor(FeedForwardSteps(m, layer, hidden), 3, given)
  {
    if |given| >= 3 {
      assert given[..3][0] == given[0] && given[..3][1] == given[1] && given[..3][2] == given[2];
    }
  }

  lemma FeedForwardGives(m: Model, layer: nat, hidden: Hidden, given: seq<Words>)
    ensures Gives(m, FeedForwardSteps(m, layer, hidden), FeedForward(m, layer, hidden), given)
  {
    var f := FeedForwardSteps(m, layer, hidden);
    if Answered(m, f, given) {
      FeedForwardAsks(m, layer, hidden, given);
      assert |given| > 0 ==> AnsweredAt(m, f, given, 0);
      assert |given| > 1 ==> AnsweredAt(m, f, given, 1) && given[..1][0] == given[0];
      assert |given| > 2 ==> AnsweredAt(m, f, given, 2) && given[..2][0] == given[0] && given[..2][1] == given[1];
    }
  }

  function ReadoutSteps(m: Model, hidden: Hidden): seq<Words> -> Progress<Words> {
    (given: seq<Words>) => ReadoutFrom(m, hidden, given)
  }

  lemma ReadoutExact(m: Model, hidden: Hidden, given: seq<Words>)
    ensures AsksFor(ReadoutSteps(m, hidden), 1, given)
    ensures Gives(m, ReadoutSteps(m, hidden), Readout(m, hidden), given)
  {
    var f := ReadoutSteps(m, hidden);
    assert |given| >= 1 ==> given[..1][0] == given[0];
    if Answered(m, f, given) {
      assert |given| > 0 ==> AnsweredAt(m, f, given, 0);
    }
  }

  // ---- one layer ----

  function SecondHalfSteps(m: Model, layer: nat, hidden: Hidden, heads: Query): seq<Words> -> Progress<Hidden> {
    (given: seq<Words>) => SecondHalfFrom(m, layer, hidden, heads, given)
  }

  function SecondHalfNext(m: Model, layer: nat): Hidden -> (seq<Words> -> Progress<Hidden>) {
    (mixed: Hidden) => FeedForwardSteps(m, layer, mixed)
  }

  lemma SecondHalfContinues(m: Model, layer: nat, hidden: Hidden, heads: Query)
    ensures Continues(SecondHalfSteps(m, layer, hidden, heads), MixSteps(m, layer, hidden, heads), 1,
                      SecondHalfNext(m, layer), 3)
  {
    var f, p := SecondHalfSteps(m, layer, hidden, heads), MixSteps(m, layer, hidden, heads);
    var q := SecondHalfNext(m, layer);
    forall g: seq<Words> ensures ContinuesAt(f, p, 1, q, g) && AsksFor(p, 1, g) {
      MixExact(m, layer, hidden, heads, g);
    }
    forall mixed: Hidden, g: seq<Words> ensures AsksFor(q(mixed), 3, g) {
      FeedForwardAsks(m, layer, mixed, g);
    }
  }

  lemma SecondHalfExact(m: Model, layer: nat, hidden: Hidden, heads: Query, given: seq<Words>)
    ensures AsksFor(SecondHalfSteps(m, layer, hidden, heads), 4, given)
    ensures Gives(m, SecondHalfSteps(m, layer, hidden, heads), SecondHalf(m, layer, hidden, heads), given)
  {
    var f, p := SecondHalfSteps(m, layer, hidden, heads), MixSteps(m, layer, hidden, heads);
    var q := SecondHalfNext(m, layer);
    var first, result := Mix(m, layer, hidden, heads), SecondHalf(m, layer, hidden, heads);
    SecondHalfContinues(m, layer, hidden, heads);
    forall g: seq<Words> ensures Gives(m, p, first, g) {
      MixExact(m, layer, hidden, heads, g);
    }
    forall mixed: Hidden, g: seq<Words> ensures Gives(m, q(mixed), FeedForward(m, layer, mixed), g) {
      FeedForwardGives(m, layer, mixed, g);
    }
    ThenAsks(f, p, 1, q, 3, given);
    ThenGives(m, f, p, 1, q, 3, first, result, given);
  }

  function AttendedSteps(m: Model, rows: seq<Row>, layer: nat, hidden: Hidden, projected: (Query, KV)):
      seq<Words> -> Progress<(KV, Hidden)>
    requires layer < L.LAYERS
  {
    (given: seq<Words>) => AttendedFrom(m, rows, layer, hidden, projected, given)
  }

  lemma AttendedExact(m: Model, rows: seq<Row>, layer: nat, hidden: Hidden, projected: (Query, KV), given: seq<Words>)
    requires layer < L.LAYERS
    ensures var f := AttendedSteps(m, rows, layer, hidden, projected);
      var heads := Heads(m, rows, layer, projected.0, projected.1);
      var next := SecondHalf(m, layer, hidden, heads);
      && AsksFor(f, 4, given)
      && Gives(m, f, if next.Some? then Some((projected.1, next.value)) else None, given)
  {
    var heads := Heads(m, rows, layer, projected.0, projected.1);
    var f, p := AttendedSteps(m, rows, layer, hidden, projected), SecondHalfSteps(m, layer, hidden, heads);
    SecondHalfExact(m, layer, hidden, heads, given);
    if |given| >= 4 {
      assert f(given[..4]) == f(given);
    }
    if Answered(m, f, given) {
      forall i | 0 <= i < |given| ensures AnsweredAt(m, p, given, i) {
        assert AnsweredAt(m, f, given, i);
      }
    }
  }

  function LayerSteps(m: Model, rows: seq<Row>, layer: nat, hidden: Hidden): seq<Words> -> Progress<(KV, Hidden)>
    requires layer < L.LAYERS
  {
    (given: seq<Words>) => LayerFrom(m, rows, layer, hidden, given)
  }

  function LayerNext(m: Model, rows: seq<Row>, layer: nat, hidden: Hidden):
      ((Query, KV)) -> (seq<Words> -> Progress<(KV, Hidden)>)
    requires layer < L.LAYERS
  {
    (projected: (Query, KV)) => AttendedSteps(m, rows, layer, hidden, projected)
  }

  lemma LayerContinues(m: Model, rows: seq<Row>, layer: nat, hidden: Hidden)
    requires layer < L.LAYERS
    ensures Continues(LayerSteps(m, rows, layer, hidden), ProjectSteps(m, layer, |rows|, hidden), 3,
                      LayerNext(m, rows, layer, hidden), 4)
  {
    var f, p := LayerSteps(m, rows, layer, hidden), ProjectSteps(m, layer, |rows|, hidden);
    var q := LayerNext(m, rows, layer, hidden);
    forall g: seq<Words> ensures ContinuesAt(f, p, 3, q, g) && AsksFor(p, 3, g) {
      ProjectAsks(m, layer, |rows|, hidden, g);
    }
    forall projected: (Query, KV), g: seq<Words> ensures AsksFor(q(projected), 4, g) {
      AttendedExact(m, rows, layer, hidden, projected, g);
    }
  }

  /** A layer asks for seven products. */
  lemma LayerExact(m: Model, rows: seq<Row>, layer: nat, hidden: Hidden, given: seq<Words>)
    requires layer < L.LAYERS
    ensures AsksFor(LayerSteps(m, rows, layer, hidden), LAYER_PRODUCTS, given)
    ensures Gives(m, LayerSteps(m, rows, layer, hidden), EvalLayer(m, rows, layer, hidden), given)
  {
    var f, p := LayerSteps(m, rows, layer, hidden), ProjectSteps(m, layer, |rows|, hidden);
    var q := LayerNext(m, rows, layer, hidden);
    var first, result := Project(m, layer, |rows|, hidden), EvalLayer(m, rows, layer, hidden);
    LayerContinues(m, rows, layer, hidden);
    forall g: seq<Words> ensures Gives(m, p, first, g) {
      ProjectGives(m, layer, |rows|, hidden, g);
    }
    forall projected: (Query, KV), g: seq<Words> ensures first == Some(projected) ==> Gives(m, q(projected), result, g) {
      AttendedExact(m, rows, layer, hidden, projected, g);
    }
    ThenAsks(f, p, 3, q, 4, given);
    ThenGives(m, f, p, 3, q, 4, first, result, given);
  }

  // ---- one token ----

  function LayersSteps(m: Model, rows: seq<Row>, hidden: Hidden, done: seq<KV>): seq<Words> -> Progress<(Row, Hidden)>
    requires |done| <= L.LAYERS
  {
    (given: seq<Words>) => LayersFrom(m, rows, hidden, done, given)
  }

  function LayersNext(m: Model, rows: seq<Row>, done: seq<KV>): ((KV, Hidden)) -> (seq<Words> -> Progress<(Row, Hidden)>)
    requires |done| < L.LAYERS
  {
    (layer: (KV, Hidden)) => LayersSteps(m, rows, layer.1, done + [layer.0])
  }

  lemma {:induction false} LayersExact(m: Model, rows: seq<Row>, hidden: Hidden, done: seq<KV>, given: seq<Words>)
    requires |done| <= L.LAYERS
    ensures AsksFor(LayersSteps(m, rows, hidden, done), (L.LAYERS - |done|) * LAYER_PRODUCTS, given)
    ensures Gives(m, LayersSteps(m, rows, hidden, done), EvalLayers(m, rows, hidden, done), given)
    decreases L.LAYERS - |done|
  {
    hide LayerFrom, EvalLayer;
    var f := LayersSteps(m, rows, hidden, done);
    if |done| < L.LAYERS {
      var p := LayerSteps(m, rows, |done|, hidden);
      var q := LayersNext(m, rows, done);
      var k := (L.LAYERS - |done| - 1) * LAYER_PRODUCTS;
      var first, result := EvalLayer(m, rows, |done|, hidden), EvalLayers(m, rows, hidden, done);
      forall g: seq<Words>
        ensures ContinuesAt(f, p, LAYER_PRODUCTS, q, g) && AsksFor(p, LAYER_PRODUCTS, g) && Gives(m, p, first, g)
      {
        LayerExact(m, rows, |done|, hidden, g);
      }
      forall layer: (KV, Hidden), g: seq<Words>
        ensures AsksFor(q(layer), k, g)
        ensures first == Some(layer) ==> Gives(m, q(layer), result, g)
      {
        LayersExact(m, rows, layer.1, done + [layer.0], g);
      }
      ThenAsks(f, p, LAYER_PRODUCTS, q, k, given);
      ThenGives(m, f, p, LAYER_PRODUCTS, q, k, first, result, given);
    }
  }

  lemma LayersContinue(m: Model, rows: seq<Row>, hidden: Hidden, done: seq<KV>)
    requires |done| < L.LAYERS
    ensures Continues(LayersSteps(m, rows, hidden, done), LayerSteps(m, rows, |done|, hidden), LAYER_PRODUCTS,
                      LayersNext(m, rows, done), (L.LAYERS - |done| - 1) * LAYER_PRODUCTS)
  {
    hide LayerFrom, EvalLayer;
    var f, p, q := LayersSteps(m, rows, hidden, done), LayerSteps(m, rows, |done|, hidden), LayersNext(m, rows, done);
    var k := (L.LAYERS - |done| - 1) * LAYER_PRODUCTS;
    forall g: seq<Words> ensures ContinuesAt(f, p, LAYER_PRODUCTS, q, g) && AsksFor(p, LAYER_PRODUCTS, g) {
      LayerExact(m, rows, |done|, hidden, g);
    }
    forall layer: (KV, Hidden), g: seq<Words>
      ensures AsksFor(q(layer), k, g)
    {
      LayersExact(m, rows, layer.1, done + [layer.0], g);
    }
  }

  function LogitsSteps(m: Model, produceLogits: bool, layers: (Row, Hidden)): seq<Words> -> Progress<TokenResult> {
    (given: seq<Words>) => LogitsFrom(m, produceLogits, layers, given)
  }

  lemma LogitsExact(m: Model, produceLogits: bool, layers: (Row, Hidden), given: seq<Words>)
    ensures AsksFor(LogitsSteps(m, produceLogits, layers), if produceLogits then 1 else 0, given)
    ensures Gives(m, LogitsSteps(m, produceLogits, layers), EvalLogits(m, produceLogits, layers), given)
  {
    var f, p := LogitsSteps(m, produceLogits, layers), ReadoutSteps(m, layers.1);
    ReadoutExact(m, layers.1, given);
    if produceLogits && Answered(m, f, given) {
      forall i | 0 <= i < |given| ensures AnsweredAt(m, p, given, i) {
        assert AnsweredAt(m, f, given, i);
      }
    }
  }

  function TokenSteps(m: Model, rows: seq<Row>, token: nat, produceLogits: bool): seq<Words> -> Progress<TokenResult> {
    (given: seq<Words>) => TokenFrom(m, rows, token, produceLogits, given)
  }

  function TokenNext(m: Model, produceLogits: bool): ((Row, Hidden)) -> (seq<Words> -> Progress<TokenResult>) {
    (layers: (Row, Hidden)) => LogitsSteps(m, produceLogits, layers)
  }

  lemma TokenContinues(m: Model, rows: seq<Row>, token: nat, produceLogits: bool)
    requires AllFinite(m.embedding(token))
    ensures Continues(TokenSteps(m, rows, token, produceLogits), LayersSteps(m, rows, m.embedding(token), []),
                      L.LAYERS * LAYER_PRODUCTS, TokenNext(m, produceLogits), if produceLogits then 1 else 0)
  {
    var f, p := TokenSteps(m, rows, token, produceLogits), LayersSteps(m, rows, m.embedding(token), []);
    var q, n, k := TokenNext(m, produceLogits), L.LAYERS * LAYER_PRODUCTS, if produceLogits then 1 else 0;
    forall g: seq<Words> ensures ContinuesAt(f, p, n, q, g) && AsksFor(p, n, g) {
      LayersExact(m, rows, m.embedding(token), [], g);
    }
    forall layers: (Row, Hidden), g: seq<Words> ensures AsksFor(q(layers), k, g) {
      LogitsExact(m, produceLogits, layers, g);
    }
  }

  /** A token asks for seven products a layer, and for one more when its logits are wanted. */
  lemma TokenExact(m: Model, rows: seq<Row>, token: nat, produceLogits: bool, given: seq<Words>)
    ensures AsksFor(TokenSteps(m, rows, token, produceLogits), ExpectedJobs(produceLogits), given)
    ensures Gives(m, TokenSteps(m, rows, token, produceLogits), EvalResult(m, rows, token, produceLogits), given)
  {
    var f, hidden := TokenSteps(m, rows, token, produceLogits), m.embedding(token);
    if AllFinite(hidden) {
      var p, q := LayersSteps(m, rows, hidden, []), TokenNext(m, produceLogits);
      var n, k := L.LAYERS * LAYER_PRODUCTS, if produceLogits then 1 else 0;
      var first, result := EvalLayers(m, rows, hidden, []), EvalResult(m, rows, token, produceLogits);
      TokenContinues(m, rows, token, produceLogits);
      forall g: seq<Words> ensures Gives(m, p, first, g) {
        LayersExact(m, rows, hidden, [], g);
      }
      forall layers: (Row, Hidden), g: seq<Words> ensures first == Some(layers) ==> Gives(m, q(layers), result, g) {
        LogitsExact(m, produceLogits, layers, g);
      }
      ThenAsks(f, p, n, q, k, given);
      ThenGives(m, f, p, n, q, k, first, result, given);
    }
  }

  // ---- the dispatched token ----

  function DemandOf(progress: Progress<TokenResult>): Demand<Input> {
    match progress
    case Stopped => Abort
    case Asks(input) => Publish(input, ProductRows(input.product))
    case Reached(_) => Complete
  }

  /** What the coordinator of a token dispatch runs between the jobs. */
  function ProgramOf(m: Model, rows: seq<Row>, token: nat, produceLogits: bool): Program<Input, nat> {
    Program(produceLogits,
            (results: seq<Words>) => DemandOf(TokenFrom(m, rows, token, produceLogits, results)),
            (input: Input, d: Descriptor, r: nat) => m.row(input, r))
  }

  /** The layer loop publishes exactly the number of jobs that the protocol check expects. */
  lemma TokenPlanned(m: Model, rows: seq<Row>, token: nat, produceLogits: bool)
    ensures Planned(ProgramOf(m, rows, token, produceLogits))
  {
    hide TokenFrom, EvalResult;
    forall results: seq<Words> ensures PlannedAt(ProgramOf(m, rows, token, produceLogits), results) {
      TokenExact(m, rows, token, produceLogits, results);
    }
  }

  lemma {:induction false} SerialAnswered(m: Model, rows: seq<Row>, token: nat, produceLogits: bool, results: seq<Words>)
    requires Answered(m, TokenSteps(m, rows, token, produceLogits), results)
    ensures Planned(ProgramOf(m, rows, token, produceLogits))
    ensures var (code, all) := SerialRun(ProgramOf(m, rows, token, produceLogits), results);
      && Answered(m, TokenSteps(m, rows, token, produceLogits), all)
      && (code == 1 || code == 2)
      && (if code == 1 then TokenFrom(m, rows, token, produceLogits, all).Reached?
          else TokenFrom(m, rows, token, produceLogits, all).Stopped?)
    decreases ExpectedJobs(produceLogits) - |results|
  {
    hide TokenFrom;
    var program, f := ProgramOf(m, rows, token, produceLogits), TokenSteps(m, rows, token, produceLogits);
    TokenPlanned(m, rows, token, produceLogits);
    assert PlannedAt(program, results);
    if f(results).Asks? {
      var input := f(results).input;
      var result := Apply(m, input);
      assert RunRows(program, input, JobDescriptor(program, results)) == result;
      var more := results + [result];
      forall i | 0 <= i < |more| ensures AnsweredAt(m, f, more, i) {
        assert more[..i] == results[..i];
        assert i < |results| ==> AnsweredAt(m, f, results, i);
        assert results[..|results|] == results;
      }
      SerialAnswered(m, rows, token, produceLogits, more);
    }
  }

  /** The serial run of all jobs is the evaluation of the token. */
  lemma SerialToken(m: Model, rows: seq<Row>, token: nat, produceLogits: bool)
    ensures Planned(ProgramOf(m, rows, token, produceLogits))
    ensures var (code, all) := SerialRun(ProgramOf(m, rows, token, produceLogits), []);
      var outcome := EvalResult(m, rows, token, produceLogits);
      && code == (if outcome.Some? then 1 else 2)
      && (outcome.Some? ==>
            TokenFrom(m, rows, token, produceLogits, all) == Reached(outcome.value) && |all| == ExpectedJobs(produceLogits))
      && |all| <= ExpectedJobs(produceLogits)
  {
    hide TokenFrom, EvalResult;
    var program := ProgramOf(m, rows, token, produceLogits);
    SerialAnswered(m, rows, token, produceLogits, []);
    SerialJobCount(program, []);
    TokenExact(m, rows, token, produceLogits, SerialRun(program, []).1);
  }

  /** Terminal code and job results of a dispatch that evaluated `token` after `tokens`. */
  ghost predicate TokenOutcome(m: Model, tokens: seq<nat>, token: nat, produceLogits: bool, terminal: nat,
                               results: seq<Words>)
    requires FreshRows(m, tokens).Some?
  {
    var rows, next := FreshRows(m, tokens).value, tokens + [token];
    && (terminal == 1 || terminal == 2)
    && (terminal == 1 <==> FreshRows(m, next).Some? && (produceLogits ==> FreshLogits(m, next).Some?))
    && (terminal == 1 ==>
          var outcome := TokenFrom(m, rows, token, produceLogits, results);
          && outcome.Reached?
          && FreshRows(m, next) == Some(rows + [outcome.value.0])
          && (produceLogits ==> FreshLogits(m, next) == outcome.value.1))
  }

  lemma SerialOutcome(m: Model, tokens: seq<nat>, token: nat, produceLogits: bool)
    requires FreshRows(m, tokens).Some?
    ensures var program := ProgramOf(m, FreshRows(m, tokens).value, token, produceLogits);
      && Planned(program)
      && TokenOutcome(m, tokens, token, produceLogits, SerialRun(program, []).0, SerialRun(program, []).1)
  {
    hide TokenFrom, EvalToken, Readout;
    SerialToken(m, FreshRows(m, tokens).value, token, produceLogits);
    FreshRowsAppend(m, tokens, token);
  }

  /** A dispatch of the evaluation of `token`, after `tokens` have been evaluated. */
  ghost predicate TokenConfig(cfg: Config<Input, nat>, m: Model, tokens: seq<nat>, token: nat, produceLogits: bool) {
    && cfg.workers >= 2 && cfg.backend <= 1
    && FreshRows(m, tokens).Some?
    && cfg.program == ProgramOf(m, FreshRows(m, tokens).value, token, produceLogits)
  }

  /**
   However the processors interleave: once the coordinator has stored its terminal code, the products it has read back
   lead to the cache row and to the logits of a from-scratch evaluation, and the code says whether there is one.
   */
  lemma DispatchedToken(cfg: Config<Input, nat>, m: Model, tokens: seq<nat>, token: nat, produceLogits: bool,
                        run: seq<State<Input, nat>>, i: nat)
    requires TokenConfig(cfg, m, tokens, token, produceLogits)
    requires Run(cfg, run) && i < |run| && run[i].terminal != 0
    ensures TokenOutcome(m, tokens, token, produceLogits, run[i].terminal, run[i].results)
  {
    hide TokenOutcome, ProgramOf;
    SerialOutcome(m, tokens, token, produceLogits);
    AllRunsSafe(cfg, run);
    assert DispatchSafe(cfg, run[i]);
  }

  /** Every fair schedule gets there, and then every slot has returned 0. */
  lemma DispatchedTokenEnds(cfg: Config<Input, nat>, m: Model, tokens: seq<nat>, token: nat, produceLogits: bool,
                            run: seq<State<Input, nat>>, schedule: seq<nat>, cuts: seq<nat>)
    requires TokenConfig(cfg, m, tokens, token, produceLogits)
    requires Follows(cfg, run, schedule) && Start(cfg, run[0])
    requires Rounds(cfg, run, schedule, cuts) && |cuts| > Budget(cfg) + 1
    ensures cuts[|cuts| - 1] <= |schedule|
    ensures var end := run[cuts[|cuts| - 1]];
      && |end.threads| == cfg.workers
      && (forall t | 0 <= t < cfg.workers :: end.threads[t].pc == Returned(0))
      && TokenOutcome(m, tokens, token, produceLogits, end.terminal, end.results)
  {
    hide TokenOutcome, ProgramOf;
    SerialOutcome(m, tokens, token, produceLogits);
    FairDispatchEnds(cfg, run, schedule, cuts);
  }
}
