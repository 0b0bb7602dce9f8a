/**
 What the coordinator of a dispatched token gets back from its jobs: part by part, and in every run of the dispatch,
 exactly the products that the evaluation asks for next.
 */
module DispatchedProducts {
  import opened Attention
  import B = Barrier
  import opened Binary32
  import opened Dispatch
  import opened DispatchedEvaluation
  import P = DispatchProgress
  import opened DispatchSafety
  import opened Evaluation
  import L = KvLayout
  import opened ProductSteps
  import opened Wrappers

  // ---- what the coordinator is given, part by part ----

  lemma LayerServes(m: Model, source: Source, rows: seq<Row>, layer: nat, hidden: Hidden)
    requires layer < L.LAYERS && Serves(m, source, LayerSteps(m, rows, layer, hidden))
    ensures Serves(m, Upto(source, 3), ProjectSteps(m, layer, |rows|, hidden))
    ensures var projected := Project(m, layer, |rows|, hidden);
      projected.Some? ==>
        var heads := Heads(m, rows, layer, projected.value.0, projected.value.1);
        Serves(m, From(source, 3), SecondHalfSteps(m, layer, hidden, heads))
  {
    var f, p := LayerSteps(m, rows, layer, hidden), ProjectSteps(m, layer, |rows|, hidden);
    var q, first := LayerNext(m, rows, layer, hidden), Project(m, layer, |rows|, hidden);
    LayerContinues(m, rows, layer, hidden);
    forall g: seq<Words> ensures Gives(m, p, first, g) {
      ProjectGives(m, layer, |rows|, hidden, g);
    }
    ServesThen(m, source, f, p, 3, q, 4, first);
    if first.Some? {
      AttendedServes(m, From(source, 3), rows, layer, hidden, first.value);
    }
  }

  lemma AttendedServes(m: Model, source: Source, rows: seq<Row>, layer: nat, hidden: Hidden, projected: (Query, KV))
    requires layer < L.LAYERS && Serves(m, source, AttendedSteps(m, rows, layer, hidden, projected))
    ensures Serves(m, source, SecondHalfSteps(m, layer, hidden, Heads(m, rows, layer, projected.0, projected.1)))
  {
    var f := AttendedSteps(m, rows, layer, hidden, projected);
    var p := SecondHalfSteps(m, layer, hidden, Heads(m, rows, layer, projected.0, projected.1));
    if source.Dispatched? {
      forall i | 0 <= i < |source.given| ensures AnsweredAt(m, p, source.given, i) {
        assert AnsweredAt(m, f, source.given, i);
      }
    }
  }

  lemma SecondHalfServes(m: Model, source: Source, layer: nat, hidden: Hidden, heads: Query)
    requires Serves(m, source, SecondHalfSteps(m, layer, hidden, heads))
    ensures Serves(m, Upto(source, 1), MixSteps(m, layer, hidden, heads))
    ensures var mixed := Mix(m, layer, hidden, heads);
      mixed.Some? ==> Serves(m, From(source, 1), FeedForwardSteps(m, layer, mixed.value))
  {
    var f, p := SecondHalfSteps(m, layer, hidden, heads), MixSteps(m, layer, hidden, heads);
    var q, first := SecondHalfNext(m, layer), Mix(m, layer, hidden, heads);
    SecondHalfContinues(m, layer, hidden, heads);
    forall g: seq<Words> ensures Gives(m, p, first, g) {
      MixExact(m, layer, hidden, heads, g);
    }
    ServesThen(m, source, f, p, 1, q, 3, first);
  }

  lemma LayersServe(m: Model, source: Source, rows: seq<Row>, hidden: Hidden, done: seq<KV>)
    requires |done| < L.LAYERS && Serves(m, source, LayersSteps(m, rows, hidden, done))
    ensures Serves(m, Upto(source, LAYER_PRODUCTS), LayerSteps(m, rows, |done|, hidden))
    ensures var layer := EvalLayer(m, rows, |done|, hidden);
      layer.Some? ==>
        Serves(m, From(source, LAYER_PRODUCTS), LayersSteps(m, rows, layer.value.1, done + [layer.value.0]))
  {
    hide LayerFrom, EvalLayer;
    var f, p, q := LayersSteps(m, rows, hidden, done), LayerSteps(m, rows, |done|, hidden), LayersNext(m, rows, done);
    var first := EvalLayer(m, rows, |done|, hidden);
    LayersContinue(m, rows, hidden, done);
    forall g: seq<Words> ensures Gives(m, p, first, g) {
      LayerExact(m, rows, |done|, hidden, g);
    }
    ServesThen(m, source, f, p, LAYER_PRODUCTS, q, (L.LAYERS - |done| - 1) * LAYER_PRODUCTS, first);
  }

  lemma TokenServes(m: Model, source: Source, rows: seq<Row>, token: nat, produceLogits: bool)
    requires AllFinite(m.embedding(token)) && Serves(m, source, TokenSteps(m, rows, token, produceLogits))
    ensures Serves(m, Upto(source, L.LAYERS * LAYER_PRODUCTS), LayersSteps(m, rows, m.embedding(token), []))
    ensures var layers := EvalLayers(m, rows, m.embedding(token), []);
      layers.Some? && produceLogits ==>
        Serves(m, From(source, L.LAYERS * LAYER_PRODUCTS), ReadoutSteps(m, layers.value.1))
  {
    hide LayersFrom, EvalLayers;
    var f, p := TokenSteps(m, rows, token, produceLogits), LayersSteps(m, rows, m.embedding(token), []);
    var q, first := TokenNext(m, produceLogits), EvalLayers(m, rows, m.embedding(token), []);
    TokenContinues(m, rows, token, produceLogits);
    forall g: seq<Words> ensures Gives(m, p, first, g) {
      LayersExact(m, rows, m.embedding(token), [], g);
    }
    ServesThen(m, source, f, p, L.LAYERS * LAYER_PRODUCTS, q, if produceLogits then 1 else 0, first);
    if first.Some? && produceLogits {
      LogitsServe(m, From(source, L.LAYERS * LAYER_PRODUCTS), first.value);
    }
  }

  lemma LogitsServe(m: Model, source: Source, layers: (Row, Hidden))
    requires Serves(m, source, LogitsSteps(m, true, layers))
    ensures Serves(m, source, ReadoutSteps(m, layers.1))
  {
    var f, p := LogitsSteps(m, true, layers), ReadoutSteps(m, layers.1);
    if source.Dispatched? {
      forall i | 0 <= i < |source.given| ensures AnsweredAt(m, p, source.given, i) {
        assert AnsweredAt(m, f, source.given, i);
      }
    }
  }

  // ---- which product it is given next ----

  /** The `i`th product, if products are given, is the one that is asked for now. */
  ghost predicate HasProduct(m: Model, source: Source, i: nat, input: Input) {
    source.Dispatched? ==> i < |source.given| && source.given[i] == Apply(m, input)
  }

  lemma ProjectServed(m: Model, source: Source, layer: nat, position: nat, hidden: Hidden)
    requires Serves(m, source, ProjectSteps(m, layer, position, hidden))
    requires AllFinite(m.rmsnorm(ATTN_NORM(layer), hidden))
    ensures var staged := m.stage(m.rmsnorm(ATTN_NORM(layer), hidden));
      var q := m.biasQuery(layer, Apply(m, Input(layer, Q, staged)));
      var k := m.biasKey(layer, Apply(m, Input(layer, K, staged)));
      && HasProduct(m, source, 0, Input(layer, Q, staged))
      && (AllFinite(q) ==> HasProduct(m, source, 1, Input(layer, K, staged)))
      && (AllFinite(q) && AllFinite(k) ==> HasProduct(m, source, 2, Input(layer, Product.V, staged)))
  {
    if source.Dispatched? {
      var f, given := ProjectSteps(m, layer, position, hidden), source.given;
      assert |given| > 0 ==> AnsweredAt(m, f, given, 0);
      assert |given| > 1 ==> AnsweredAt(m, f, given, 1) && given[..1][0] == given[0];
      assert |given| > 2 ==> AnsweredAt(m, f, given, 2) && given[..2][0] == given[0] && given[..2][1] == given[1];
    }
  }

  lemma MixServed(m: Model, source: Source, layer: nat, hidden: Hidden, heads: Query)
    requires Serves(m, source, MixSteps(m, layer, hidden, heads)) && AllFinite(heads)
    ensures HasProduct(m, source, 0, Input(layer, ATTN_OUTPUT, m.stage(heads)))
  {
    if source.Dispatched? {
      assert |source.given| > 0 ==> AnsweredAt(m, MixSteps(m, layer, hidden, heads), source.given, 0);
    }
  }

  lemma FeedForwardServed(m: Model, source: Source, layer: nat, hidden: Hidden)
    requires Serves(m, source, FeedForwardSteps(m, layer, hidden))
    requires AllFinite(m.rmsnorm(FFN_NORM(layer), hidden))
    ensures var staged := m.stage(m.rmsnorm(FFN_NORM(layer), hidden));
      var gate, up := Apply(m, Input(layer, GATE, staged)), Apply(m, Input(layer, UP, staged));
      && HasProduct(m, source, 0, Input(layer, GATE, staged))
      && (AllFinite(gate) ==> HasProduct(m, source, 1, Input(layer, UP, staged)))
      && (AllFinite(gate) && AllFinite(up) && AllFinite(m.swiglu(gate, up)) ==>
            HasProduct(m, source, 2, Input(layer, DOWN, m.stage(m.swiglu(gate, up)))))
  {
    if source.Dispatched? {
      var f, given := FeedForwardSteps(m, layer, hidden), source.given;
      assert |given| > 0 ==> AnsweredAt(m, f, given, 0);
      assert |given| > 1 ==> AnsweredAt(m, f, given, 1) && given[..1][0] == given[0];
      assert |given| > 2 ==> AnsweredAt(m, f, given, 2) && given[..2][0] == given[0] && given[..2][1] == given[1];
    }
  }

  lemma ReadoutServed(m: Model, source: Source, hidden: Hidden)
    requires Serves(m, source, ReadoutSteps(m, hidden)) && AllFinite(m.rmsnorm(OUTPUT_NORM, hidden))
    ensures HasProduct(m, source, 0, Input(L.LAYERS, Product.LOGITS, m.stage(m.rmsnorm(OUTPUT_NORM, hidden))))
  {
    if source.Dispatched? {
      assert |source.given| > 0 ==> AnsweredAt(m, ReadoutSteps(m, hidden), source.given, 0);
    }
  }

  // ---- a dispatcher ----

  /** Terminal code and job results of some finished run of the dispatch of a token. */
  ghost predicate Finished(m: Model, workers: nat, backend: nat, rows: seq<Row>, token: nat, produceLogits: bool,
                           terminal: nat, results: seq<Words>)
  {
    exists run: seq<State<Input, nat>> ::
      && Run(Config(workers, backend, ProgramOf(m, rows, token, produceLogits)), run)
      && run[|run| - 1].terminal == terminal != 0 && run[|run| - 1].results == results
  }

  /** However it went, the results serve the evaluation, and the code says how that ends. */
  lemma FinishedServes(m: Model, workers: nat, backend: nat, rows: seq<Row>, token: nat, produceLogits: bool,
                       terminal: nat, results: seq<Words>)
    requires workers >= 2 && backend <= 1
    requires Finished(m, workers, backend, rows, token, produceLogits, terminal, results)
    ensures Serves(m, Dispatched(results), TokenSteps(m, rows, token, produceLogits))
    ensures terminal == if EvalResult(m, rows, token, produceLogits).Some? then 1 else 2
  {
    hide TokenFrom, EvalResult;
    var cfg := Config(workers, backend, ProgramOf(m, rows, token, produceLogits));
    var run: seq<State<Input, nat>> :|
      Run(cfg, run) && run[|run| - 1].terminal == terminal != 0 && run[|run| - 1].results == results;
    SerialAnswered(m, rows, token, produceLogits, []);
    SerialToken(m, rows, token, produceLogits);
    AllRunsSafe(cfg, run);
    assert DispatchSafe(cfg, run[|run| - 1]);
  }

  /** A dispatcher: for each token to be evaluated, how its dispatch went. */
  datatype Dispatcher = Dispatcher(
    workers: nat,
    backend: nat,
    outcome: (seq<Row>, nat, bool) -> (nat, seq<Words>))

  predicate TwoOrMore(d: Dispatcher) {
    d.workers >= 2 && d.backend <= 1
  }

  /** Each outcome is that of some finished run: any interleaving, and another one for every token. */
  ghost predicate Faithful(m: Model, d: Dispatcher) {
    && TwoOrMore(d)
    && forall rows: seq<Row>, token: nat, produceLogits: bool ::
         var (terminal, results) := d.outcome(rows, token, produceLogits);
         Finished(m, d.workers, d.backend, rows, token, produceLogits, terminal, results)
  }

  // ---- there are such dispatchers ----

  function Zeros(row: nat): nat {
    0
  }

  function StartState(workers: nat): State<Input, nat> {
    State(0, UNCLAIMED, 0, 0, 0, Job(Descriptor(0, 0), Input(0, Q, []), Zeros, [], 0), [], B.Start(workers),
          seq(workers, _ => Thread(ClaimWorkers, 0, 0)))
  }

  lemma FollowsRuns(cfg: Config<Input, nat>, run: seq<State<Input, nat>>, schedule: seq<nat>)
    requires P.Follows(cfg, run, schedule) && Start(cfg, run[0])
    ensures Run(cfg, run)
  {
    hide Next, Start;
    forall i: nat | i < |run| - 1 ensures Step(cfg, run[i], run[i + 1]) {
      assert P.StepAt(cfg, run, schedule, i);
    }
  }

  /** A dispatch can always be driven to its end, where it has the results of one processor. */
  lemma SerialFinishes(m: Model, workers: nat, backend: nat, rows: seq<Row>, token: nat, produceLogits: bool)
    requires workers >= 2 && backend <= 1
    ensures Planned(ProgramOf(m, rows, token, produceLogits))
    ensures var (terminal, results) := SerialRun(ProgramOf(m, rows, token, produceLogits), []);
      Finished(m, workers, backend, rows, token, produceLogits, terminal, results)
  {
    hide TokenFrom, EvalResult;
    var cfg := Config(workers, backend, ProgramOf(m, rows, token, produceLogits));
    SerialToken(m, rows, token, produceLogits);
    StartInv(cfg, StartState(workers));
    var run, schedule := P.CanFinish(cfg, StartState(workers));
    FollowsRuns(cfg, run, schedule);
    var end := run[|schedule|];
    assert end == run[|run| - 1];
  }

  function SerialProducts(m: Model, rows: seq<Row>, token: nat, produceLogits: bool): (nat, seq<Words>) {
    TokenPlanned(m, rows, token, produceLogits);
    SerialRun(ProgramOf(m, rows, token, produceLogits), [])
  }

  lemma SomeDispatcher(m: Model, workers: nat, backend: nat) returns (d: Dispatcher)
    requires workers >= 2 && backend <= 1
    ensures Faithful(m, d) && d.workers == workers && d.backend == backend
  {
    hide Finished, ProgramOf;
    d := Dispatcher(workers, backend, (rows: seq<Row>, token: nat, produceLogits: bool) =>
      SerialProducts(m, rows, token, produceLogits));
    forall rows: seq<Row>, token: nat, produceLogits: bool ensures
      var (terminal, results) := d.outcome(rows, token, produceLogits);
      Finished(m, workers, backend, rows, token, produceLogits, terminal, results)
    {
      SerialFinishes(m, workers, backend, rows, token, produceLogits);
    }
  }
}
