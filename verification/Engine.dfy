/**
 The KV-cached inference engine.  Whatever sequence of calls is made, and whatever fails in
 between, an engine that is not FAULTED holds exactly the rows that evaluating
 its ghost `history` from an empty cache would have left.
 */
module Engine {
  import opened Attention
  import opened Binary32
  import DE = DispatchedEvaluation
  import DP = DispatchedProducts
  import opened Evaluation
  import opened KvLayout
  import PS = ProductSteps
  import opened Wrappers

  const VOCAB_COUNT := 151_936
  const MAX_TOKENS := 599

  datatype EngineState = RESET | READY | EOS | FAULTED

  datatype Status = STATE | CONTEXT | TOKEN_ID | CAPACITY | EVALUATION

  datatype Kind = STATE_FIELD | RESERVE | CONTEXT_FIELD | LOGITS | TOKEN | SELECTED | FAULT

  datatype Error = Error(status: Status, kind: Kind, sub: nat)

  /** `logits` is what the call left in the caller's buffer. */
  datatype Outcome = Done(position: nat, selected: nat, eos: bool, logits: Words) | Failed(error: Error)

  const ENGINE_FAULT := Error(EVALUATION, FAULT, 0)

  // ---- the checks made before any evaluation, in source order ----

  /** Some token is outside the vocabulary. */
  predicate BadToken(tokens: seq<nat>) {
    tokens != [] && (BadToken(tokens[..|tokens| - 1]) || tokens[|tokens| - 1] >= VOCAB_COUNT)
  }

  lemma {:induction false} BadTokenExists(tokens: seq<nat>)
    ensures BadToken(tokens) <==> exists i :: 0 <= i < |tokens| && tokens[i] >= VOCAB_COUNT
  {
    if tokens != [] {
      BadTokenExists(tokens[..|tokens| - 1]);
    }
  }

  lemma GoodSlice(tokens: seq<nat>, a: nat, b: nat)
    requires !BadToken(tokens) && a <= b <= |tokens|
    ensures !BadToken(tokens[a..b])
  {
    BadTokenExists(tokens);
    BadTokenExists(tokens[a..b]);
    forall i: nat | i < b - a ensures tokens[a..b][i] < VOCAB_COUNT {
      assert tokens[a..b][i] == tokens[a + i];
    }
  }

  lemma GoodConcat(a: seq<nat>, b: seq<nat>)
    requires !BadToken(a) && !BadToken(b)
    ensures !BadToken(a + b)
  {
    BadTokenExists(a);
    BadTokenExists(b);
    BadTokenExists(a + b);
  }

  function PrefillRefusal(start: nat, prompt: seq<nat>, reserve: nat, logitsLen: nat, append: bool): Option<Error> {
    if !(1 <= reserve <= CONTEXT_LIMIT) then Some(Error(CONTEXT, RESERVE, 0))
    else if prompt == [] then Some(Error(CONTEXT, CONTEXT_FIELD, 0))
    else if !append && |prompt| >= CONTEXT_LIMIT then Some(Error(CONTEXT, CONTEXT_FIELD, 0))
    else if start + |prompt| + reserve > CONTEXT_LIMIT then Some(Error(CONTEXT, CONTEXT_FIELD, 1))
    else if logitsLen != LOGIT_WORDS then Some(Error(CAPACITY, Kind.LOGITS, 0))
    else if BadToken(prompt) then Some(Error(TOKEN_ID, TOKEN, 0))
    else None
  }

  /** Checks of `decode_inner`; `greedy` asks for the previously selected token. */
  function DecodeRefusal(state: EngineState, token: nat, lastSelected: nat, emitted: nat, reserve: nat,
                         position: nat, logitsLen: nat, greedy: bool): Option<Error>
  {
    if state == FAULTED then Some(Error(STATE, STATE_FIELD, 3))
    else if state == EOS && greedy then Some(Error(STATE, STATE_FIELD, 2))
    else if state == RESET then Some(Error(STATE, STATE_FIELD, 0))
    else if token >= VOCAB_COUNT then Some(Error(TOKEN_ID, TOKEN, 1))
    else if greedy && token != lastSelected then Some(Error(STATE, SELECTED, 0))
    else if emitted >= reserve then Some(Error(CONTEXT, RESERVE, 1))
    else if position >= CONTEXT_LIMIT then Some(Error(CONTEXT, CONTEXT_FIELD, 2))
    else if logitsLen != LOGIT_WORDS then Some(Error(CAPACITY, Kind.LOGITS, 0))
    else None
  }

  /** A prompt is taken exactly if it fits behind the cached tokens together with the reserve, and all its tokens exist. */
  lemma PrefillAccepted(start: nat, prompt: seq<nat>, reserve: nat, logitsLen: nat, append: bool)
    ensures PrefillRefusal(start, prompt, reserve, logitsLen, append).None? <==>
      && 1 <= reserve && 1 <= |prompt| && start + |prompt| + reserve <= 32_768 && logitsLen == 151_936
      && forall i | 0 <= i < |prompt| :: prompt[i] < 151_936
  {
    BadTokenExists(prompt);
  }

  /** A token is decoded exactly behind a prefill, within its reserve; greedily, only the one that was selected. */
  lemma DecodeAccepted(state: EngineState, token: nat, lastSelected: nat, emitted: nat, reserve: nat, position: nat,
                       logitsLen: nat, greedy: bool)
    ensures DecodeRefusal(state, token, lastSelected, emitted, reserve, position, logitsLen, greedy).None? <==>
      && (state == READY || (state == EOS && !greedy)) && (greedy ==> token == lastSelected)
      && emitted < reserve && position < 32_768 && logitsLen == 151_936 && token < 151_936
  {
  }

  predicate PrefixRefused(prompt: seq<nat>, prefix: nat) {
    prefix == 0 || prefix >= |prompt| || prefix > MAX_TOKENS
  }

  /** A prompt that may be evaluated from scratch may also be appended to its own prefix. */
  lemma PrefixRefusal(prompt: seq<nat>, prefix: nat, reserve: nat, logitsLen: nat)
    requires !PrefixRefused(prompt, prefix)
    ensures PrefillRefusal(0, prompt, reserve, logitsLen, false).None? ==>
      PrefillRefusal(prefix, prompt[prefix..], reserve, logitsLen, true).None?
  {
    if !BadToken(prompt) {
      GoodSlice(prompt, prefix, |prompt|);
      assert prompt[prefix..|prompt|] == prompt[prefix..];
    }
  }

  // ---- reading the arena ----

  function KvAt(kv: seq<nat>, layer: nat, position: nat): KV
    requires |kv| == KV_WORDS && layer < LAYERS && position < CONTEXT_LIMIT
  {
    KV(VectorAt(kv, layer, 0, position), VectorAt(kv, layer, 1, position))
  }

  function RowAt(kv: seq<nat>, position: nat): Row
    requires |kv| == KV_WORDS && position < CONTEXT_LIMIT
  {
    seq(LAYERS, layer requires 0 <= layer < LAYERS => KvAt(kv, layer, position))
  }

  function RowsBelow(kv: seq<nat>, position: nat): seq<Row>
    requires |kv| == KV_WORDS && position <= CONTEXT_LIMIT
  {
    seq(position, p requires 0 <= p < position => RowAt(kv, p))
  }

  /** The two arenas differ at most in one vector. */
  ghost predicate SameExcept(kv: seq<nat>, kv': seq<nat>, layer: nat, kind: nat, position: nat) {
    && |kv| == |kv'| == KV_WORDS
    && forall w: nat | w < KV_WORDS ::
         var a := AddressOf(w);
         !(a.layer == layer && a.kind == kind && a.position == position) ==> kv'[w] == kv[w]
  }

  lemma SameExceptVector(kv: seq<nat>, kv': seq<nat>, layer: nat, kind: nat, position: nat,
                         layer': nat, kind': nat, position': nat)
    requires SameExcept(kv, kv', layer, kind, position)
    requires layer' < LAYERS && kind' < 2 && position' < CONTEXT_LIMIT
    requires !(layer' == layer && kind' == kind && position' == position)
    ensures VectorAt(kv', layer', kind', position') == VectorAt(kv, layer', kind', position')
  {
    forall i | 0 <= i < VECTOR_WORDS
      ensures VectorAt(kv', layer', kind', position')[i] == VectorAt(kv, layer', kind', position')[i]
    {
      AddressRoundTrip(Address(layer', kind', position', i / HEAD_WORDS, i % HEAD_WORDS));
    }
  }

  /** Arena word of the `i`th word of a vector. */
  function WordAt(layer: nat, kind: nat, position: nat, i: nat): (w: nat)
    requires layer < LAYERS && kind < 2 && position < CONTEXT_LIMIT && i < VECTOR_WORDS
    ensures w < KV_WORDS && AddressOf(w) == Address(layer, kind, position, i / HEAD_WORDS, i % HEAD_WORDS)
  {
    AddressRoundTrip(Address(layer, kind, position, i / HEAD_WORDS, i % HEAD_WORDS));
    KvWord(layer, kind, position, i / HEAD_WORDS, i % HEAD_WORDS)
  }

  /** One of the two write loops of `write_kv`. */
  method WriteVector(kv: array<nat>, layer: nat, kind: nat, position: nat, v: Vector)
    requires kv.Length == KV_WORDS && layer < LAYERS && kind < 2 && position < CONTEXT_LIMIT
    modifies kv
    ensures VectorAt(kv[..], layer, kind, position) == v
    ensures SameExcept(old(kv[..]), kv[..], layer, kind, position)
  {
    hide KvWord, AddressOf;
    ghost var before := kv[..];
    var head := 0;
    while head < KV_HEADS
      invariant head <= KV_HEADS
      invariant SameExcept(before, kv[..], layer, kind, position)
      invariant forall i: nat | i < head * HEAD_WORDS :: kv[WordAt(layer, kind, position, i)] == v[i]
    {
      var component := 0;
      while component < HEAD_WORDS
        invariant component <= HEAD_WORDS
        invariant SameExcept(before, kv[..], layer, kind, position)
        invariant forall i: nat | i < head * HEAD_WORDS + component :: kv[WordAt(layer, kind, position, i)] == v[i]
      {
        var source := head * HEAD_WORDS + component;
        assert source / HEAD_WORDS == head && source % HEAD_WORDS == component;
        var word := WordAt(layer, kind, position, source);
        kv[word] := v[source];
        component := component + 1;
      }
      head := head + 1;
    }
    assert VectorAt(kv[..], layer, kind, position) == v;
  }

  // ---- lemmas about the arena as a cache of rows ----

  lemma SameExceptRows(kv: seq<nat>, kv': seq<nat>, layer: nat, kind: nat, position: nat)
    requires SameExcept(kv, kv', layer, kind, position) && position < CONTEXT_LIMIT
    ensures RowsBelow(kv', position) == RowsBelow(kv, position)
  {
    forall p: nat, l: nat | p < position && l < LAYERS ensures KvAt(kv', l, p) == KvAt(kv, l, p) {
      SameExceptVector(kv, kv', layer, kind, position, l, 0, p);
      SameExceptVector(kv, kv', layer, kind, position, l, 1, p);
    }
    forall p: nat | p < position ensures RowsBelow(kv', position)[p] == RowsBelow(kv, position)[p] {
      assert RowAt(kv', p) == RowAt(kv, p);
    }
  }

  /** After both vectors of a layer are written, attention reads the cached rows and the new entry. */
  lemma GatherRows(kv: seq<nat>, layer: nat, position: nat, rows: seq<Row>, entry: KV)
    requires |kv| == KV_WORDS && layer < LAYERS && position < CONTEXT_LIMIT
    requires RowsBelow(kv, position) == rows && KvAt(kv, layer, position) == entry
    ensures Gather(kv, layer, 0, position + 1) == Keys(rows, layer) + [entry.key]
    ensures Gather(kv, layer, 1, position + 1) == Values(rows, layer) + [entry.value]
  {
    forall p: nat | p < position ensures rows[p][layer] == KvAt(kv, layer, p) {
      assert rows[p] == RowAt(kv, p);
    }
  }

  lemma RowsBelowExtend(kv: seq<nat>, position: nat)
    requires |kv| == KV_WORDS && position < CONTEXT_LIMIT
    ensures RowsBelow(kv, position + 1) == RowsBelow(kv, position) + [RowAt(kv, position)]
  {
  }

  /** Forgetting the tail of the history leaves a fresh cache of its prefix. */
  lemma CacheShrinks(model: Model, kv: seq<nat>, history: seq<nat>, n: nat)
    requires |kv| == KV_WORDS && n <= |history| <= CONTEXT_LIMIT
    requires FreshRows(model, history) == Some(RowsBelow(kv, |history|))
    ensures FreshRows(model, history[..n]) == Some(RowsBelow(kv, n))
  {
    FreshRowsPrefix(model, history, n);
    assert RowsBelow(kv, n) == RowsBelow(kv, |history|)[..n];
  }

  /**
   Both write loops of one layer.  With fault injection on, either loop may be the last thing
   that happens; a failure leaves the rows below `position` alone.
   */
  method WriteKv(inject: bool, kv: array<nat>, layer: nat, position: nat, entry: KV) returns (ok: bool)
    requires kv.Length == KV_WORDS && layer < LAYERS && position < CONTEXT_LIMIT
    modifies kv
    ensures RowsBelow(kv[..], position) == old(RowsBelow(kv[..], position))
    ensures forall l: nat | l < layer :: KvAt(kv[..], l, position) == old(KvAt(kv[..], l, position))
    ensures ok ==> KvAt(kv[..], layer, position) == entry
    ensures !inject ==> ok
  {
    ghost var kv0 := kv[..];
    WriteVector(kv, layer, 0, position, entry.key);
    ghost var kv1 := kv[..];
    SameExceptRows(kv0, kv1, layer, 0, position);
    forall l: nat | l < layer ensures KvAt(kv1, l, position) == KvAt(kv0, l, position) {
      SameExceptVector(kv0, kv1, layer, 0, position, l, 0, position);
      SameExceptVector(kv0, kv1, layer, 0, position, l, 1, position);
    }
    var faultBetween: bool := *;
    if inject && faultBetween {
      return false;
    }
    WriteVector(kv, layer, 1, position, entry.value);
    ghost var kv2 := kv[..];
    SameExceptRows(kv1, kv2, layer, 1, position);
    SameExceptVector(kv1, kv2, layer, 1, position, layer, 0, position);
    forall l: nat | l < layer ensures KvAt(kv2, l, position) == KvAt(kv1, l, position) {
      SameExceptVector(kv1, kv2, layer, 1, position, l, 0, position);
      SameExceptVector(kv1, kv2, layer, 1, position, l, 1, position);
    }
    var faultAfter: bool := *;
    ok := !(inject && faultAfter);
  }

  // ---- one token through the layers ----

  /** The finiteness check; a fault hook may spoil the words just before it. */
  method CheckWords(inject: bool, words: Words) returns (ok: bool)
    ensures ok ==> AllFinite(words)
    ensures !ok && !inject ==> !AllFinite(words)
  {
    var fault: bool := *;
    if inject && fault {
      return false;
    }
    for i := 0 to |words|
      invariant AllFinite(words[..i])
    {
      if !Finite(words[i]) {
        return false;
      }
    }
    assert words[..|words|] == words;
    ok := true;
  }

  /** All rows of a matrix product, one after the other; or the `i`th result that the dispatch has given back. */
  method RunProduct(model: Model, source: PS.Source, i: nat, input: Input) returns (words: Words)
    requires DP.HasProduct(model, source, i, input)
    ensures words == Apply(model, input)
  {
    if source.Dispatched? {
      return source.given[i];
    }
    words := [];
    for r := 0 to ProductRows(input.product)
      invariant |words| == r && forall i | 0 <= i < r :: words[i] == model.row(input, i)
    {
      words := words + [model.row(input, r)];
    }
  }

  /** Up to the rotations. */
  method RunProject(model: Model, inject: bool, source: PS.Source, layer: nat, position: nat, hidden: Hidden)
      returns (ok: bool, query: Query, entry: KV)
    requires PS.Serves(model, source, DE.ProjectSteps(model, layer, position, hidden))
    ensures ok ==> Project(model, layer, position, hidden) == Some((query, entry))
    ensures !ok && !inject ==> Project(model, layer, position, hidden).None?
  {
    query, entry := hidden, BLANK;
    var norm := model.rmsnorm(ATTN_NORM(layer), hidden);
    ok := CheckWords(inject, norm);
    if !ok {
      return;
    }
    DP.ProjectServed(model, source, layer, position, hidden);
    var staged := model.stage(norm);
    var qWords := RunProduct(model, source, 0, Input(layer, Q, staged));
    var q := model.biasQuery(layer, qWords);
    ok := CheckWords(inject, q);
    if !ok {
      return;
    }
    var kWords := RunProduct(model, source, 1, Input(layer, K, staged));
    var k := model.biasKey(layer, kWords);
    ok := CheckWords(inject, k);
    if !ok {
      return;
    }
    var vWords := RunProduct(model, source, 2, Input(layer, V, staged));
    var v := model.biasValue(layer, vWords);
    ok := CheckWords(inject, v);
    if !ok {
      return;
    }
    query, entry := model.rotateQuery(position, q), KV(model.rotateKey(position, k), v);
    ok := CheckWords(inject, query);
    if !ok {
      return;
    }
    ok := CheckWords(inject, entry.key);
  }

  /** From the attention output to the hidden state of the second half. */
  method RunMix(model: Model, inject: bool, source: PS.Source, layer: nat, hidden: Hidden, heads: Query)
      returns (ok: bool, mixed: Hidden)
    requires PS.Serves(model, source, DE.MixSteps(model, layer, hidden, heads))
    ensures ok ==> Mix(model, layer, hidden, heads) == Some(mixed)
    ensures !ok && !inject ==> Mix(model, layer, hidden, heads).None?
  {
    mixed := hidden;
    ok := CheckWords(inject, heads);
    if !ok {
      return;
    }
    DP.MixServed(model, source, layer, hidden, heads);
    var output := RunProduct(model, source, 0, Input(layer, ATTN_OUTPUT, model.stage(heads)));
    mixed := model.residual(hidden, output);
    ok := CheckWords(inject, mixed);
  }

  /** The second half of a layer. */
  method RunFeedForward(model: Model, inject: bool, source: PS.Source, layer: nat, hidden: Hidden)
      returns (ok: bool, next: Hidden)
    requires PS.Serves(model, source, DE.FeedForwardSteps(model, layer, hidden))
    ensures ok ==> FeedForward(model, layer, hidden) == Some(next)
    ensures !ok && !inject ==> FeedForward(model, layer, hidden).None?
  {
    next := hidden;
    var norm := model.rmsnorm(FFN_NORM(layer), hidden);
    ok := CheckWords(inject, norm);
    if !ok {
      return;
    }
    DP.FeedForwardServed(model, source, layer, hidden);
    var staged := model.stage(norm);
    var gate := RunProduct(model, source, 0, Input(layer, GATE, staged));
    ok := CheckWords(inject, gate);
    if !ok {
      return;
    }
    var up := RunProduct(model, source, 1, Input(layer, UP, staged));
    ok := CheckWords(inject, up);
    if !ok {
      return;
    }
    var product := model.swiglu(gate, up);
    ok := CheckWords(inject, product);
    if !ok {
      return;
    }
    var down := RunProduct(model, source, 2, Input(layer, DOWN, model.stage(product)));
    next := model.residual(hidden, down);
    ok := CheckWords(inject, next);
  }

  method RunReadout(model: Model, inject: bool, source: PS.Source, hidden: Hidden) returns (ok: bool, logits: Words)
    requires PS.Serves(model, source, DE.ReadoutSteps(model, hidden))
    ensures ok ==> Readout(model, hidden) == Some(logits)
    ensures !ok && !inject ==> Readout(model, hidden).None?
  {
    logits := [];
    var norm := model.rmsnorm(OUTPUT_NORM, hidden);
    ok := CheckWords(inject, norm);
    if !ok {
      return;
    }
    DP.ReadoutServed(model, source, hidden);
    logits := RunProduct(model, source, 0, Input(LAYERS, Product.LOGITS, model.stage(norm)));
    ok := CheckWords(inject, logits);
  }

  /**
   Attention for the position whose entry has just been stored.  Score buffer and output are scratch memory: they
   start with arbitrary words.
   */
  method RunHeads(model: Model, avx2: bool, kv: array<nat>, layer: nat, position: nat, query: Query,
                  ghost rows: seq<Row>, ghost entry: KV)
      returns (heads: Query)
    requires kv.Length == KV_WORDS && layer < LAYERS && position < CONTEXT_LIMIT
    requires RowsBelow(kv[..], position) == rows && KvAt(kv[..], layer, position) == entry
    ensures heads == Heads(model, rows, layer, query, entry)
  {
    var output, scores := new nat[QUERY_WORDS], new nat[CONTEXT_LIMIT];
    RunAttention(model.numbers, avx2, query, kv, output, scores, layer, position);
    GatherRows(kv[..], layer, position, rows, entry);
    heads := output[..];
  }

  /** One layer of `evaluate_inner`: project, store the entry, attend over everything stored so far, feed forward. */
  method RunLayer(model: Model, inject: bool, avx2: bool, source: PS.Source, kv: array<nat>, layer: nat, position: nat,
                  hidden: Hidden, ghost rows: seq<Row>)
      returns (ok: bool, next: Hidden, ghost entry: KV)
    requires kv.Length == KV_WORDS && layer < LAYERS && position < CONTEXT_LIMIT
    requires RowsBelow(kv[..], position) == rows
    requires PS.Serves(model, source, DE.LayerSteps(model, rows, layer, hidden))
    modifies kv
    ensures RowsBelow(kv[..], position) == rows
    ensures forall l: nat | l < layer :: KvAt(kv[..], l, position) == old(KvAt(kv[..], l, position))
    ensures ok ==> EvalLayer(model, rows, layer, hidden) == Some((entry, next)) && KvAt(kv[..], layer, position) == entry
    ensures !ok && !inject ==> EvalLayer(model, rows, layer, hidden).None?
  {
    next := hidden;
    DP.LayerServes(model, source, rows, layer, hidden);
    var projected, query, stored := RunProject(model, inject, PS.Upto(source, 3), layer, position, hidden);
    ok, entry := projected, stored;
    if !ok {
      return;
    }
    ok := WriteKv(inject, kv, layer, position, stored);
    if !ok {
      return;
    }
    var heads := RunHeads(model, avx2, kv, layer, position, query, rows, entry);
    var later := PS.From(source, 3);
    DP.SecondHalfServes(model, later, layer, hidden, heads);
    var mixed;
    ok, mixed := RunMix(model, inject, PS.Upto(later, 1), layer, hidden, heads);
    if !ok {
      return;
    }
    ok, next := RunFeedForward(model, inject, PS.From(later, 1), layer, mixed);
  }

  /** The entries of the first layers at `position`. */
  ghost predicate Entries(kv: seq<nat>, position: nat, done: seq<KV>)
    requires |kv| == KV_WORDS && position < CONTEXT_LIMIT && |done| <= LAYERS
  {
    forall l: nat | l < |done| :: KvAt(kv, l, position) == done[l]
  }

  lemma EntriesExtend(kv: seq<nat>, kv': seq<nat>, position: nat, done: seq<KV>, entry: KV)
    requires |kv| == |kv'| == KV_WORDS && position < CONTEXT_LIMIT && |done| < LAYERS
    requires Entries(kv, position, done) && KvAt(kv', |done|, position) == entry
    requires forall l: nat | l < |done| :: KvAt(kv', l, position) == KvAt(kv, l, position)
    ensures Entries(kv', position, done + [entry])
  {
  }

  method RunLayers(model: Model, inject: bool, avx2: bool, source: PS.Source, kv: array<nat>, position: nat,
                   hidden0: Hidden, ghost rows: seq<Row>)
      returns (ok: bool, hidden: Hidden)
    requires kv.Length == KV_WORDS && position < CONTEXT_LIMIT
    requires RowsBelow(kv[..], position) == rows
    requires PS.Serves(model, source, DE.LayersSteps(model, rows, hidden0, []))
    modifies kv
    ensures RowsBelow(kv[..], position) == rows
    ensures ok ==> EvalLayers(model, rows, hidden0, []) == Some((RowAt(kv[..], position), hidden))
    ensures !ok && !inject ==> EvalLayers(model, rows, hidden0, []).None?
  {
    hidden := hidden0;
    var later := source;
    ghost var done: seq<KV> := [];
    for layer := 0 to LAYERS
      invariant |done| == layer
      invariant RowsBelow(kv[..], position) == rows
      invariant Entries(kv[..], position, done)
      invariant EvalLayers(model, rows, hidden0, []) == EvalLayers(model, rows, hidden, done)
      invariant PS.Serves(model, later, DE.LayersSteps(model, rows, hidden, done))
      modifies kv
    {
      DP.LayersServe(model, later, rows, hidden, done);
      ghost var entry;
      ghost var before := kv[..];
      ok, hidden, entry :=
        RunLayer(model, inject, avx2, PS.Upto(later, DE.LAYER_PRODUCTS), kv, layer, position, hidden, rows);
      if !ok {
        return;
      }
      later := PS.From(later, DE.LAYER_PRODUCTS);
      EntriesExtend(before, kv[..], position, done, entry);
      done := done + [entry];
    }
    assert RowAt(kv[..], position) == done;
    ok := true;
  }

  class InferenceEngine {
    const model: Model
    const kv: array<nat>
    /** Which of the two sets of attention loops runs. */
    const avx2: bool
    /** Whether the fault-injection hooks may fire; off in a production build. */
    const inject: bool
    /** Who computes the products, when not this processor alone. */
    const dispatcher: Option<DP.Dispatcher>
    var position: nat
    var generationReserve: nat
    var predictionsEmitted: nat
    var lastSelected: nat
    var state: EngineState
    /** The tokens of the retained prefix; empty when nothing is retained. */
    var retained: seq<nat>
    /** The tokens whose rows the cache is meant to hold. */
    ghost var history: seq<nat>

    /** The rows below `position` are those of evaluating `history` from an empty cache. */
    ghost predicate CacheFresh()
      reads this, kv
    {
      && kv.Length == KV_WORDS
      && |history| == position <= CONTEXT_LIMIT
      && FreshRows(model, history) == Some(RowsBelow(kv[..], position))
    }

    predicate Live()
      reads this
    {
      state == READY || state == EOS
    }

    /** Whatever a dispatcher reports comes from a finished run of its dispatch. */
    ghost predicate Served() {
      dispatcher.Some? ==> DP.Faithful(model, dispatcher.value)
    }

    ghost predicate Valid()
      reads this, kv
    {
      && kv.Length == KV_WORDS
      && Served()
      && (state != FAULTED ==> CacheFresh())
      && (retained != [] ==> state != FAULTED && |retained| <= MAX_TOKENS && retained <= history)
      && (state == RESET ==> position == |retained|)
      && (Live() ==>
            && 1 <= predictionsEmitted <= generationReserve
            && position + (generationReserve - predictionsEmitted) <= CONTEXT_LIMIT - 1)
    }

    constructor (model: Model, kv: array<nat>, avx2: bool, inject: bool, dispatcher: Option<DP.Dispatcher>)
      requires kv.Length == KV_WORDS && (dispatcher.Some? ==> DP.Faithful(model, dispatcher.value))
      ensures Valid() && this.kv == kv && this.model == model && this.inject == inject && this.dispatcher == dispatcher
      ensures state == RESET && position == 0 && history == [] && retained == []
    {
      this.model := model;
      this.kv := kv;
      this.avx2 := avx2;
      this.inject := inject;
      this.dispatcher := dispatcher;
      position, generationReserve, predictionsEmitted, lastSelected := 0, 0, 0, 0;
      state := RESET;
      retained := [];
      history := [];
      new;
      assert RowsBelow(kv[..], 0) == [];
    }

    /** `evaluate_inner`: one token through all layers at the current position, with products from `source`. */
    method EvaluateInner(token: nat, produceLogits: bool, source: PS.Source) returns (ok: bool, logits: Option<Words>)
      requires CacheFresh() && position < CONTEXT_LIMIT
      requires PS.Serves(model, source, DE.TokenSteps(model, RowsBelow(kv[..], position), token, produceLogits))
      modifies this`position, this`history, kv
      ensures CacheFresh()
      ensures ok ==> history == old(history) + [token]
      ensures ok && produceLogits ==> logits.Some? && FreshLogits(model, history) == logits
      ensures !ok ==> history == old(history)
      ensures ok ==> old(DE.EvalResult(model, RowsBelow(kv[..], position), token, produceLogits)).Some?
      ensures !ok && !inject ==> old(DE.EvalResult(model, RowsBelow(kv[..], position), token, produceLogits)).None?
    {
      ok, logits := false, None;
      FreshRowsAppend(model, history, token);
      ghost var rows := RowsBelow(kv[..], position);
      var embedded := model.embedding(token);
      ok := CheckWords(inject, embedded);
      if !ok {
        return;
      }
      DP.TokenServes(model, source, rows, token, produceLogits);
      var products := LAYERS * DE.LAYER_PRODUCTS;
      var hidden;
      ok, hidden := RunLayers(model, inject, avx2, PS.Upto(source, products), kv, position, embedded, rows);
      if !ok {
        return;
      }
      RowsBelowExtend(kv[..], position);
      var lateFault: bool := *;
      if inject && lateFault {
        return false, None;
      }
      if produceLogits {
        var words;
        ok, words := RunReadout(model, inject, PS.From(source, products), hidden);
        if !ok {
          return;
        }
        logits := Some(words);
      }
      position := position + 1;
      history := history + [token];
      ok := true;
    }

    /**
     `evaluate`: on this processor, or with all products computed by a dispatch, whose terminal code is the answer. That
     code is never any other than 1 and 2.
     */
    method Evaluate(token: nat, produceLogits: bool) returns (ok: bool, logits: Option<Words>)
      requires CacheFresh() && position < CONTEXT_LIMIT
      requires Served()
      modifies this`position, this`history, kv
      ensures CacheFresh()
      ensures ok ==> history == old(history) + [token]
      ensures ok && produceLogits ==> logits.Some? && FreshLogits(model, history) == logits
      ensures !ok ==> history == old(history)
      ensures !ok && !inject ==>
        || FreshRows(model, history + [token]).None?
        || (produceLogits && FreshLogits(model, history + [token]).None?)
    {
      hide EvalToken, Readout, PS.Serves;
      FreshRowsAppend(model, history, token);
      if dispatcher.None? {
        ok, logits := EvaluateInner(token, produceLogits, PS.OneProcessor);
        return;
      }
      ghost var rows := RowsBelow(kv[..], position);
      var d := dispatcher.value;
      var (terminal, results) := d.outcome(RowsBelow(kv[..], position), token, produceLogits);
      DP.FinishedServes(model, d.workers, d.backend, rows, token, produceLogits, terminal, results);
      ok, logits := EvaluateInner(token, produceLogits, PS.Dispatched(results));
      assert !inject ==> terminal == if ok then 1 else 2;
      if terminal != 1 {
        assert !ok;
        ok := false;
      }
    }

    /** Nothing of the engine has changed since the method was entered. */
    twostate predicate Untouched()
      reads this, kv
    {
      && unchanged(this) && unchanged(kv)
    }

    /** A call has produced logits: they are the ones a from-scratch evaluation ends with. */
    ghost predicate Stepped(r: Outcome)
      reads this
    {
      && r.Done? && history != []
      && FreshLogits(model, history) == Some(r.logits)
      && lastSelected == model.argmax(r.logits)
      && r == Done(position, lastSelected, state == EOS, r.logits)
      && state == if lastSelected == model.eos then EOS else READY
    }

    /** `publish_step`: the last check, then the greedy token and the state it implies. */
    method PublishStep(logits: Words) returns (r: Outcome)
      requires CacheFresh() && history != [] && FreshLogits(model, history) == Some(logits)
      requires 1 <= predictionsEmitted <= generationReserve
      requires position + (generationReserve - predictionsEmitted) <= CONTEXT_LIMIT - 1
      requires Served() && (retained != [] ==> |retained| <= MAX_TOKENS && retained <= history)
      modifies this`lastSelected, this`state, this`retained
      ensures Valid()
      ensures r.Done? ==> Stepped(r) && retained == old(retained)
      ensures r.Failed? ==> state == FAULTED && retained == [] && r.error == ENGINE_FAULT
      ensures !inject ==> r.Done?
    {
      hide EvalToken, Readout;
      var fault: bool := *;
      if inject && fault {
        Fault();
        return Failed(ENGINE_FAULT);
      }
      lastSelected := model.argmax(logits);
      state := if lastSelected == model.eos then EOS else READY;
      r := Done(position, lastSelected, state == EOS, logits);
    }

    method Fault()
      modifies this`state, this`retained
      ensures state == FAULTED && retained == []
    {
      state := FAULTED;
      retained := [];
    }

    /** The prompt loop: logits are produced for the last token only. */
    method EvaluateAll(prompt: seq<nat>) returns (ok: bool, logits: Option<Words>)
      requires CacheFresh() && prompt != [] && position + |prompt| <= CONTEXT_LIMIT
      requires Served()
      modifies this`position, this`history, kv
      ensures CacheFresh()
      ensures ok ==>
        history == old(history) + prompt && logits.Some? && FreshLogits(model, history) == logits
      ensures !ok && !inject ==> FreshLogits(model, old(history) + prompt).None?
    {
      hide EvalToken, Readout, FreshLogits, FreshRows, RowsBelow, DP.Faithful;
      logits := None;
      var index := 0;
      while index < |prompt|
        invariant index <= |prompt|
        invariant CacheFresh() && history == old(history) + prompt[..index]
        invariant index == |prompt| ==> logits.Some? && FreshLogits(model, history) == logits
      {
        ghost var before := history;
        ok, logits := Evaluate(prompt[index], index + 1 == |prompt|);
        assert before + [prompt[index]] == old(history) + prompt[..index + 1];
        if !ok {
          FreshLogitsPrefix(model, old(history) + prompt, |old(history)| + index + 1);
          assert (old(history) + prompt)[..|old(history)| + index + 1] == before + [prompt[index]];
          return;
        }
        index := index + 1;
      }
      assert prompt[..|prompt|] == prompt;
      ok := true;
    }

    method PrefillInner(prompt: seq<nat>, reserve: nat, logitsLen: nat, append: bool) returns (r: Outcome)
      requires Valid() && state != FAULTED
      modifies this, kv
      ensures Valid()
      ensures PrefillRefusal(old(position), prompt, reserve, logitsLen, append).Some? ==>
        Untouched() && r == Failed(PrefillRefusal(old(position), prompt, reserve, logitsLen, append).value)
      ensures PrefillRefusal(old(position), prompt, reserve, logitsLen, append).None? ==>
        if r.Done? then
          && Stepped(r) && history == old(history) + prompt && retained == old(retained)
          && generationReserve == reserve && predictionsEmitted == 1
        else state == FAULTED && r.error == ENGINE_FAULT && retained == []
      ensures PrefillRefusal(old(position), prompt, reserve, logitsLen, append).None? && !inject ==>
        (r.Done? <==> FreshLogits(model, old(history) + prompt).Some?)
    {
      hide EvalToken, Readout;
      var refusal := PrefillRefusal(position, prompt, reserve, logitsLen, append);
      if refusal.Some? {
        return Failed(refusal.value);
      }
      generationReserve := reserve;
      predictionsEmitted := 0;
      var ok, logits := EvaluateAll(prompt);
      if !ok {
        Fault();
        return Failed(ENGINE_FAULT);
      }
      predictionsEmitted := 1;
      r := PublishStep(logits.value);
    }

    method Prefill(prompt: seq<nat>, reserve: nat, logitsLen: nat) returns (r: Outcome)
      requires Valid()
      modifies this, kv
      ensures Valid()
      ensures old(state) != RESET ==>
        Untouched() && r == Failed(Error(STATE, STATE_FIELD, if old(state) == FAULTED then 3 else 1))
      ensures old(state) == RESET ==>
        var refusal := PrefillRefusal(old(position), prompt, reserve, logitsLen, false);
        if refusal.Some? then Untouched() && r == Failed(refusal.value)
        else if r.Done? then
          && Stepped(r) && history == old(history) + prompt && retained == old(retained)
          && generationReserve == reserve && predictionsEmitted == 1
        else state == FAULTED && r.error == ENGINE_FAULT && retained == []
      ensures (old(state) == RESET && !inject
               && PrefillRefusal(old(position), prompt, reserve, logitsLen, false).None?) ==>
        (r.Done? <==> FreshLogits(model, old(history) + prompt).Some?)
    {
      if state == FAULTED {
        return Failed(Error(STATE, STATE_FIELD, 3));
      }
      if state != RESET {
        return Failed(Error(STATE, STATE_FIELD, 1));
      }
      r := PrefillInner(prompt, reserve, logitsLen, false);
    }

    method ResetState()
      requires kv.Length == KV_WORDS && Served()
      modifies this
      ensures Valid() && state == RESET && position == 0 && history == [] && retained == []
    {
      position, generationReserve, predictionsEmitted, lastSelected := 0, 0, 0, 0;
      state := RESET;
      retained := [];
      history := [];
      assert RowsBelow(kv[..], 0) == [];
    }

    /** The rest of `prefill_with_prefix` when no retained prefix is in the way. */
    method PrefillAndRetain(prompt: seq<nat>, prefix: nat, reserve: nat, logitsLen: nat) returns (r: Outcome)
      requires Valid() && retained == [] && !PrefixRefused(prompt, prefix)
      modifies this, kv
      ensures Valid()
      ensures old(state) != RESET ==> r.Failed? && r.error.status == STATE
      ensures old(state) == RESET ==>
        var refusal := PrefillRefusal(0, prompt, reserve, logitsLen, false);
        if refusal.Some? then r == Failed(refusal.value) && state == RESET && position == 0
        else if r.Done? then
          && Stepped(r) && history == prompt && retained == prompt[..prefix]
          && generationReserve == reserve && predictionsEmitted == 1
        else state == FAULTED && r.error == ENGINE_FAULT
      ensures (old(state) == RESET && !inject && PrefillRefusal(0, prompt, reserve, logitsLen, false).None?) ==>
        (r.Done? <==> FreshLogits(model, prompt).Some?)
    {
      hide EvalToken, Readout;
      assert state == RESET ==> [] + prompt == prompt;
      r := Prefill(prompt, reserve, logitsLen);
      if r.Done? {
        retained := prompt[..prefix];
      }
    }

    /** The other path: the retained prefix is in place and the rest of `prompt` is appended. */
    method PrefillAfterPrefix(prompt: seq<nat>, prefix: nat, reserve: nat, logitsLen: nat) returns (r: Outcome)
      requires Valid() && state == RESET && !PrefixRefused(prompt, prefix)
      requires |retained| == prefix && retained == prompt[..prefix]
      modifies this, kv
      ensures Valid()
      ensures
        var refusal := PrefillRefusal(prefix, prompt[prefix..], reserve, logitsLen, true);
        if refusal.Some? then r == Failed(refusal.value) && state == RESET && position == prefix
        else if r.Done? then
          && Stepped(r) && history == prompt && retained == prompt[..prefix]
          && generationReserve == reserve && predictionsEmitted == 1
        else state == FAULTED && r.error == ENGINE_FAULT
      ensures (!inject && PrefillRefusal(prefix, prompt[prefix..], reserve, logitsLen, true).None?) ==>
        (r.Done? <==> FreshLogits(model, prompt).Some?)
    {
      hide EvalToken, Readout;
      assert history + prompt[prefix..] == prompt;
      r := PrefillInner(prompt[prefix..], reserve, logitsLen, true);
    }

    /**
     Evaluates `prompt`, reusing the retained prefix when it matches.  Either way a success
     is a from-scratch evaluation of exactly `prompt`, and a prompt that could be evaluated from
     scratch succeeds.
     */
    method PrefillWithPrefix(prompt: seq<nat>, prefix: nat, reserve: nat, logitsLen: nat) returns (r: Outcome)
      requires Valid()
      modifies this, kv
      ensures Valid()
      ensures r.Done? ==>
        && prefix <= |prompt| && Stepped(r) && history == prompt && retained == prompt[..prefix]
        && generationReserve == reserve && predictionsEmitted == 1
      ensures PrefixRefused(prompt, prefix) ==>
        r == Failed(Error(CONTEXT, CONTEXT_FIELD, 3)) && state == RESET && position == 0
      ensures r.Failed? && !PrefixRefused(prompt, prefix) && old(state) == RESET ==>
        || (state == FAULTED && r.error == ENGINE_FAULT)
        || (state == RESET && PrefillRefusal(0, prompt, reserve, logitsLen, false).Some?)
      ensures r.Failed? && !PrefixRefused(prompt, prefix) && old(state) != RESET ==> r.error.status == STATE
      ensures (old(state) == RESET && !PrefixRefused(prompt, prefix) && !inject
               && PrefillRefusal(0, prompt, reserve, logitsLen, false).None?) ==>
        (r.Done? <==> FreshLogits(model, prompt).Some?)
    {
      if PrefixRefused(prompt, prefix) {
        ResetState();
        return Failed(Error(CONTEXT, CONTEXT_FIELD, 3));
      }
      if retained != [] {
        if state == RESET && position == |retained| && |retained| == prefix && retained == prompt[..prefix] {
          PrefixRefusal(prompt, prefix, reserve, logitsLen);
          r := PrefillAfterPrefix(prompt, prefix, reserve, logitsLen);
          return;
        }
        if state != RESET {
          ResetState();
          return Failed(Error(STATE, STATE_FIELD, 4));
        }
        ResetState();
      }
      r := PrefillAndRetain(prompt, prefix, reserve, logitsLen);
    }

    method AppendPrefill(prompt: seq<nat>, reserve: nat, logitsLen: nat) returns (r: Outcome)
      requires Valid()
      modifies this, kv
      ensures Valid()
      ensures !old(Live()) ==>
        Untouched() && r == Failed(Error(STATE, STATE_FIELD, if old(state) == FAULTED then 3 else 0))
      ensures old(Live()) ==>
        var refusal := PrefillRefusal(old(position), prompt, reserve, logitsLen, true);
        if refusal.Some? then Untouched() && r == Failed(refusal.value)
        else if r.Done? then
          && Stepped(r) && history == old(history) + prompt && retained == old(retained)
          && generationReserve == reserve && predictionsEmitted == 1
        else state == FAULTED && r.error == ENGINE_FAULT && retained == []
      ensures (old(Live()) && !inject
               && PrefillRefusal(old(position), prompt, reserve, logitsLen, true).None?) ==>
        (r.Done? <==> FreshLogits(model, old(history) + prompt).Some?)
    {
      if state == FAULTED {
        return Failed(Error(STATE, STATE_FIELD, 3));
      }
      if state == RESET {
        return Failed(Error(STATE, STATE_FIELD, 0));
      }
      r := PrefillInner(prompt, reserve, logitsLen, true);
    }

    /** `decode` (greedy) and `decode_selected`; the arena bound check never refuses. */
    method Decode(token: nat, logitsLen: nat, greedy: bool) returns (r: Outcome)
      requires Valid()
      modifies this, kv
      ensures Valid()
      ensures r != Failed(Error(CONTEXT, CONTEXT_FIELD, 2))
      ensures
        var refusal := old(DecodeRefusal(state, token, lastSelected, predictionsEmitted, generationReserve,
                                         position, logitsLen, greedy));
        if refusal.Some? then Untouched() && r == Failed(refusal.value)
        else if r.Done? then
          && Stepped(r) && history == old(history) + [token] && retained == old(retained)
          && generationReserve == old(generationReserve) && predictionsEmitted == old(predictionsEmitted) + 1
        else state == FAULTED && r.error == ENGINE_FAULT && retained == []
      ensures !inject && old(DecodeRefusal(state, token, lastSelected, predictionsEmitted, generationReserve,
                                           position, logitsLen, greedy)).None? ==>
        (r.Done? <==> FreshLogits(model, old(history) + [token]).Some?)
    {
      hide EvalToken, Readout, FreshLogits, FreshRows, RowsBelow;
      var refusal := DecodeRefusal(state, token, lastSelected, predictionsEmitted, generationReserve,
                                   position, logitsLen, greedy);
      if refusal.Some? {
        return Failed(refusal.value);
      }
      var ok, logits := Evaluate(token, true);
      if !ok {
        if FreshRows(model, history + [token]).None? {
          NoRowNoLogits(model, history, token);
        }
        Fault();
        return Failed(ENGINE_FAULT);
      }
      predictionsEmitted := predictionsEmitted + 1;
      r := PublishStep(logits.value);
    }

    method Reset()
      requires Valid()
      modifies this
      ensures Valid() && state == RESET && position == 0 && history == [] && retained == []
    {
      ResetState();
    }

    /** Back to the retained prefix, or to nothing after a fault or without one. */
    method ResetToPrefix() returns (kept: nat)
      requires Valid()
      modifies this
      ensures Valid() && state == RESET && position == kept == |retained|
      ensures retained == old(retained) && history == old(retained)
    {
      hide EvalToken, Readout;
      var valid :=
        match state
        case RESET => retained != [] && position == |retained|
        case READY => retained != [] && position >= |retained| && position <= CONTEXT_LIMIT
        case EOS => retained != [] && position >= |retained| && position <= CONTEXT_LIMIT
        case FAULTED => false;
      if !valid {
        ResetState();
        return 0;
      }
      CacheShrinks(model, kv[..], history, |retained|);
      assert history[..|retained|] == retained;
      position := |retained|;
      history := retained;
      generationReserve, predictionsEmitted, lastSelected := 0, 0, 0;
      state := RESET;
      kept := position;
    }
  }

  // ---- every sequence of calls ----

  datatype Call =
    | CallPrefill(prompt: seq<nat>, reserve: nat, logitsLen: nat)
    | CallPrefix(prompt: seq<nat>, prefix: nat, reserve: nat, logitsLen: nat)
    | CallAppend(prompt: seq<nat>, reserve: nat, logitsLen: nat)
    | CallDecode(token: nat, logitsLen: nat, greedy: bool)
    | CallReset
    | CallResetToPrefix

  /**
   From an arbitrary arena, after any calls with any faults: a live engine's rows are the
   fresh ones, and generating up to its reserve stays inside the arena.
   */
  method AnyCalls(model: Model, kv: array<nat>, avx2: bool, inject: bool, dispatcher: Option<DP.Dispatcher>,
                  calls: seq<Call>)
      returns (engine: InferenceEngine)
    requires kv.Length == KV_WORDS && (dispatcher.Some? ==> DP.Faithful(model, dispatcher.value))
    modifies kv
    ensures engine.kv == kv && engine.model == model && engine.dispatcher == dispatcher && engine.Valid()
    ensures engine.state != FAULTED ==>
      && |engine.history| == engine.position <= CONTEXT_LIMIT
      && FreshRows(model, engine.history) == Some(RowsBelow(kv[..], engine.position))
    ensures engine.Live() ==>
      engine.position + (engine.generationReserve - engine.predictionsEmitted) < CONTEXT_LIMIT
  {
    engine := new InferenceEngine(model, kv, avx2, inject, dispatcher);
    var i := 0;
    while i < |calls|
      invariant engine.kv == kv && engine.model == model && engine.dispatcher == dispatcher && engine.Valid()
      invariant fresh(engine)
      modifies engine, kv
    {
      match calls[i] {
        case CallPrefill(prompt, reserve, logitsLen) =>
          var _ := engine.Prefill(prompt, reserve, logitsLen);
        case CallPrefix(prompt, prefix, reserve, logitsLen) =>
          var _ := engine.PrefillWithPrefix(prompt, prefix, reserve, logitsLen);
        case CallAppend(prompt, reserve, logitsLen) =>
          var _ := engine.AppendPrefill(prompt, reserve, logitsLen);
        case CallDecode(token, logitsLen, greedy) =>
          var _ := engine.Decode(token, logitsLen, greedy);
        case CallReset =>
          engine.Reset();
        case CallResetToPrefix =>
          var _ := engine.ResetToPrefix();
      }
      i := i + 1;
    }
  }
}
