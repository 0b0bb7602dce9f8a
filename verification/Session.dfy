/**
 The REPL controller above the engine: committed conversation, prompt under construction, and
 the part of the conversation the engine still holds.  Whatever the turns, interrupts,
 device failures and resets, the three stay in step.
 */
module Session {
  import opened Wrappers
  import opened KvLayout
  import opened Evaluation
  import opened Engine

  const GENERATION_RESERVE := 1_024
  const PROMPT_LIMIT := CONTEXT_LIMIT - 1
  const IM_START := 151_644
  const IM_END := 151_645
  const NEWLINE := 198

  // ---- deciding what to do with the history ----

  datatype HistoryDecision =
    | Use(promptTokens: nat)
    | RetryFresh
    | ResetHistory(promptTokens: nat)
    | Reject(freshTokens: nat)

  function DecideHistory(hasHistory: bool, prospective: nat, alone: Option<nat>): HistoryDecision {
    if prospective <= PROMPT_LIMIT then Use(prospective)
    else if hasHistory then
      match alone
      case None => RetryFresh
      case Some(tokens) => if tokens <= PROMPT_LIMIT then ResetHistory(tokens) else Reject(tokens)
    else Reject(if alone.Some? then alone.value else prospective)
  }

  // ---- the tokenizer, as the controller sees it ----

  /**
   `tokenize` gives the tokens of a line rendered as a fresh prompt, or None when the line is refused;
   the first `prefix` of them are the fixed system prefix.
   */
  datatype Tokenizer<!Line> = Tokenizer(tokenize: Line -> Option<seq<nat>>, prefix: nat)

  ghost predicate GoodTokenizer<Line(!new)>(t: Tokenizer<Line>) {
    && 0 < t.prefix <= MAX_TOKENS
    && forall line | t.tokenize(line).Some? ::
         var tokens := t.tokenize(line).value;
         t.prefix < |tokens| <= MAX_TOKENS && !BadToken(tokens)
  }

  datatype Rendered = Prompt(promptTokens: nat) | Overflow(prospective: nat) | BadHistory | Untokenizable

  /** `at` is the newline before the second IM_START: a follow-up prompt starts there. */
  predicate FollowUpAt(tokens: seq<nat>, at: nat) {
    && at + 1 < |tokens|
    && tokens[at] == NEWLINE && tokens[at + 1] == IM_START
    && Starts(tokens[..at + 1]) == 1
  }

  function Starts(tokens: seq<nat>): nat {
    if tokens == [] then 0
    else Starts(tokens[..|tokens| - 1]) + if tokens[|tokens| - 1] == IM_START then 1 else 0
  }

  lemma {:induction false} StartsGrow(tokens: seq<nat>, m: nat, n: nat)
    requires m <= n <= |tokens|
    ensures Starts(tokens[..m]) <= Starts(tokens[..n])
  {
    if m < n {
      StartsGrow(tokens, m, n - 1);
      assert tokens[..n][..n - 1] == tokens[..n - 1];
    }
  }

  lemma TwoStarts(tokens: seq<nat>, a: nat)
    requires FollowUpAt(tokens, a)
    ensures Starts(tokens[..a + 2]) == 2
  {
    assert tokens[..a + 2][..a + 1] == tokens[..a + 1];
  }

  /** At most one position qualifies. */
  lemma FollowUpUnique(tokens: seq<nat>, a: nat, b: nat)
    requires FollowUpAt(tokens, a) && FollowUpAt(tokens, b)
    ensures a == b
  {
    if a < b {
      FollowUpOrder(tokens, a, b);
    } else if b < a {
      FollowUpOrder(tokens, b, a);
    }
  }

  lemma FollowUpOrder(tokens: seq<nat>, a: nat, b: nat)
    requires FollowUpAt(tokens, a) && a < b && b + 1 <= |tokens|
    ensures Starts(tokens[..b + 1]) >= 2
  {
    TwoStarts(tokens, a);
    StartsGrow(tokens, a + 2, b + 1);
  }

  /** The scan of `render_conversation_and_tokenize` for the second IM_START. */
  method FindFollowUp(tokens: seq<nat>) returns (start: Option<nat>)
    ensures start.Some? ==> FollowUpAt(tokens, start.value)
    ensures start.None? ==> forall at: nat :: !FollowUpAt(tokens, at)
  {
    var seen, at := 0, 0;
    while at < |tokens|
      invariant at <= |tokens|
      invariant seen == Starts(tokens[..at]) < 2
    {
      assert tokens[..at + 1][..at] == tokens[..at];
      if tokens[at] == IM_START {
        seen := seen + 1;
        if seen == 2 {
          assert at > 0;
          if tokens[at - 1] == NEWLINE {
            return Some(at - 1);
          }
          forall b: nat ensures !FollowUpAt(tokens, b) {
            if FollowUpAt(tokens, b) {
              NoOtherFollowUp(tokens, at, b);
            }
          }
          return None;
        }
      }
      at := at + 1;
    }
    assert tokens[..at] == tokens;
    forall b: nat ensures !FollowUpAt(tokens, b) {
      if FollowUpAt(tokens, b) {
        TwoStarts(tokens, b);
        StartsGrow(tokens, b + 2, at);
      }
    }
    start := None;
  }

  lemma NoOtherFollowUp(tokens: seq<nat>, at: nat, b: nat)
    requires 0 < at < |tokens| && tokens[at] == IM_START && Starts(tokens[..at]) == 1
    requires FollowUpAt(tokens, b)
    ensures b == at - 1
  {
    assert tokens[..at + 1][..at] == tokens[..at];
    TwoStarts(tokens, b);
    if b + 1 < at {
      StartsGrow(tokens, b + 2, at);
    } else if b + 1 > at {
      StartsGrow(tokens, at + 1, b + 1);
    }
  }

  method ZeroFrom(a: array<nat>, from: nat)
    requires from <= a.Length
    modifies a
    ensures a[..from] == old(a[..from])
    ensures forall i | from <= i < a.Length :: a[i] == 0
  {
    var i := from;
    while i < a.Length
      invariant from <= i <= a.Length
      invariant a[..from] == old(a[..from])
      invariant forall k | from <= k < i :: a[k] == 0
    {
      a[i] := 0;
      i := i + 1;
    }
  }

  method CopyTokens(tokens: seq<nat>, a: array<nat>)
    requires |tokens| <= a.Length
    modifies a
    ensures a[..|tokens|] == tokens
  {
    var i := 0;
    while i < |tokens|
      invariant i <= |tokens|
      invariant a[..i] == tokens[..i]
    {
      a[i] := tokens[i];
      i := i + 1;
    }
  }

  // ---- turns ----

  datatype TurnError =
    | HISTORY_STATE              // an internal inconsistency
    | TOKENIZE                   // the line cannot be rendered
    | INFERENCE(error: Error)    // the engine refused or faulted
    | TOKEN_OUTPUT               // a selected token could not be sampled, decoded, shown or recorded
    | DEVICE                     // clock, console or record failure

  datatype Turn = Finished(saved: bool) | ContextRejected | Aborted(error: TurnError)

  /** The errors a turn can really end with. */
  predicate Expected(e: TurnError) {
    e == TOKENIZE || e == TOKEN_OUTPUT || e == DEVICE || e == INFERENCE(ENGINE_FAULT)
  }

  datatype LoopEnd = Saved | Interrupted | Exhausted | Broken(error: TurnError)

  // ---- what happens around the engine during a turn ----

  /** A key press, a failed device, or a token that cannot be sampled, decoded or shown. */
  datatype Stop = KeyPressed | DeviceFailed | OutputFailed

  function EndOf(stop: Stop): LoopEnd {
    match stop
    case KeyPressed => Interrupted
    case DeviceFailed => Broken(DEVICE)
    case OutputFailed => Broken(TOKEN_OUTPUT)
  }

  /** One iteration: stops before and after the model call, the token sampled, whether it ends the text. */
  datatype Moment = Moment(before: Option<Stop>, token: nat, after: Option<Stop>, eos: bool, statusFails: bool)

  datatype Env = Env(
    acceptFails: bool,       // a record before tokenization
    resetFails: bool,        // the record of a history reset
    promptFails: bool,       // the record of the tokenized prompt
    startFails: bool,        // the record that opens generation
    moments: seq<Moment>,    // the iterations of the loop, as many as it may need
    incomplete: bool,        // the text ends inside a UTF-8 sequence
    outputFails: bool)       // console or records after the loop

  function MomentAt(env: Env, i: nat): Moment {
    if i < |env.moments| then env.moments[i] else Moment(None, 0, None, true, false)
  }

  predicate StopEnd(end: LoopEnd) {
    end.Interrupted? || (end.Broken? && Expected(end.error))
  }

  /** The ways an iteration may stop a turn. */
  predicate StopsOn(m: Moment, end: LoopEnd) {
    || (m.before.Some? && end == EndOf(m.before.value))
    || end == Broken(INFERENCE(ENGINE_FAULT))
    || (m.after.Some? && end == EndOf(m.after.value))
    || (m.statusFails && end == Broken(DEVICE))
  }

  /** The sampler returns a token of the vocabulary. */
  ghost predicate GoodEnv(env: Env) {
    forall i: nat :: MomentAt(env, i).token < VOCAB_COUNT
  }

  /** What is stored for a selected token: the conversation always closes with IM_END. */
  function Reply(m: Moment): nat {
    if m.eos then IM_END else m.token
  }

  function Replies(env: Env, n: nat): (tokens: seq<nat>)
    ensures |tokens| == n
  {
    if n == 0 then [] else Replies(env, n - 1) + [Reply(MomentAt(env, n - 1))]
  }

  lemma RepliesStep(prompt: seq<nat>, env: Env, n: nat)
    ensures prompt + Replies(env, n) + [Reply(MomentAt(env, n))] == prompt + Replies(env, n + 1)
  {
  }

  lemma {:induction false} RepliesGood(env: Env, n: nat)
    requires GoodEnv(env)
    ensures !BadToken(Replies(env, n))
  {
    if n > 0 {
      RepliesGood(env, n - 1);
    }
  }

  /** A prompt followed by a closed reply is a text of valid tokens that ends with IM_END. */
  lemma ClosedText(prompt: seq<nat>, env: Env, n: nat)
    requires GoodEnv(env) && !BadToken(prompt) && n > 0 && MomentAt(env, n - 1).eos
    ensures !BadToken(prompt + Replies(env, n))
    ensures (prompt + Replies(env, n))[|prompt| + n - 1] == IM_END
  {
    RepliesGood(env, n);
    GoodConcat(prompt, Replies(env, n));
  }

  /** None of the first `n` iterations ends the text. */
  predicate Open(env: Env, n: nat) {
    n == 0 || (Open(env, n - 1) && !MomentAt(env, n - 1).eos)
  }

  /** Generation undisturbed for `limit` iterations has `n` of them. */
  predicate IsTurn(env: Env, limit: nat, n: nat) {
    && 0 < n <= limit
    && Open(env, n - 1)
    && (n == limit || MomentAt(env, n - 1).eos)
  }

  predicate Calm(m: Moment) {
    m.before.None? && m.after.None? && !m.statusFails
  }

  /** Iteration `k` meets nothing that stops it, and what it asks of the engine can be evaluated from scratch. */
  ghost predicate GoesThrough(model: Model, prompt: seq<nat>, env: Env, k: nat)
    requires prompt != []
  {
    Calm(MomentAt(env, k)) && FreshLogits(model, prompt + Replies(env, k)).Some?
  }

  /** A reply has at most 1024 tokens and must fit into the 32768 tokens of the context behind its prompt. */
  predicate InTime(prompt: seq<nat>, n: nat) {
    n <= 1_024 && |prompt| + n <= 32_768
  }

  /** Every iteration up to the end of text, or up to the last for which there is room, goes through. */
  ghost predicate Smooth(model: Model, prompt: seq<nat>, env: Env) {
    forall k: nat | prompt != [] && Open(env, k) && InTime(prompt, k + 1) :: GoesThrough(model, prompt, env, k)
  }

  /** The first end of text comes with iteration `n`. */
  predicate EndsWith(env: Env, n: nat) {
    n > 0 && Open(env, n - 1) && MomentAt(env, n - 1).eos
  }

  lemma {:induction false} OpenBefore(env: Env, m: nat, n: nat)
    requires m <= n && Open(env, n)
    ensures Open(env, m)
  {
    if m < n {
      OpenBefore(env, m, n - 1);
    }
  }

  lemma EndAfterOpen(env: Env, m: nat, n: nat)
    requires EndsWith(env, m) && Open(env, n)
    ensures n < m
  {
    if m <= n {
      OpenBefore(env, m, n);
    }
  }

  /** Either some iteration has the first end of text, or all are open. */
  lemma {:induction false} EndOrOpen(env: Env, n: nat)
    ensures Open(env, n) || exists m: nat :: m <= n && EndsWith(env, m)
  {
    if n > 0 {
      EndOrOpen(env, n - 1);
      if Open(env, n - 1) && !Open(env, n) {
        assert EndsWith(env, n);
      }
    }
  }

  lemma StopsExpected(m: Moment, end: LoopEnd)
    requires StopsOn(m, end)
    ensures StopEnd(end)
  {
  }

  /** The first end of text comes while there is room for it. */
  ghost predicate EndsInTime(prompt: seq<nat>, env: Env) {
    exists n: nat :: EndsWith(env, n) && InTime(prompt, n)
  }

  /** `text` is the prompt followed by exactly the tokens up to the end of text, which came in time. */
  predicate ClosedTurn(prompt: seq<nat>, env: Env, text: seq<nat>) {
    && |prompt| < |text|
    && EndsWith(env, |text| - |prompt|)
    && InTime(prompt, |text| - |prompt|)
    && text == prompt + Replies(env, |text| - |prompt|)
  }

  /** When the limit is the most there is room for, a reply that is open up to it does not end in time. */
  lemma OpenTooLong(prompt: seq<nat>, env: Env, limit: nat)
    requires Open(env, limit) && !InTime(prompt, limit + 1)
    ensures !EndsInTime(prompt, env)
  {
    forall n: nat | EndsWith(env, n) ensures !InTime(prompt, n) {
      EndAfterOpen(env, n, limit);
    }
  }

  /** A turn is saved when its reply ended in time, and exhausted, at the greatest limit, only when it did not. */
  ghost predicate JudgedRight(end: LoopEnd, prompt: seq<nat>, limit: nat, env: Env) {
    && (end.Saved? ==> EndsInTime(prompt, env))
    && (end.Exhausted? && !InTime(prompt, limit + 1) ==> !EndsInTime(prompt, env))
  }

  class Controller<Line(!new)> {
    const tokenizer: Tokenizer<Line>
    const engine: InferenceEngine
    const committed: array<nat>
    const working: array<nat>
    var committedLen: nat
    var cachedLen: nat
    var historyTurns: nat

    ghost predicate Shape()
      reads `committedLen
    {
      && GoodTokenizer(tokenizer)
      && committed.Length == working.Length == CONTEXT_LIMIT
      && committed != working && engine.kv != committed && engine.kv != working
      && committedLen <= CONTEXT_LIMIT
    }

    /** What the committed conversation looks like: a whole number of turns of valid tokens. */
    ghost predicate HistoryOk()
      reads `committedLen, committed
    {
      && Shape()
      && !BadToken(committed[..committedLen])
      && (committedLen > 0 ==> committedLen > tokenizer.prefix && committed[committedLen - 1] == IM_END)
    }

    predicate PrefixKept()
      reads engine`retained
    {
      engine.retained == [] || |engine.retained| == tokenizer.prefix
    }

    /** The engine has nothing but perhaps the fixed prefix. */
    predicate EngineAtRest()
      reads `cachedLen, engine`state
    {
      engine.state == RESET && cachedLen == 0
    }

    /** The engine holds the committed conversation except its last token. */
    predicate EngineHoldsHistory()
      reads `cachedLen, `committedLen, engine
    {
      && engine.Live()
      && 0 < cachedLen && cachedLen + 1 == committedLen <= committed.Length
      && engine.position == cachedLen
    }

    /** What every turn keeps. */
    ghost predicate Coherent()
      reads this, engine, engine.kv, committed
    {
      && HistoryOk()
      && engine.Valid()
      && PrefixKept()
      && (EngineAtRest() || (EngineHoldsHistory() && engine.history == committed[..cachedLen]))
    }

    constructor (tokenizer: Tokenizer<Line>, engine: InferenceEngine, committed: array<nat>, working: array<nat>)
      requires GoodTokenizer(tokenizer) && engine.Valid() && engine.state == RESET && engine.retained == []
      requires committed.Length == working.Length == CONTEXT_LIMIT
      requires committed != working && engine.kv != committed && engine.kv != working
      ensures Coherent() && committedLen == 0
      ensures this.engine == engine && this.committed == committed && this.working == working
      ensures this.tokenizer == tokenizer
    {
      this.tokenizer, this.engine, this.committed, this.working := tokenizer, engine, committed, working;
      committedLen, cachedLen, historyTurns := 0, 0, 0;
    }

    /** The prompt of `line` on its own. */
    ghost predicate FreshPrompt(line: Line, prompt: seq<nat>) {
      tokenizer.tokenize(line) == Some(prompt)
    }

    /** The prompt of `line` as the next turn of `history`. */
    ghost predicate FollowUpPrompt(history: seq<nat>, line: Line, prompt: seq<nat>) {
      tokenizer.tokenize(line).Some? && exists start: nat ::
        && FollowUpAt(tokenizer.tokenize(line).value, start)
        && prompt == history + tokenizer.tokenize(line).value[start..]
    }

    /** `line` does not fit behind `history`: there would be no room for a reply of even one token. */
    ghost predicate TooLong(history: seq<nat>, line: Line) {
      exists prompt :: FollowUpPrompt(history, line, prompt) && !InTime(prompt, 1)
    }

    lemma FitsOrNot(history: seq<nat>, line: Line, prompt: seq<nat>)
      requires FollowUpPrompt(history, line, prompt)
      ensures TooLong(history, line) <==> |prompt| >= 32_768
    {
      if TooLong(history, line) {
        var other :| FollowUpPrompt(history, line, other) && !InTime(other, 1);
        FollowUpPromptUnique(history, line, prompt, other);
      }
    }

    /** Neither a fresh prompt nor a next turn can be made of the line. */
    ghost predicate Unusable(history: seq<nat>, line: Line) {
      tokenizer.tokenize(line).None? || (history != [] && forall prompt :: !FollowUpPrompt(history, line, prompt))
    }

    /** The prompt that a line must lead to, given the committed history. */
    ghost predicate RightPrompt(history: seq<nat>, line: Line, prompt: seq<nat>) {
      if history == [] || TooLong(history, line) then FreshPrompt(line, prompt)
      else FollowUpPrompt(history, line, prompt)
    }

    /** A line has at most one follow-up prompt, so at most one right prompt. */
    lemma RightPromptUnique(history: seq<nat>, line: Line, a: seq<nat>, b: seq<nat>)
      requires RightPrompt(history, line, a) && RightPrompt(history, line, b)
      ensures a == b
    {
      if history != [] && !TooLong(history, line) {
        FollowUpPromptUnique(history, line, a, b);
      }
    }

    lemma FollowUpPromptUnique(history: seq<nat>, line: Line, a: seq<nat>, b: seq<nat>)
      requires FollowUpPrompt(history, line, a) && FollowUpPrompt(history, line, b)
      ensures a == b
    {
      var tokens := tokenizer.tokenize(line).value;
      var i: nat :| FollowUpAt(tokens, i) && a == history + tokens[i..];
      var j: nat :| FollowUpAt(tokens, j) && b == history + tokens[j..];
      FollowUpUnique(tokens, i, j);
    }

    /**
     `render_conversation_and_tokenize` against the committed history, or against none.
     */
    method Render(withHistory: bool, line: Line) returns (r: Rendered, ghost prompt: seq<nat>)
      requires HistoryOk()
      requires withHistory ==> committedLen > 0
      modifies working
      ensures r != BadHistory
      ensures tokenizer.tokenize(line).None? ==> r == Untokenizable
      ensures r == Untokenizable ==> Unusable(if withHistory then committed[..committedLen] else [], line)
      ensures r.Prompt? ==>
        && tokenizer.tokenize(line).Some?
        && 0 < r.promptTokens == |prompt| <= CONTEXT_LIMIT
        && prompt == working[..r.promptTokens] && !BadToken(prompt)
        && (withHistory ==> r.promptTokens > committedLen && working[..committedLen] == committed[..committedLen])
        && (!withHistory ==> FreshPrompt(line, prompt))
      ensures r.Overflow? ==> withHistory && r.prospective == |prompt| > CONTEXT_LIMIT
      ensures (r.Prompt? && withHistory) || r.Overflow? ==> FollowUpPrompt(committed[..committedLen], line, prompt)
      ensures tokenizer.tokenize(line).Some? && !withHistory ==> r.Prompt?
      ensures !r.Prompt? ==> unchanged(working)
    {
      ghost var history := committed[..committedLen];
      prompt := [];
      if withHistory && committed[committedLen - 1] != IM_END {
        return BadHistory, prompt;
      }
      var rendered := tokenizer.tokenize(line);
      if rendered.None? {
        return Untokenizable, prompt;
      }
      var tokens := rendered.value;
      if !withHistory {
        CopyTokens(tokens, working);
        return Prompt(|tokens|), tokens;
      }
      var start := FindFollowUp(tokens);
      if start.None? {
        return Untokenizable, prompt;
      }
      var suffix := tokens[start.value..];
      GoodSlice(tokens, start.value, |tokens|);
      assert tokens[start.value..|tokens|] == suffix;
      prompt := history + suffix;
      assert FollowUpPrompt(history, line, prompt);
      if committedLen + |suffix| > CONTEXT_LIMIT {
        return Overflow(committedLen + |suffix|), prompt;
      }
      GoodConcat(history, suffix);
      CopyTokens(committed[..committedLen] + suffix, working);
      assert working[..committedLen] == prompt[..committedLen];
      r := Prompt(committedLen + |suffix|);
    }

    // ---- generation ----

    /** `working` holds a prompt that continues what the engine holds. */
    ghost predicate EngineAwaits(promptCount: nat)
      reads `cachedLen, engine, engine.kv, working
    {
      && engine.Valid() && PrefixKept()
      && promptCount <= working.Length && !BadToken(working[..promptCount])
      && (EngineAtRest() ||
          (0 < cachedLen < promptCount && engine.Live() && engine.history == working[..cachedLen]))
    }

    ghost predicate PromptReady(promptCount: nat)
      reads this, engine, engine.kv, committed, working
    {
      && Coherent()
      && tokenizer.prefix < promptCount <= PROMPT_LIMIT
      && EngineAwaits(promptCount)
    }

    /** The engine has evaluated all `count` tokens of `working` and may go on. */
    ghost predicate EngineFollows(count: nat, limit: nat, emitted: nat)
      reads engine, engine.kv, working
    {
      && engine.Valid() && PrefixKept() && engine.Live()
      && count <= working.Length && engine.history == working[..count]
      && engine.generationReserve == limit && engine.predictionsEmitted == emitted
    }

    /** `generated` tokens have been stored after the prompt, and all but the last are evaluated. */
    ghost predicate Generating(promptCount: nat, limit: nat, generated: nat, previous: nat)
      reads `cachedLen, engine, engine.kv, working
      requires promptCount + limit <= working.Length && generated <= limit
    {
      if generated == 0 then EngineAwaits(promptCount)
      else
        && EngineFollows(promptCount + generated - 1, limit, generated)
        && previous < VOCAB_COUNT && previous == working[promptCount + generated - 1]
    }

    ghost predicate Room(promptCount: nat, limit: nat)
      reads `committedLen
    {
      && Shape()
      && tokenizer.prefix < promptCount && promptCount + limit <= CONTEXT_LIMIT
      && 0 < limit <= GENERATION_RESERVE
    }

    /** The first model call of a turn: the rest of the prompt, or all of it after the prefix. */
    method InferPrompt(promptCount: nat, limit: nat) returns (r: Outcome)
      requires Room(promptCount, limit) && EngineAwaits(promptCount)
      modifies engine, engine.kv
      ensures engine.Valid() && PrefixKept()
      ensures r.Done? ==>
        && EngineFollows(promptCount, limit, 1)
        && FreshLogits(engine.model, working[..promptCount]) == Some(r.logits)
      ensures r.Failed? ==> r.error == ENGINE_FAULT
      ensures !engine.inject ==> (r.Done? <==> FreshLogits(engine.model, working[..promptCount]).Some?)
    {
      hide FreshLogits, FreshRows, RowsBelow;
      if cachedLen != 0 {
        ghost var prompt := working[..promptCount];
        var rest := working[cachedLen..promptCount];
        assert prompt == working[..cachedLen] + rest;
        GoodSlice(prompt, cachedLen, promptCount);
        assert prompt[cachedLen..promptCount] == rest;
        r := engine.AppendPrefill(rest, limit, LOGIT_WORDS);
      } else {
        r := engine.PrefillWithPrefix(working[..promptCount], tokenizer.prefix, limit, LOGIT_WORDS);
      }
    }

    /**
     One model call of the generation loop.  The engine never refuses it: the only failure is
     an evaluation fault.
     */
    method Infer(promptCount: nat, limit: nat, generated: nat, previous: nat) returns (r: Outcome)
      requires Room(promptCount, limit) && generated < limit
      requires Generating(promptCount, limit, generated, previous)
      modifies engine, engine.kv
      ensures engine.Valid() && PrefixKept()
      ensures r.Done? ==>
        && EngineFollows(promptCount + generated, limit, generated + 1)
        && FreshLogits(engine.model, working[..promptCount + generated]) == Some(r.logits)
      ensures r.Failed? ==> r.error == ENGINE_FAULT
      ensures !engine.inject ==>
        (r.Done? <==> FreshLogits(engine.model, working[..promptCount + generated]).Some?)
    {
      if generated == 0 {
        r := InferPrompt(promptCount, limit);
      } else {
        assert working[..promptCount + generated] == working[..promptCount + generated - 1] + [previous];
        r := engine.Decode(previous, LOGIT_WORDS, false);
      }
    }

    /** `working` is the prompt followed by what the first `n` iterations stored. */
    ghost predicate Produced(prompt: seq<nat>, env: Env, n: nat)
      reads working
    {
      |prompt| + n <= working.Length && working[..|prompt| + n] == prompt + Replies(env, n)
    }

    /** Before iteration `generated`: everything stored but the last reply is in the engine. */
    ghost predicate AtIteration(prompt: seq<nat>, limit: nat, env: Env, generated: nat, previous: nat)
      reads `cachedLen, engine, engine.kv, working
    {
      && generated <= limit && Produced(prompt, env, generated)
      && if generated == 0 then EngineAwaits(|prompt|)
         else
           && Open(env, generated - 1)
           && EngineFollows(|prompt| + generated - 1, limit, generated)
           && previous == MomentAt(env, generated - 1).token
    }

    /** Store the reply of an iteration. */
    method Store(ghost prompt: seq<nat>, env: Env, at: nat, generated: nat)
      requires at == |prompt| + generated < working.Length && Produced(prompt, env, generated)
      modifies working
      ensures Produced(prompt, env, generated + 1) && working[..at] == old(working[..at])
      ensures working[at] == Reply(MomentAt(env, generated))
    {
      working[at] := Reply(MomentAt(env, generated));
      assert working[..at + 1] == working[..at] + [Reply(MomentAt(env, generated))];
      RepliesStep(prompt, env, generated);
    }

    /** One iteration: poll, infer, sample, decode, show, store. */
    method NextToken(ghost prompt: seq<nat>, promptCount: nat, limit: nat, done: nat, previous: nat, env: Env)
        returns (stopped: Option<LoopEnd>, generated: nat, token: nat)
      requires Room(promptCount, limit) && done < limit && |prompt| == promptCount && GoodEnv(env)
      requires AtIteration(prompt, limit, env, done, previous)
      requires done > 0 ==> !MomentAt(env, done - 1).eos
      modifies engine, engine.kv, working
      ensures engine.Valid() && PrefixKept()
      ensures stopped.Some? ==> StopsOn(MomentAt(env, done), stopped.value)
      ensures stopped.None? ==>
        && generated == done + 1 && token == MomentAt(env, done).token
        && AtIteration(prompt, limit, env, generated, token)
      ensures !engine.inject ==> (stopped.None? <==> GoesThrough(engine.model, prompt, env, done))
    {
      hide FreshLogits, FreshRows, RowsBelow;
      var m := MomentAt(env, done);
      stopped, generated, token := None, done, m.token;
      if m.before.Some? {
        stopped := Some(EndOf(m.before.value));
        return;
      }
      StoredToken(prompt, env, done);
      var r := Infer(promptCount, limit, done, previous);
      if r.Failed? {
        stopped := Some(Broken(INFERENCE(r.error)));
        return;
      }
      if m.after.Some? {
        stopped := Some(EndOf(m.after.value));
        return;
      }
      Store(prompt, env, promptCount + done, done);
      generated := done + 1;
      if m.statusFails {
        stopped := Some(Broken(DEVICE));
      }
    }

    /** The generation loop up to the end-of-sequence token, a stop, or the limit. */
    method GenerateTokens(ghost prompt: seq<nat>, promptCount: nat, limit: nat, env: Env)
        returns (stopped: Option<LoopEnd>, generated: nat)
      requires Room(promptCount, limit) && EngineAwaits(promptCount) && GoodEnv(env)
      requires |prompt| == promptCount && prompt == working[..promptCount]
      modifies engine, engine.kv, working
      ensures engine.Valid() && PrefixKept()
      ensures stopped.Some? ==> StopEnd(stopped.value)
      ensures stopped.None? ==>
        && IsTurn(env, limit, generated) && Produced(prompt, env, generated)
        && EngineFollows(promptCount + generated - 1, limit, generated)
      ensures Smooth(engine.model, prompt, env) && !engine.inject ==> stopped.None?
    {
      generated, stopped := 0, None;
      var previous: nat := 0;
      while generated < limit && (generated == 0 || !MomentAt(env, generated - 1).eos)
        decreases limit - generated
        invariant AtIteration(prompt, limit, env, generated, previous)
        invariant stopped.None?
      {
        ghost var m := MomentAt(env, generated);
        assert Open(env, generated) && InTime(prompt, generated + 1);
        stopped, generated, previous := NextToken(prompt, promptCount, limit, generated, previous, env);
        if stopped.Some? {
          StopsExpected(m, stopped.value);
          return;
        }
      }
    }

    lemma StoredToken(prompt: seq<nat>, env: Env, n: nat)
      requires Produced(prompt, env, n)
      ensures n > 0 ==> working[|prompt| + n - 1] == Reply(MomentAt(env, n - 1))
    {
      if n > 0 {
        assert working[|prompt| + n - 1] == working[..|prompt| + n][|prompt| + n - 1];
      }
    }

    /** `commit_eos`. */
    method CommitEos(length: nat) returns (ok: bool)
      requires committed.Length == working.Length == CONTEXT_LIMIT && committed != working
      modifies committed
      ensures ok <==> 0 < length <= CONTEXT_LIMIT && working[length - 1] == IM_END
      ensures ok ==> committed[..length] == working[..length] && committed[length - 1] == working[length - 1]
      ensures !ok ==> unchanged(committed)
    {
      if length == 0 || length > CONTEXT_LIMIT || working[length - 1] != IM_END {
        return false;
      }
      ZeroFrom(committed, 0);
      CopyTokens(working[..length], committed);
      assert committed[length - 1] == committed[..length][length - 1];
      ok := true;
    }

    ghost predicate ConversationIs(prompt: seq<nat>, env: Env)
      reads `committedLen, committed
    {
      committedLen <= committed.Length && ClosedTurn(prompt, env, committed[..committedLen])
    }

    twostate predicate TurnSaved(prompt: seq<nat>, env: Env)
      reads `committedLen, `historyTurns, committed
    {
      ConversationIs(prompt, env) && historyTurns == old(historyTurns) + 1
    }

    twostate predicate TurnNotSaved()
      reads `committedLen, `historyTurns, committed
    {
      unchanged(committed) && committedLen == old(committedLen) && historyTurns == old(historyTurns)
    }

    /** Where a turn leaves conversation and engine. */
    twostate predicate TurnLeaves(saved: bool, prompt: seq<nat>, env: Env)
      reads this, committed, engine
    {
      if saved then TurnSaved(prompt, env) && EngineHoldsHistory()
      else TurnNotSaved() && EngineAtRest()
    }

    /** The engine holds all of a conversation just saved, except its last token. */
    ghost predicate EngineCaughtUp()
      reads `committedLen, engine, committed
    {
      && 1 < committedLen <= committed.Length
      && engine.Live() && engine.position == committedLen - 1
      && engine.history == committed[..committedLen - 1]
    }

    method CatchUp()
      requires HistoryOk() && engine.Valid() && PrefixKept() && EngineCaughtUp()
      modifies `cachedLen
      ensures Coherent() && EngineHoldsHistory()
    {
      cachedLen := committedLen - 1;
    }

    /** `working` starts with a closed text: it becomes the conversation. */
    method SaveTurn(ghost text: seq<nat>, length: nat)
      requires HistoryOk() && tokenizer.prefix < length == |text| <= CONTEXT_LIMIT
      requires !BadToken(text) && text[length - 1] == IM_END && working[..length] == text
      modifies this`committedLen, this`historyTurns, committed
      ensures HistoryOk() && committedLen == length && historyTurns == old(historyTurns) + 1
      ensures committed[..length] == text
    {
      assert working[length - 1] == text[length - 1];
      var ok := CommitEos(length);
      if !ok {
        assert false;  // the source reports HISTORY_STATE here
      }
      committedLen := length;
      historyTurns := historyTurns + 1;
    }

    /** The loop ran to its end: the text closed, or the limit came first. */
    method FinishTurn(ghost prompt: seq<nat>, promptCount: nat, generated: nat, eos: bool, limit: nat, env: Env)
        returns (end: LoopEnd)
      requires HistoryOk() && Room(promptCount, limit) && |prompt| == promptCount && GoodEnv(env) && !BadToken(prompt)
      requires IsTurn(env, limit, generated) && Produced(prompt, env, generated)
      requires EngineFollows(promptCount + generated - 1, limit, generated) && eos == MomentAt(env, generated - 1).eos
      modifies this`committedLen, this`historyTurns, committed
      ensures HistoryOk()
      ensures end == if env.incomplete then Broken(TOKEN_OUTPUT)
                     else if eos then Saved else Exhausted
      ensures end.Saved? ==> TurnSaved(prompt, env) && EngineCaughtUp()
      ensures JudgedRight(end, prompt, limit, env)
      ensures !end.Saved? ==> TurnNotSaved()
    {
      hide FreshLogits, FreshRows, RowsBelow;
      if env.incomplete {
        return Broken(TOKEN_OUTPUT);
      }
      if !eos {
        if !InTime(prompt, limit + 1) {
          OpenTooLong(prompt, env, limit);
        }
        return Exhausted;
      }
      assert EndsWith(env, generated) && InTime(prompt, generated);
      var length := promptCount + generated;
      ClosedText(prompt, env, generated);
      SaveTurn(prompt + Replies(env, generated), length);
      assert working[..length][..length - 1] == working[..length - 1];
      assert committed[..length][..length - 1] == committed[..length - 1];
      end := Saved;
    }

    /** The whole loop: generate, and save the turn when it ended by itself. */
    method GenerationLoop(ghost prompt: seq<nat>, promptCount: nat, limit: nat, env: Env) returns (end: LoopEnd)
      requires HistoryOk() && Room(promptCount, limit) && EngineAwaits(promptCount) && GoodEnv(env)
      requires |prompt| == promptCount && prompt == working[..promptCount]
      modifies this`committedLen, this`historyTurns, engine, engine.kv, committed, working
      ensures HistoryOk() && engine.Valid() && PrefixKept()
      ensures end.Broken? ==> Expected(end.error)
      ensures end.Saved? ==> TurnSaved(prompt, env) && EngineCaughtUp()
      ensures !end.Saved? ==> TurnNotSaved()
      ensures
        Smooth(engine.model, prompt, env) && !env.incomplete && !engine.inject ==> end.Saved? || end.Exhausted?
      ensures JudgedRight(end, prompt, limit, env)
    {
      var stopped, generated := GenerateTokens(prompt, promptCount, limit, env);
      if stopped.Some? {
        return stopped.value;
      }
      end := FinishTurn(prompt, promptCount, generated, MomentAt(env, generated - 1).eos, limit, env);
    }

    method ResetEngine()
      requires HistoryOk() && engine.Valid() && PrefixKept()
      modifies this`cachedLen, engine
      ensures Coherent() && EngineAtRest()
    {
      var _ := engine.ResetToPrefix();
      cachedLen := 0;
    }

    method ResetEngineFresh()
      requires HistoryOk() && engine.Valid()
      modifies this`cachedLen, engine
      ensures Coherent() && EngineAtRest() && engine.retained == []
    {
      engine.Reset();
      cachedLen := 0;
    }

    /** Where evaluation will start, or nothing when engine and session disagree. */
    method AppendStart(promptCount: nat) returns (start: Option<nat>)
      requires PromptReady(promptCount)
      ensures start == Some(engine.position)
    {
      if cachedLen != 0 {
        assert working[..cachedLen] == working[..committedLen][..cachedLen];
        assert committed[..cachedLen] == committed[..committedLen][..cachedLen];
        if && cachedLen + 1 == committedLen && cachedLen < promptCount
           && engine.position == cachedLen && working[..cachedLen] == committed[..cachedLen] {
          return Some(cachedLen);
        }
      } else if engine.position == tokenizer.prefix && tokenizer.prefix < promptCount {
        return Some(tokenizer.prefix);
      } else if engine.position == 0 {
        return Some(0);
      }
      start := None;
    }

    /** Announce the turn, run the loop, then bring engine and session back in step. */
    method GenerateAndSettle(promptCount: nat, limit: nat, env: Env) returns (end: LoopEnd)
      requires HistoryOk() && Room(promptCount, limit) && EngineAwaits(promptCount) && GoodEnv(env)
      modifies this`committedLen, this`cachedLen, this`historyTurns, engine, engine.kv, committed, working
      ensures Coherent()
      ensures end.Broken? ==> Expected(end.error)
      ensures TurnLeaves(end.Saved?, old(working[..promptCount]), env)
      ensures
        && old(Smooth(engine.model, working[..promptCount], env))
        && !env.startFails && !env.incomplete && !engine.inject ==>
        end.Saved? || end.Exhausted?
      ensures JudgedRight(end, old(working[..promptCount]), limit, env)
    {
      if env.startFails {
        ResetEngine();
        return Broken(DEVICE);
      }
      end := GenerationLoop(working[..promptCount], promptCount, limit, env);
      if end.Saved? {
        if engine.position != committedLen - 1 {
          assert false;  // the source resets and reports HISTORY_STATE here
        }
        CatchUp();
      } else {
        ResetEngine();
      }
    }

    /**
     `generate`.  The internal-inconsistency exits are never taken, the engine never
     refuses, and afterwards the engine holds the saved conversation or is at rest.  An
     untroubled turn finishes, and is saved (with an end of text) unless the limit comes first.
     */
    method Generate(promptCount: nat, env: Env) returns (turn: Turn, ghost saved: bool)
      requires PromptReady(promptCount) && GoodEnv(env)
      modifies this`committedLen, this`cachedLen, this`historyTurns, engine, engine.kv, committed, working
      ensures Coherent()
      ensures turn != ContextRejected && (turn.Aborted? ==> Expected(turn.error))
      ensures TurnLeaves(saved, old(working[..promptCount]), env)
      ensures turn.Finished? ==> turn.saved == saved
      ensures
        && old(Smooth(engine.model, working[..promptCount], env))
        && !env.startFails && !env.incomplete && !env.outputFails && !engine.inject ==>
        turn.Finished? && (saved <==> EndsInTime(old(working[..promptCount]), env))
    {
      hide FreshLogits, FreshRows, RowsBelow, ClosedTurn, Smooth, EndsInTime;
      var start := AppendStart(promptCount);
      if start.None? {
        assert false;  // the source resets and reports HISTORY_STATE here
      }
      var limit := if GENERATION_RESERVE <= CONTEXT_LIMIT - promptCount then GENERATION_RESERVE
                   else CONTEXT_LIMIT - promptCount;
      var end := GenerateAndSettle(promptCount, limit, env);
      ZeroFrom(working, 0);
      saved := end.Saved?;
      turn := if end.Broken? then Aborted(end.error)
              else if env.outputFails then Aborted(DEVICE) else Finished(end.Saved?);
    }

    // ---- one accepted line ----

    /**
     `reset_conversation_for_fresh_prompt`: forget the conversation, keep the fixed prefix when the
     engine still has it.
     */
    method ResetConversation(freshTokens: nat)
      requires Coherent() && freshTokens <= CONTEXT_LIMIT
      modifies this, engine, committed, working
      ensures Coherent() && EngineAtRest() && committedLen == 0 && historyTurns == 0
      ensures working[..freshTokens] == old(working[..freshTokens])
      ensures engine.position <= freshTokens
    {
      hide FreshLogits, FreshRows, RowsBelow;
      var kept := engine.ResetToPrefix();
      cachedLen := 0;
      ZeroFrom(committed, 0);
      committedLen, historyTurns := 0, 0;
      ZeroFrom(working, freshTokens);
      if kept > freshTokens || engine.position != kept {
        engine.Reset();
      }
    }

    lemma ReadyToUse(count: nat)
      requires Coherent() && tokenizer.prefix < count <= PROMPT_LIMIT && !BadToken(working[..count])
      requires committedLen > 0 ==> committedLen < count && working[..committedLen] == committed[..committedLen]
      ensures PromptReady(count)
    {
      if cachedLen != 0 {
        assert working[..committedLen][..cachedLen] == working[..cachedLen];
        assert committed[..committedLen][..cachedLen] == committed[..cachedLen];
      }
    }

    /**
     Everything of `accepted_turn` before generation.  A line that tokenizes always gets a
     prompt: the next turn of the history, or after at most one reset the line alone.
     */
    method ResolvePrompt(line: Line, env: Env) returns (count: Option<nat>, refusal: Turn)
      requires Coherent()
      modifies this, engine, committed, working
      ensures Coherent()
      ensures count.Some? ==> PromptReady(count.value)
      ensures count.Some? ==>
        var history := old(committed[..committedLen]);
        && RightPrompt(history, line, working[..count.value])
        && if history != [] && TooLong(history, line) then committedLen == 0 && EngineAtRest() else TurnNotSaved()
      ensures count.None? ==>
        || (refusal == Aborted(TOKENIZE) && TurnNotSaved() && Unusable(old(committed[..committedLen]), line))
        || (refusal == Aborted(DEVICE) && env.resetFails && TurnNotSaved())
    {
      hide FreshLogits, FreshRows, RowsBelow;
      ghost var history := committed[..committedLen];
      ZeroFrom(working, 0);
      var hadHistory := committedLen != 0;
      var first, next := Render(hadHistory, line);
      if first == Untokenizable {
        return None, Aborted(TOKENIZE);
      }
      if hadHistory {
        FitsOrNot(history, line, next);
      }
      var prospective := if first.Prompt? then first.promptTokens else first.prospective;
      var decision := DecideHistory(hadHistory, prospective, if hadHistory then None else Some(prospective));
      refusal := ContextRejected;
      if decision.Use? {
        count := Some(decision.promptTokens);
        ReadyToUse(decision.promptTokens);
        return;
      }
      assert decision.RetryFresh?;
      count, refusal := RetryAlone(line, prospective, env);
    }

    method RetryAlone(line: Line, prospective: nat, env: Env) returns (count: Option<nat>, refusal: Turn)
      requires Coherent() && committedLen > 0 && prospective > PROMPT_LIMIT && tokenizer.tokenize(line).Some?
      modifies this, engine, committed, working
      ensures Coherent()
      ensures count.Some? ==>
        && PromptReady(count.value) && FreshPrompt(line, working[..count.value])
        && committedLen == 0 && EngineAtRest()
      ensures count.None? ==> refusal == Aborted(DEVICE) && env.resetFails && TurnNotSaved()
    {
      ZeroFrom(working, 0);
      count, refusal := None, Aborted(TOKENIZE);
      var alone, _ := Render(false, line);
      if !alone.Prompt? {
        return;
      }
      var decision := DecideHistory(true, prospective, Some(alone.promptTokens));
      assert decision == ResetHistory(alone.promptTokens);
      if env.resetFails {
        refusal := Aborted(DEVICE);
        return;
      }
      ResetConversation(decision.promptTokens);
      count := Some(decision.promptTokens);
    }

    /** The conversation, with the token that ends its last turn. */
    ghost function Conversation(): seq<nat>
      requires committedLen <= committed.Length
      reads `committedLen, committed
    {
      committed[..committedLen]
    }

    /** What is left of the conversation once a prompt has been found for the line. */
    ghost function Continued(history: seq<nat>, line: Line): seq<nat> {
      if TooLong(history, line) then [] else history
    }

    /** Nothing around the engine goes wrong, and everything it is asked can be evaluated. */
    ghost predicate Undisturbed(history: seq<nat>, line: Line, env: Env, prompt: seq<nat>) {
      && !env.acceptFails && !env.resetFails && !env.promptFails && !engine.inject
      && !Unusable(history, line)
      && !env.startFails && !env.incomplete && !env.outputFails
      && Smooth(engine.model, prompt, env)
    }

    /**
     One line turns the conversation `history` into `next`.  `prompt` is empty when the turn ends before one is found,
     and `saved` says whether the text was committed, which a failure after that does not undo.
     */
    ghost predicate TurnStep(history: seq<nat>, line: Line, env: Env, turn: Turn, prompt: seq<nat>, saved: bool,
                             next: seq<nat>)
    {
      && turn != ContextRejected && (turn.Aborted? ==> Expected(turn.error))
      && |prompt| <= PROMPT_LIMIT
      && (prompt != [] ==> RightPrompt(history, line, prompt))
      && (turn.Finished? ==> prompt != [] && turn.saved == saved)
      && (if saved then prompt != [] && ClosedTurn(prompt, env, next)
          else next == if prompt == [] then history else Continued(history, line))
      && (Undisturbed(history, line, env, prompt) ==>
            turn.Finished? && (saved <==> EndsInTime(prompt, env)))
    }

    /**
     How an undisturbed turn ends: with a first end of text at token `n`, in time, exactly those tokens are saved
     behind the prompt; and when nothing is saved, none of as many tokens as there is room for ended the text.
     */
    lemma UndisturbedTurn(history: seq<nat>, line: Line, env: Env, turn: Turn, prompt: seq<nat>, saved: bool,
                          next: seq<nat>, n: nat)
      requires TurnStep(history, line, env, turn, prompt, saved, next) && Undisturbed(history, line, env, prompt)
      requires n <= 1_024 && |prompt| + n <= 32_768
      ensures turn == Finished(saved)
      ensures EndsWith(env, n) ==> saved && next == prompt + Replies(env, n)
      ensures !saved ==> Open(env, n)
    {
      hide Undisturbed, RightPrompt;
      if saved {
        if EndsWith(env, n) {
          var m := |next| - |prompt|;
          EndAfterOpen(env, n, m - 1);
          EndAfterOpen(env, m, n - 1);
        }
      } else {
        EndOrOpen(env, n);
        assert forall m: nat | m <= n :: InTime(prompt, m);
      }
    }

    /**
     `accepted_turn`: session coherence over one line.  Nothing is ever rejected for its
     length, the internal-inconsistency exits are unreachable, and what is saved is the right
     prompt followed by exactly what was generated.
     */
    method AcceptedTurn(line: Line, env: Env) returns (turn: Turn, ghost prompt: seq<nat>, ghost saved: bool)
      requires Coherent() && GoodEnv(env)
      modifies this, engine, engine.kv, committed, working
      ensures Coherent()
      ensures TurnStep(old(Conversation()), line, env, turn, prompt, saved, Conversation())
      ensures turn.Finished? || saved ==> if saved then EngineHoldsHistory() else EngineAtRest()
    {
      hide FreshLogits, FreshRows, RowsBelow, TooLong, FollowUpPrompt, Smooth, EndsInTime, ClosedTurn, InTime;
      prompt, saved := [], false;
      if env.acceptFails {
        return Aborted(DEVICE), prompt, saved;
      }
      var count, refusal := ResolvePrompt(line, env);
      if count.None? {
        return refusal, prompt, saved;
      }
      prompt := working[..count.value];
      if env.promptFails {
        return Aborted(DEVICE), prompt, saved;
      }
      turn, saved := Generate(count.value, env);
    }

    /** The `/new` command. */
    method NewSession()
      requires Coherent()
      modifies this, engine, committed, working
      ensures Coherent() && EngineAtRest()
      ensures committedLen == 0 && historyTurns == 0 && engine.position == 0
    {
      ResetEngineFresh();
      ZeroFrom(committed, 0);
      ZeroFrom(working, 0);
      committedLen, historyTurns := 0, 0;
    }
  }

  // ---- whole sessions ----

  datatype Input<!Line> = NewCommand | EnterLine(line: Line, env: Env)

  /** What one input made of the conversation; `/new` has no turn and empties it. */
  ghost predicate InputStep<Line(!new)>(c: Controller<Line>, input: Input<Line>, turn: Option<Turn>, prompt: seq<nat>,
                                        saved: bool, history: seq<nat>, next: seq<nat>)
  {
    match input
    case NewCommand => turn.None? && next == []
    case EnterLine(line, env) => turn.Some? && c.TurnStep(history, line, env, turn.value, prompt, saved, next)
  }

  /**
   Every run of turns and `/new` commands keeps the session coherent and hits no inconsistency, and the conversation
   changes from input to input as the turns say.
   */
  method AnySession<Line(!new)>(c: Controller<Line>, inputs: seq<Input<Line>>)
      returns (turns: seq<Option<Turn>>, ghost prompts: seq<seq<nat>>, ghost saves: seq<bool>,
               ghost conversations: seq<seq<nat>>)
    requires c.Coherent()
    requires forall i | 0 <= i < |inputs| && inputs[i].EnterLine? :: GoodEnv(inputs[i].env)
    modifies c, c.engine, c.engine.kv, c.committed, c.working
    ensures c.Coherent()
    ensures |turns| == |prompts| == |saves| == |inputs| == |conversations| - 1
    ensures conversations[0] == old(c.Conversation()) && conversations[|inputs|] == c.Conversation()
    ensures forall i | 0 <= i < |inputs| ::
      InputStep(c, inputs[i], turns[i], prompts[i], saves[i], conversations[i], conversations[i + 1])
  {
    hide FreshRows, RowsBelow;
    hide Controller.TurnStep;
    turns, prompts, saves, conversations := [], [], [], [c.Conversation()];
    for i := 0 to |inputs|
      invariant c.Coherent()
      invariant |turns| == |prompts| == |saves| == i == |conversations| - 1
      invariant conversations[0] == old(c.Conversation()) && conversations[i] == c.Conversation()
      invariant forall k | 0 <= k < i ::
        InputStep(c, inputs[k], turns[k], prompts[k], saves[k], conversations[k], conversations[k + 1])
    {
      ghost var prompt, saved := [], false;
      match inputs[i] {
        case NewCommand =>
          c.NewSession();
          turns := turns + [None];
        case EnterLine(line, env) =>
          var turn;
          turn, prompt, saved := c.AcceptedTurn(line, env);
          turns := turns + [Some(turn)];
      }
      prompts, saves, conversations := prompts + [prompt], saves + [saved], conversations + [c.Conversation()];
    }
  }
}
