/**
 The sample that generation draws: the logits are checked, each distinct token of the context is penalised once, and the
 sampler picks from the result by the next random number.
 */
module PenalizedSampling {
  import opened Binary32
  import Counting
  import opened Repetition
  import opened Sampler
  import opened Selection
  import opened Wrappers

  // ---- the random numbers ----

  function Fold12(value: bv64): bv64 {
    value ^ (value >> 12)
  }

  function Fold25(value: bv64): bv64 {
    value ^ (value << 25)
  }

  function Fold27(value: bv64): bv64 {
    value ^ (value >> 27)
  }

  /** The xorshift step. */
  function Stepped(value: bv64): bv64 {
    Fold27(Fold25(Fold12(value)))
  }

  function Upper24(product: bv64): bv64 {
    product >> 40
  }

  /** What is drawn from a state: the upper 24 bits of a wrapping product. */
  function Drawn(value: bv64): (random: bv64)
    ensures random < 0x100_0000
  {
    Upper24(value * 0x2545_f491_4f6c_dd1d)
  }

  lemma Nonzero12(value: bv64)
    ensures value != 0 ==> Fold12(value) != 0
  {
  }

  lemma Nonzero25(value: bv64)
    ensures value != 0 ==> Fold25(value) != 0
  {
  }

  lemma Nonzero27(value: bv64)
    ensures value != 0 ==> Fold27(value) != 0
  {
    if Fold27(value) == 0 {
      assert value == value >> 27;
      assert value < 0x20_0000_0000;
      assert value >> 27 < 0x400;
    }
  }

  /** The generator does not get stuck at 0. */
  lemma SteppedNonzero(value: bv64)
    requires value != 0
    ensures Stepped(value) != 0
  {
    hide Fold12, Fold25, Fold27;
    Nonzero12(value);
    Nonzero25(Fold12(value));
    Nonzero27(Fold25(Fold12(value)));
  }

  function Later(state: bv64, draws: nat): bv64
    decreases draws
  {
    if draws == 0 then state else Later(Stepped(state), draws - 1)
  }

  /** The state after eight draws from a seed (`crates/promptboot-core/src/tests.rs:430-439`). */
  lemma EightDraws()
    ensures Later(0x0123_4567_89ab_cdef, 8) == 0x37fe_8664_ce10_9d2f
  {
  }

  lemma ShiftDivides(product: bv64)
    ensures (product >> 40) * 0x100_0000_0000 <= product
    ensures product - (product >> 40) * 0x100_0000_0000 < 0x100_0000_0000
  {
  }

  lemma UpperBelow(product: bv64)
    ensures Upper24(product) * 0x100_0000_0000 <= product
  {
    ShiftDivides(product);
  }

  lemma UpperAbove(product: bv64)
    ensures product - Upper24(product) * 0x100_0000_0000 < 0x100_0000_0000
  {
    ShiftDivides(product);
  }

  /** The draw is the quotient of the wrapped product by 2 to the 40. */
  lemma DrawnDivides(value: bv64, product: bv64)
    requires product == value * 0x2545_f491_4f6c_dd1d
    ensures Drawn(value) * 0x100_0000_0000 <= product
    ensures product - Drawn(value) * 0x100_0000_0000 < 0x100_0000_0000
  {
    hide Upper24;
    UpperBelow(value * 0x2545_f491_4f6c_dd1d);
    UpperAbove(value * 0x2545_f491_4f6c_dd1d);
  }

  class SamplingState {
    var state: bv64
    var draws: nat

    predicate Valid()
      reads this
    {
      state != 0 && draws < 0x1_0000_0000_0000_0000
    }

    constructor (seed: bv64)
      ensures Valid() && draws == 0 && (seed != 0 ==> state == seed)
      ensures seed == 0 ==> state == 0x9e37_79b9_7f4a_7c15
    {
      state := if seed == 0 then 0x9e37_79b9_7f4a_7c15 else seed;
      draws := 0;
    }

    /** `next_24` */
    method Next24() returns (random: bv64)
      requires Valid()
      modifies this
      ensures Valid() && state == Stepped(old(state)) && draws == (old(draws) + 1) % 0x1_0000_0000_0000_0000
      ensures random == Drawn(state)
    {
      hide Fold12, Fold25, Fold27, Drawn;
      SteppedNonzero(state);
      state := Fold12(state);
      state := Fold25(state);
      state := Fold27(state);
      draws := (draws + 1) % 0x1_0000_0000_0000_0000;
      random := Drawn(state);
    }
  }

  // ---- what the penalty does to finite logits ----

  /**
   What the penalty, which is greater than one, does to a finite number: a quotient is finite, and the product of a
   negative number is finite or overflows to minus infinity.
   */
  ghost predicate Lawful(scaling: Scaling) {
    && (forall bits: nat | FiniteWord(bits) :: FiniteWord(scaling.over(bits)))
    && (forall bits: nat | FiniteWord(bits) && bits > SIGN ::
          FiniteWord(scaling.times(bits)) || scaling.times(bits) == NEGATIVE_INFINITY)
  }

  /** A penalty above one moves up no quotient of a number that is not negative, and no product of a negative one. */
  ghost predicate Shrinking(scaling: Scaling) {
    && (forall bits: nat | FiniteWord(bits) && Real(bits) >= 0 :: 0 <= Real(scaling.over(bits)) <= Real(bits))
    && (forall bits: nat | FiniteWord(bits) && Real(bits) < 0 ::
          FiniteWord(scaling.times(bits)) ==> Real(scaling.times(bits)) <= Real(bits))
  }

  /** Logits that the sampler can order: none is infinite, except downwards. */
  predicate Sortable(logits: seq<nat>) {
    forall i | 0 <= i < |logits| :: FiniteWord(logits[i]) || logits[i] == NEGATIVE_INFINITY
  }

  /** The logits after the penalty, from an empty bitmap. */
  function Penalized(scaling: Scaling, logits: seq<nat>, tokens: seq<nat>): (scores: seq<nat>)
    ensures |scores| == |logits|
  {
    seq<nat>(|logits|, t requires 0 <= t < |logits| => if t in tokens then Adjusted(scaling, logits[t]) else logits[t])
  }

  lemma PenalizedSortable(scaling: Scaling, logits: seq<nat>, tokens: seq<nat>)
    requires Lawful(scaling) && AllWords(logits) && AllFinite(logits)
    ensures Sortable(Penalized(scaling, logits, tokens))
  {
    forall t: nat | t < |logits| ensures
      var score := Penalized(scaling, logits, tokens)[t];
      FiniteWord(score) || score == NEGATIVE_INFINITY
    {
      assert FiniteWord(logits[t]);
    }
  }

  /** The penalty never makes a token more likely: no score is greater than before, and none changes its sign. */
  lemma NeverRaised(scaling: Scaling, logits: seq<nat>, tokens: seq<nat>, t: nat)
    requires Lawful(scaling) && Shrinking(scaling) && AllWords(logits) && AllFinite(logits) && t < |logits|
    ensures !Greater(Penalized(scaling, logits, tokens)[t], logits[t])
    ensures Real(logits[t]) >= 0 ==> Real(Penalized(scaling, logits, tokens)[t]) >= 0
  {
    hide Real, Greater, Finite;
    var score := logits[t];
    var next := Penalized(scaling, logits, tokens)[t];
    SignOfReal(score);
    if next == NEGATIVE_INFINITY {
      FiniteIsGreater(score);
    } else {
      GreaterIsReal(next, score);
    }
  }

  /** An overflowed candidate comes after everything finite. */
  lemma FiniteComesFirst(logits: seq<nat>, top: seq<Entry>, i: nat, t: nat)
    requires IsTop(logits, |logits|, SAMPLER_TOP, top) && i < |top| && top[i].bits == NEGATIVE_INFINITY
    requires t < |logits| && FiniteWord(logits[t])
    ensures exists j :: 0 <= j < i && top[j].token == t
  {
    FiniteIsGreater(logits[t]);
    var e := Entry(t, logits[t]);
    assert Before(e, top[i]) && !Before(top[i], e);
    var j :| 0 <= j < |top| && top[j] == e;
    assert j < i;
  }

  /**
   With at least twenty tokens outside the context, an overflow never gets among the candidates: the sampler weighs
   finite numbers only.
   */
  lemma CandidatesFinite(scaling: Scaling, logits: seq<nat>, tokens: seq<nat>, top: seq<Entry>)
    requires Lawful(scaling) && AllWords(logits) && AllFinite(logits)
    requires IsTop(Penalized(scaling, logits, tokens), |logits|, SAMPLER_TOP, top)
    requires |tokens| + SAMPLER_TOP <= |logits|
    ensures forall i | 0 <= i < |top| :: FiniteWord(top[i].bits)
  {
    var scores := Penalized(scaling, logits, tokens);
    PenalizedSortable(scaling, logits, tokens);
    forall i: nat | i < |top| ensures FiniteWord(top[i].bits) {
      assert IsEntry(scores, |scores|, top[i]);
      if top[i].bits == NEGATIVE_INFINITY {
        var before := seq<nat>(i, j requires 0 <= j < i => top[j].token);
        var outside := Counting.Below(|logits|) - Counting.Elements(tokens);
        Counting.WithoutCount(|logits|, tokens);
        forall t | t in outside ensures t in Counting.Elements(before) {
          assert t !in tokens by { assert t in tokens ==> t in Counting.Elements(tokens); }
          assert FiniteWord(logits[t]);
          FiniteComesFirst(scores, top, i, t);
          var j :| 0 <= j < i && top[j].token == t;
          assert before[j] == t;
        }
        Counting.SubsetCount(outside, Counting.Elements(before));
        Counting.ElementsCount(before);
        assert false;
      }
    }
  }

  // ---- one sample ----

  const BITMAP_BYTES := (LOGIT_WORDS + 7) / 8

  datatype SampleError =
    | Invalid(error: SelectError)
    | Capacity(bytes: nat)
    | TokenOutside(token: nat)

  predicate FirstOutside(tokens: seq<nat>, limit: nat, at: nat) {
    at < |tokens| && tokens[at] >= limit && forall i | 0 <= i < at :: tokens[i] < limit
  }

  /** The checks in their order: length and finiteness, room in the bitmap, tokens in range. */
  ghost predicate SampleRefused(logits: seq<nat>, tokens: seq<nat>, bytes: nat, error: SampleError) {
    match error
    case Invalid(e) => RefusedFor(logits, e)
    case Capacity(b) => ValidLogits(logits) && b == bytes < BITMAP_BYTES
    case TokenOutside(token) =>
      && ValidLogits(logits) && bytes >= BITMAP_BYTES
      && exists at: nat :: FirstOutside(tokens, |logits|, at) && tokens[at] == token
  }

  predicate Unmarked(seen: seq<nat>) {
    forall t: nat | t < 8 * |seen| :: !Marked(seen, t)
  }

  method FindOutside(tokens: seq<nat>, limit: nat) returns (outside: Option<nat>)
    ensures match outside
            case None => forall i | 0 <= i < |tokens| :: tokens[i] < limit
            case Some(token) => exists at: nat :: FirstOutside(tokens, limit, at) && tokens[at] == token
  {
    for at := 0 to |tokens|
      invariant forall i | 0 <= i < at :: tokens[i] < limit
    {
      if tokens[at] >= limit {
        assert FirstOutside(tokens, limit, at);
        return Some(tokens[at]);
      }
    }
    outside := None;
  }

  /**
   `sample_token_with_repetition`, with the bitmap empty before: a refusal changes nothing, a success is the sample of
   the penalised logits by the next random number, and the bitmap is empty again either way.
   */
  method SampleWithRepetition(w: Weighing, scaling: Scaling, logits: array<nat>, tokens: seq<nat>, seen: array<nat>,
                              sampling: SamplingState)
      returns (r: Result<nat, SampleError>, ghost top: seq<Entry>, ghost kept: nat, ghost at: nat)
    requires logits != seen && sampling.Valid() && Unmarked(seen[..])
    modifies logits, seen, sampling
    ensures sampling.Valid() && Unmarked(seen[..])
    ensures r.Err? ==>
      && SampleRefused(old(logits[..]), tokens, seen.Length, r.error)
      && logits[..] == old(logits[..]) && seen[..] == old(seen[..])
      && sampling.state == old(sampling.state) && sampling.draws == old(sampling.draws)
    ensures r.Ok? ==>
      && old(ValidLogits(logits[..])) && seen.Length >= BITMAP_BYTES
      && (forall i | 0 <= i < |tokens| :: tokens[i] < logits.Length)
      && logits[..] == Penalized(scaling, old(logits[..]), tokens)
      && sampling.state == Stepped(old(sampling.state))
      && sampling.draws == (old(sampling.draws) + 1) % 0x1_0000_0000_0000_0000
      && IsSample(w, logits[..], Drawn(sampling.state), top, kept, at, r.value) && r.value < logits.Length
    ensures r.Ok? && Lawful(scaling) && old(AllWords(logits[..])) && |tokens| + SAMPLER_TOP <= LOGIT_WORDS ==>
      forall i | 0 <= i < |top| :: FiniteWord(top[i].bits)
  {
    hide Stepped, Drawn, IsTop, IsKept, IsChosen, Marked, FiniteWord, Lawful, AllFinite;
    top, kept, at := [], 0, 0;
    ghost var before := logits[..];
    var error := ValidateLogits(logits[..]);
    if error.Some? {
      r := Err(Invalid(error.value));
      return;
    }
    if seen.Length < (logits.Length + 7) / 8 {
      r := Err(Capacity(seen.Length));
      return;
    }
    var outside := FindOutside(tokens, logits.Length);
    if outside.Some? {
      r := Err(TokenOutside(outside.value));
      return;
    }
    PenalizeOnce(scaling, logits, tokens, seen);
    assert logits[..] == Penalized(scaling, before, tokens);
    var random := sampling.Next24();
    var token;
    token, top, kept, at := SampleTopKTopP(w, logits[..], random);
    if Lawful(scaling) && AllWords(before) && |tokens| + SAMPLER_TOP <= LOGIT_WORDS {
      CandidatesFinite(scaling, before, tokens, top);
    }
    r := Ok(token);
  }
}
