/**
 The repetition penalty.  Each distinct token of the context is adjusted exactly once, however often it occurs, and the
 bitmap that remembers which have been done is given back as it was found.
 */
module Repetition {
  import opened Binary32
  import opened Bits

  /** Product and quotient of a score with the fixed penalty. */
  datatype Scaling = Scaling(times: nat -> nat, over: nat -> nat)

  /** A negative score (not minus zero) is multiplied, any other is divided. */
  function Adjusted(scaling: Scaling, score: nat): nat {
    if score >= SIGN && score != SIGN then scaling.times(score) else scaling.over(score)
  }

  // ---- bits ----

  /** `x | 1 << b` */
  function SetBit(x: nat, b: nat): nat {
    if b == 0 then x / 2 * 2 + 1 else SetBit(x / 2, b - 1) * 2 + x % 2
  }

  /** `x & !(1 << b)` */
  function ClearBit(x: nat, b: nat): nat {
    if b == 0 then x / 2 * 2 else ClearBit(x / 2, b - 1) * 2 + x % 2
  }

  lemma {:induction false} SetBitOnly(x: nat, b: nat, c: nat)
    ensures HasBit(SetBit(x, b), c) <==> b == c || HasBit(x, c)
  {
    if b > 0 && c > 0 {
      SetBitOnly(x / 2, b - 1, c - 1);
    }
  }

  lemma {:induction false} ClearBitOnly(x: nat, b: nat, c: nat)
    ensures HasBit(ClearBit(x, b), c) <==> b != c && HasBit(x, c)
  {
    if b > 0 && c > 0 {
      ClearBitOnly(x / 2, b - 1, c - 1);
    }
  }

  // ---- the bitmap ----

  predicate Marked(seen: seq<nat>, token: nat)
    requires token < 8 * |seen|
  {
    HasBit(seen[token / 8], token % 8)
  }

  lemma MarkOnly(seen: seq<nat>, token: nat, other: nat)
    requires token < 8 * |seen| && other < 8 * |seen|
    ensures var seen' := seen[token / 8 := SetBit(seen[token / 8], token % 8)];
      Marked(seen', other) <==> other == token || Marked(seen, other)
  {
    SetBitOnly(seen[token / 8], token % 8, other % 8);
  }

  lemma UnmarkOnly(seen: seq<nat>, token: nat, other: nat)
    requires token < 8 * |seen| && other < 8 * |seen|
    ensures var seen' := seen[token / 8 := ClearBit(seen[token / 8], token % 8)];
      Marked(seen', other) <==> other != token && Marked(seen, other)
  {
    ClearBitOnly(seen[token / 8], token % 8, other % 8);
  }

  ghost predicate InRange(tokens: seq<nat>, logits: array<nat>, seen: array<nat>) {
    && logits != seen && logits.Length <= 8 * seen.Length
    && forall i | 0 <= i < |tokens| :: tokens[i] < logits.Length
  }

  /** Exactly the first `n` tokens are marked besides what was marked before. */
  ghost predicate MarkedAfter(before: seq<nat>, now: seq<nat>, tokens: seq<nat>, n: nat)
    requires n <= |tokens|
  {
    && |now| == |before|
    && forall t: nat | t < 8 * |before| :: Marked(now, t) <==> Marked(before, t) || t in tokens[..n]
  }

  /** What becomes of a score after the first `n` tokens: adjusted once, if its token is new among them. */
  function Score(scaling: Scaling, before: seq<nat>, marked: seq<nat>, tokens: seq<nat>, n: nat, t: nat): nat
    requires n <= |tokens| && t < |before| <= 8 * |marked|
  {
    if t in tokens[..n] && !Marked(marked, t) then Adjusted(scaling, before[t]) else before[t]
  }

  ghost predicate AdjustedAfter(scaling: Scaling, before: seq<nat>, now: seq<nat>, marked: seq<nat>, tokens: seq<nat>, n: nat)
    requires n <= |tokens| && |before| <= 8 * |marked|
  {
    && |now| == |before|
    && forall t: nat | t < |before| :: now[t] == Score(scaling, before, marked, tokens, n, t)
  }

  /** Mark one token; was it new? */
  method MarkToken(seen: array<nat>, token: nat) returns (isNew: bool)
    requires token < 8 * seen.Length
    modifies seen
    ensures isNew <==> !old(Marked(seen[..], token))
    ensures forall t: nat | t < 8 * seen.Length :: Marked(seen[..], t) <==> t == token || old(Marked(seen[..], t))
  {
    ghost var now := seen[..];
    assert now[token / 8] == seen[token / 8];
    isNew := !HasBit(seen[token / 8], token % 8);
    if isNew {
      seen[token / 8] := SetBit(seen[token / 8], token % 8);
      assert seen[..] == now[token / 8 := SetBit(now[token / 8], token % 8)];
      forall t: nat | t < 8 * |now| ensures Marked(seen[..], t) <==> t == token || Marked(now, t) {
        MarkOnly(now, token, t);
      }
    }
  }

  /** One more token: only its score may change, and only when it is new. */
  lemma AdjustStep(scaling: Scaling, before: seq<nat>, now: seq<nat>, marked: seq<nat>, seen: seq<nat>,
                   tokens: seq<nat>, at: nat)
    requires at < |tokens| && tokens[at] < |before| <= 8 * |marked|
    requires AdjustedAfter(scaling, before, now, marked, tokens, at) && MarkedAfter(marked, seen, tokens, at)
    ensures var token := tokens[at];
      AdjustedAfter(scaling, before, if Marked(seen, token) then now else now[token := Adjusted(scaling, now[token])],
                    marked, tokens, at + 1)
  {
    assert tokens[..at + 1] == tokens[..at] + [tokens[at]];
  }

  lemma MarkStep(before: seq<nat>, now: seq<nat>, next: seq<nat>, tokens: seq<nat>, at: nat)
    requires at < |tokens| && MarkedAfter(before, now, tokens, at) && |next| == |now|
    requires forall t: nat | t < 8 * |now| :: Marked(next, t) <==> t == tokens[at] || Marked(now, t)
    ensures MarkedAfter(before, next, tokens, at + 1)
  {
    assert tokens[..at + 1] == tokens[..at] + [tokens[at]];
  }

  /** The first loop: mark and adjust. */
  method AdjustLoop(scaling: Scaling, logits: array<nat>, tokens: seq<nat>, seen: array<nat>)
    requires InRange(tokens, logits, seen)
    modifies logits, seen
    ensures MarkedAfter(old(seen[..]), seen[..], tokens, |tokens|)
    ensures AdjustedAfter(scaling, old(logits[..]), logits[..], old(seen[..]), tokens, |tokens|)
  {
    ghost var before, marked := logits[..], seen[..];
    var at := 0;
    while at < |tokens|
      invariant at <= |tokens|
      invariant MarkedAfter(marked, seen[..], tokens, at)
      invariant AdjustedAfter(scaling, before, logits[..], marked, tokens, at)
    {
      var token := tokens[at];
      ghost var scores := logits[..];
      AdjustStep(scaling, before, scores, marked, seen[..], tokens, at);
      ghost var now := seen[..];
      var isNew := MarkToken(seen, token);
      MarkStep(marked, now, seen[..], tokens, at);
      if isNew {
        logits[token] := Adjusted(scaling, logits[token]);
        assert logits[..] == scores[token := Adjusted(scaling, scores[token])];
      }
      at := at + 1;
    }
  }

  /** The second loop: clear the marks of all tokens. */
  method ClearLoop(tokens: seq<nat>, seen: array<nat>)
    requires forall i | 0 <= i < |tokens| :: tokens[i] < 8 * seen.Length
    modifies seen
    ensures forall t: nat | t < 8 * seen.Length :: Marked(seen[..], t) <==> t !in tokens && old(Marked(seen[..], t))
  {
    ghost var marked := seen[..];
    var at := 0;
    while at < |tokens|
      invariant at <= |tokens|
      invariant forall t: nat | t < 8 * seen.Length :: Marked(seen[..], t) <==> t !in tokens[..at] && Marked(marked, t)
    {
      var token := tokens[at];
      ghost var now := seen[..];
      assert tokens[..at + 1] == tokens[..at] + [token];
      seen[token / 8] := ClearBit(seen[token / 8], token % 8);
      assert seen[..] == now[token / 8 := ClearBit(now[token / 8], token % 8)];
      forall t: nat | t < 8 * |now| ensures Marked(seen[..], t) <==> t != token && Marked(now, t) {
        UnmarkOnly(now, token, t);
      }
      at := at + 1;
    }
    assert tokens[..at] == tokens;
  }

  /** `inference_apply_repetition_penalty`. */
  method ApplyPenalty(scaling: Scaling, logits: array<nat>, tokens: seq<nat>, seen: array<nat>)
    requires InRange(tokens, logits, seen)
    modifies logits, seen
    ensures AdjustedAfter(scaling, old(logits[..]), logits[..], old(seen[..]), tokens, |tokens|)
    ensures forall t: nat | t < 8 * seen.Length :: Marked(seen[..], t) <==> t !in tokens && old(Marked(seen[..], t))
  {
    AdjustLoop(scaling, logits, tokens, seen);
    assert tokens[..|tokens|] == tokens;
    ClearLoop(tokens, seen);
  }

  /** From an empty bitmap: every token of the context adjusted once, no other score touched, the bitmap empty again. */
  method PenalizeOnce(scaling: Scaling, logits: array<nat>, tokens: seq<nat>, seen: array<nat>)
    requires InRange(tokens, logits, seen) && forall t: nat | t < 8 * seen.Length :: !Marked(seen[..], t)
    modifies logits, seen
    ensures forall t: nat | t < logits.Length ::
      logits[t] == if t in tokens then Adjusted(scaling, old(logits[t])) else old(logits[t])
    ensures forall t: nat | t < 8 * seen.Length :: !Marked(seen[..], t)
  {
    ghost var before, marked := logits[..], seen[..];
    ApplyPenalty(scaling, logits, tokens, seen);
    assert tokens[..|tokens|] == tokens;
    forall t: nat | t < logits.Length
      ensures logits[t] == if t in tokens then Adjusted(scaling, before[t]) else before[t]
    {
      assert logits[..][t] == Score(scaling, before, marked, tokens, |tokens|, t);
    }
  }
}
