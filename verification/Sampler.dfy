/**
 Sampling a token: the twenty largest logits are weighed, the tail beyond the cut is dropped, and a random number picks
 one of the rest. The arithmetic is uninterpreted.
 */
module Sampler {
  import opened Binary32
  import opened Selection
  import opened Wrappers

  /** `weight` is of a value under the largest one; `cut` and `target` are of wide sums. */
  datatype Weighing = Weighing(
    weight: (nat, nat) -> nat,
    addWide: (nat, nat) -> nat,
    widen: nat -> nat,
    narrow: nat -> nat,
    cut: nat -> nat,
    target: (nat, bv64) -> nat,
    greater: (nat, nat) -> bool)

  // ---- what is chosen ----

  /** The weights of the candidates, the largest first. */
  function Weights(w: Weighing, top: seq<Entry>): (weights: seq<nat>)
    ensures |weights| == |top|
  {
    seq<nat>(|top|, i requires 0 <= i < |top| => w.weight(top[i].bits, top[0].bits))
  }

  function Sum(w: Weighing, weights: seq<nat>, k: nat): nat
    requires k <= |weights|
  {
    if k == 0 then 0 else w.addWide(Sum(w, weights, k - 1), w.widen(weights[k - 1]))
  }

  /** The first `k` weights reach the cut. */
  predicate Reaches(w: Weighing, weights: seq<nat>, k: nat)
    requires k <= |weights|
  {
    !w.greater(w.cut(Sum(w, weights, |weights|)), w.narrow(Sum(w, weights, k)))
  }

  /** `kept` is the least number of candidates whose weights reach the cut, or all of them. */
  ghost predicate IsKept(w: Weighing, weights: seq<nat>, kept: nat) {
    && 0 < kept <= |weights|
    && (forall k | 0 < k < kept :: !Reaches(w, weights, k))
    && (kept < |weights| ==> Reaches(w, weights, kept))
  }

  lemma KeptUnique(w: Weighing, weights: seq<nat>, a: nat, b: nat)
    requires IsKept(w, weights, a) && IsKept(w, weights, b)
    ensures a == b
  {
  }

  /** The first `k` weights exceed the target that the random number gives. */
  predicate Exceeds(w: Weighing, weights: seq<nat>, kept: nat, random: bv64, k: nat)
    requires k <= kept <= |weights|
  {
    w.greater(w.narrow(Sum(w, weights, k)), w.target(Sum(w, weights, kept), random))
  }

  /** `at` is the first kept candidate at which the running sum exceeds the target, or the last one. */
  ghost predicate IsChosen(w: Weighing, weights: seq<nat>, kept: nat, random: bv64, at: nat)
    requires kept <= |weights|
  {
    && at < kept
    && (forall k | 0 < k <= at :: !Exceeds(w, weights, kept, random, k))
    && (at < kept - 1 ==> Exceeds(w, weights, kept, random, at + 1))
  }

  lemma ChosenUnique(w: Weighing, weights: seq<nat>, kept: nat, random: bv64, a: nat, b: nat)
    requires kept <= |weights|
    requires IsChosen(w, weights, kept, random, a) && IsChosen(w, weights, kept, random, b)
    ensures a == b
  {
  }

  /** `token` is what the logits and the random number select. */
  ghost predicate IsSample(w: Weighing, logits: seq<nat>, random: bv64, top: seq<Entry>, kept: nat, at: nat, token: nat) {
    && IsTop(logits, |logits|, SAMPLER_TOP, top)
    && IsKept(w, Weights(w, top), kept)
    && IsChosen(w, Weights(w, top), kept, random, at)
    && token == top[at].token
  }

  lemma SameTop(logits: seq<nat>, a: seq<Entry>, b: seq<Entry>)
    requires IsTop(logits, |logits|, SAMPLER_TOP, a) && IsTop(logits, |logits|, SAMPLER_TOP, b)
    ensures a == b
  {
    if a != [] {
      IsTopUnique(logits, |logits|, SAMPLER_TOP, a, b, |a| - 1);
      assert a[..|a|] == a && b[..|b|] == b;
    }
  }

  /** Logits and random number determine the sample. */
  lemma SampleUnique(w: Weighing, logits: seq<nat>, random: bv64, top: seq<Entry>, kept: nat, at: nat, token: nat,
                     top': seq<Entry>, kept': nat, at': nat, token': nat)
    requires IsSample(w, logits, random, top, kept, at, token)
    requires IsSample(w, logits, random, top', kept', at', token')
    ensures token == token'
  {
    hide IsTop;
    SameTop(logits, top, top');
    KeptUnique(w, Weights(w, top), kept, kept');
    ChosenUnique(w, Weights(w, top), kept, random, at, at');
  }

  // ---- with exact arithmetic ----

  /**
   Sums are sums, conversions change nothing, the comparison compares; the cut is at most the whole, the target lies
   below the sum it is taken of, and a value weighs something under itself.
   */
  ghost predicate ExactWeighing(w: Weighing) {
    && (forall a: nat, b: nat :: w.addWide(a, b) == a + b)
    && (forall a: nat :: w.widen(a) == a && w.narrow(a) == a)
    && (forall a: nat, b: nat :: w.greater(a, b) <==> a > b)
    && (forall a: nat :: w.cut(a) <= a)
    && (forall a: nat, random :: a > 0 ==> w.target(a, random) < a)
    && (forall a: nat :: w.weight(a, a) > 0)
  }

  lemma ExactExists()
    ensures exists w :: ExactWeighing(w)
  {
    var w := Weighing((_, _) => 1, (a, b) => a + b, a => a, a => a, a => a / 10 * 8, (a, _) => a / 2, (a, b) => a > b);
    assert ExactWeighing(w);
  }

  function Total(weights: seq<nat>): nat {
    if weights == [] then 0 else weights[0] + Total(weights[1..])
  }

  lemma {:induction false} TotalLast(weights: seq<nat>, last: nat)
    ensures Total(weights + [last]) == Total(weights) + last
  {
    if weights == [] {
      assert (weights + [last])[1..] == [];
    } else {
      assert (weights + [last])[1..] == weights[1..] + [last];
      TotalLast(weights[1..], last);
    }
  }

  lemma {:induction false} SumIsTotal(w: Weighing, weights: seq<nat>, k: nat)
    requires ExactWeighing(w) && k <= |weights|
    ensures Sum(w, weights, k) == Total(weights[..k])
  {
    if k > 0 {
      SumIsTotal(w, weights, k - 1);
      assert weights[..k] == weights[..k - 1] + [weights[k - 1]];
      TotalLast(weights[..k - 1], weights[k - 1]);
    } else {
      assert weights[..k] == [];
    }
  }

  /**
   What exact arithmetic would select. The candidates are laid out one behind the other, each as long as its weight
   under the largest: kept is the shortest beginning that reaches the cut of the whole, and the token is the one in whose
   stretch the target falls, so a candidate without weight is never chosen.
   */
  lemma ExactSample(w: Weighing, logits: seq<nat>, random: bv64, top: seq<Entry>, kept: nat, at: nat, token: nat,
                    weights: seq<nat>)
    requires ExactWeighing(w) && IsSample(w, logits, random, top, kept, at, token)
    requires |weights| == |top| && forall i | 0 <= i < |top| :: weights[i] == w.weight(top[i].bits, top[0].bits)
    ensures at < kept <= |top| && token == top[at].token
    ensures Total(weights[..kept]) >= w.cut(Total(weights))
    ensures forall k | 0 < k < kept :: Total(weights[..k]) < w.cut(Total(weights))
    ensures Total(weights[..at]) <= w.target(Total(weights[..kept]), random) < Total(weights[..at + 1])
  {
    hide IsTop;
    assert weights == Weights(w, top) && weights[..|weights|] == weights;
    forall k | 0 <= k <= |weights| ensures Sum(w, weights, k) == Total(weights[..k]) {
      SumIsTotal(w, weights, k);
    }
    assert Total(weights[..kept]) > 0 by {
      assert weights[..kept][0] == weights[0] > 0;
    }
    assert forall k | 0 < k <= |weights| :: Reaches(w, weights, k) <==> Total(weights[..k]) >= w.cut(Total(weights));
    assert forall k | 0 < k <= kept :: Exceeds(w, weights, kept, random, k) <==>
      Total(weights[..k]) > w.target(Total(weights[..kept]), random);
    assert kept == at + 1 ==> weights[..at + 1] == weights[..kept];
    assert at == 0 ==> Total(weights[..at]) == 0;
  }

  // ---- the loops ----

  /** The weighing loop. */
  method Weigh(w: Weighing, values: array<nat>, ghost top: seq<Entry>) returns (weights: array<nat>, total: nat)
    requires |top| == values.Length > 0 && forall i | 0 <= i < |top| :: values[i] == top[i].bits
    ensures weights.Length == values.Length && weights[..] == Weights(w, top)
    ensures total == Sum(w, Weights(w, top), |top|)
  {
    weights := new nat[values.Length];
    total := 0;
    ghost var all := Weights(w, top);
    for at := 0 to values.Length
      invariant forall i | 0 <= i < at :: weights[i] == all[i]
      invariant total == Sum(w, all, at)
    {
      weights[at] := w.weight(values[at], values[0]);
      total := w.addWide(total, w.widen(weights[at]));
    }
  }

  /** The cut. */
  method KeepNucleus(w: Weighing, weights: array<nat>, total: nat) returns (kept: nat, keptTotal: nat)
    requires weights.Length > 0 && total == Sum(w, weights[..], weights.Length)
    ensures IsKept(w, weights[..], kept) && keptTotal == Sum(w, weights[..], kept)
  {
    ghost var all := weights[..];
    var cut := w.cut(total);
    kept, keptTotal := weights.Length, 0;
    for at := 0 to weights.Length
      invariant kept == weights.Length && keptTotal == Sum(w, all, at)
      invariant forall k | 0 < k <= at :: !Reaches(w, all, k)
    {
      keptTotal := w.addWide(keptTotal, w.widen(weights[at]));
      assert keptTotal == Sum(w, all, at + 1);
      if !w.greater(cut, w.narrow(keptTotal)) {
        kept := at + 1;
        return;
      }
    }
  }

  /** The pick. */
  method Pick(w: Weighing, weights: array<nat>, kept: nat, keptTotal: nat, random: bv64) returns (at: nat)
    requires 0 < kept <= weights.Length && keptTotal == Sum(w, weights[..], kept)
    ensures IsChosen(w, weights[..], kept, random, at)
  {
    ghost var all := weights[..];
    var target := w.target(keptTotal, random);
    var cumulative := 0;
    for i := 0 to kept
      invariant cumulative == Sum(w, all, i)
      invariant forall k | 0 < k <= i :: !Exceeds(w, all, kept, random, k)
    {
      cumulative := w.addWide(cumulative, w.widen(weights[i]));
      assert cumulative == Sum(w, all, i + 1);
      if w.greater(w.narrow(cumulative), target) {
        return i;
      }
    }
    at := kept - 1;
  }

  /** `inference_sample_top_k_top_p`. */
  method SampleTopKTopP(w: Weighing, logits: seq<nat>, random: bv64)
      returns (token: nat, ghost top: seq<Entry>, ghost kept: nat, ghost at: nat)
    requires |logits| == LOGIT_WORDS
    ensures IsSample(w, logits, random, top, kept, at, token) && token < |logits|
    ensures AllWords(logits) ==> LargestFirst(logits, 20, top)
  {
    var ids, values := SampleTop(logits);
    top := Slots(ids, values, SAMPLER_TOP);
    var weights, total := Weigh(w, values, top);
    var nucleus, keptTotal := KeepNucleus(w, weights, total);
    var place := Pick(w, weights, nucleus, keptTotal, random);
    kept, at := nucleus, place;
    token := ids[place];
    assert IsEntry(logits, |logits|, top[place]);
  }

  /** `sample_token`: the logits are validated first. */
  method SampleToken(w: Weighing, logits: seq<nat>, random: bv64)
      returns (r: Result<nat, SelectError>, ghost top: seq<Entry>, ghost kept: nat, ghost at: nat)
    ensures match r
            case Ok(token) => ValidLogits(logits) && IsSample(w, logits, random, top, kept, at, token)
            case Err(error) => RefusedFor(logits, error)
  {
    top, kept, at := [], 0, 0;
    var error := ValidateLogits(logits);
    if error.Some? {
      r := Err(error.value);
      return;
    }
    var token;
    token, top, kept, at := SampleTopKTopP(w, logits, random);
    r := Ok(token);
  }
}
