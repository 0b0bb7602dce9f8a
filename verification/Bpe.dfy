/**
 Byte-pair encoding of one pre-token, in place in the tokenizer's scratch area.  The array loop computes what
 "repeatedly merge the leftmost pair of lowest rank" says on the sequence of tokens.
 */
module Bpe {
  import opened Wrappers
  import opened MergeIndex
  import opened Utf8

  const MAX_TOKENS := 599
  const MAX_SEGMENT := 512
  /** The scratch area in words: staged tokens, then the current segment, then the rendered text. */
  const CURRENT_SEGMENT := 599
  const STAGED_RENDERED := 1_111

  // ---- on sequences ----

  function PairMerge(merges: seq<Merge>, tokens: seq<nat>, at: nat): Option<Hit>
    requires at + 1 < |tokens|
  {
    MergeOf(merges, tokens[at], tokens[at + 1])
  }

  /** No adjacent pair can be merged. */
  ghost predicate Irreducible(merges: seq<Merge>, tokens: seq<nat>) {
    forall at: nat | at + 1 < |tokens| :: PairMerge(merges, tokens, at).None?
  }

  /** The pair at `at` has the lowest rank of the first `n`, and no pair before it has the same. */
  ghost predicate IsBestBelow(merges: seq<Merge>, tokens: seq<nat>, n: nat, at: nat)
    requires n < |tokens|
  {
    && at < n && PairMerge(merges, tokens, at).Some?
    && forall other: nat | other < n && PairMerge(merges, tokens, other).Some? ::
         var here, there := PairMerge(merges, tokens, at).value.rank, PairMerge(merges, tokens, other).value.rank;
         here < there || (here == there && at <= other)
  }

  /** The best pair among the first `n`, if any can be merged. */
  function BestBelow(merges: seq<Merge>, tokens: seq<nat>, n: nat): (best: Option<nat>)
    requires n < |tokens|
    ensures best.Some? ==> best.value < n && PairMerge(merges, tokens, best.value).Some?
  {
    if n == 0 then None
    else
      var best, last := BestBelow(merges, tokens, n - 1), PairMerge(merges, tokens, n - 1);
      if last.None? then best
      else if best.None? || last.value.rank < PairMerge(merges, tokens, best.value).value.rank then Some(n - 1)
      else best
  }

  lemma {:induction false} BestBelowExact(merges: seq<Merge>, tokens: seq<nat>, n: nat)
    requires n < |tokens|
    ensures match BestBelow(merges, tokens, n)
            case None => forall at: nat | at < n :: PairMerge(merges, tokens, at).None?
            case Some(at) => IsBestBelow(merges, tokens, n, at)
  {
    if n > 0 {
      BestBelowExact(merges, tokens, n - 1);
    }
  }

  function Best(merges: seq<Merge>, tokens: seq<nat>): (best: Option<nat>)
    ensures best.Some? ==> best.value + 1 < |tokens| && PairMerge(merges, tokens, best.value).Some?
  {
    if tokens == [] then None else BestBelow(merges, tokens, |tokens| - 1)
  }

  ghost predicate IsBest(merges: seq<Merge>, tokens: seq<nat>, at: nat) {
    tokens != [] && IsBestBelow(merges, tokens, |tokens| - 1, at)
  }

  /** The pair chosen is the leftmost of lowest rank, and there is one unless nothing can be merged. */
  lemma BestExact(merges: seq<Merge>, tokens: seq<nat>, at: nat)
    ensures Best(merges, tokens) == Some(at) <==> IsBest(merges, tokens, at)
    ensures Best(merges, tokens) == None <==> Irreducible(merges, tokens)
  {
    if tokens != [] {
      BestBelowExact(merges, tokens, |tokens| - 1);
    }
  }

  function MergeAt(tokens: seq<nat>, at: nat, result: nat): seq<nat>
    requires at + 1 < |tokens|
  {
    tokens[..at] + [result] + tokens[at + 2..]
  }

  /** Merge the best pair until none is left. */
  function Reduce(merges: seq<Merge>, tokens: seq<nat>): (out: seq<nat>)
    ensures |out| <= |tokens| && (tokens != [] ==> out != [])
    decreases |tokens|
  {
    match Best(merges, tokens)
    case None => tokens
    case Some(at) => Reduce(merges, MergeAt(tokens, at, PairMerge(merges, tokens, at).value.result))
  }

  lemma {:induction false} ReduceIrreducible(merges: seq<Merge>, tokens: seq<nat>)
    ensures Irreducible(merges, Reduce(merges, tokens))
    decreases |tokens|
  {
    BestExact(merges, tokens, 0);
    match Best(merges, tokens)
    case None =>
    case Some(at) =>
      ReduceIrreducible(merges, MergeAt(tokens, at, PairMerge(merges, tokens, at).value.result));
  }

  // ---- in place ----

  /** A finished index: whatever it is asked, it answers like the merge list. */
  ghost predicate Answers(index: array<Slot>, merges: seq<Merge>)
    reads index
  {
    && index.Length == TABLE_ENTRIES
    && forall left: nat, right: nat {:trigger Probe(index[..], left, right, 0)} ::
         Probe(index[..], left, right, 0).0 == MergeOf(merges, left, right)
  }

  method Ask(index: array<Slot>, ghost merges: seq<Merge>, left: nat, right: nat) returns (entry: Option<Hit>)
    requires Answers(index, merges)
    ensures entry == MergeOf(merges, left, right)
  {
    var found, _ := Lookup(index, left, right);
    entry := found;
  }

  /** Tokens of the current segment. */
  function Segment(scratch: array<nat>, count: nat): (tokens: seq<nat>)
    reads scratch
    requires scratch.Length >= STAGED_RENDERED && count <= MAX_SEGMENT
    ensures |tokens| == count
  {
    scratch[CURRENT_SEGMENT..CURRENT_SEGMENT + count]
  }

  /** Only the segment area of the scratch has changed. */
  twostate predicate SegmentOnly(scratch: array<nat>)
    reads scratch
    requires scratch.Length >= STAGED_RENDERED
  {
    scratch[..CURRENT_SEGMENT] == old(scratch[..CURRENT_SEGMENT]) && scratch[STAGED_RENDERED..] == old(scratch[STAGED_RENDERED..])
  }

  /** The search loop of `bpe`. */
  method FindBest(index: array<Slot>, ghost merges: seq<Merge>, scratch: array<nat>, count: nat)
      returns (best: Option<(nat, nat)>)
    requires Answers(index, merges) && scratch.Length >= STAGED_RENDERED && count <= MAX_SEGMENT
    ensures best.None? ==> Best(merges, Segment(scratch, count)) == None
    ensures best.Some? ==>
      && Best(merges, Segment(scratch, count)) == Some(best.value.0)
      && PairMerge(merges, Segment(scratch, count), best.value.0).value.result == best.value.1
  {
    ghost var tokens := Segment(scratch, count);
    best := None;
    if count < 2 {
      return;
    }
    var bestRank := 0;
    var at := 0;
    while at < count - 1
      invariant at <= count - 1
      invariant BestBelow(merges, tokens, at) == if best.None? then None else Some(best.value.0)
      invariant best.Some? ==>
        PairMerge(merges, tokens, best.value.0) == Some(Hit(best.value.1, bestRank))
    {
      var left, right := scratch[CURRENT_SEGMENT + at], scratch[CURRENT_SEGMENT + at + 1];
      assert left == tokens[at] && right == tokens[at + 1];
      var entry := Ask(index, merges, left, right);
      if entry.Some? && (best.None? || entry.value.rank < bestRank) {
        best, bestRank := Some((at, entry.value.result)), entry.value.rank;
      }
      at := at + 1;
    }
  }

  /** Put the result of a merge in place and close the gap. */
  method MergeInPlace(scratch: array<nat>, count: nat, at: nat, result: nat)
    requires scratch.Length >= STAGED_RENDERED && count <= MAX_SEGMENT && at + 1 < count
    modifies scratch
    ensures Segment(scratch, count - 1) == MergeAt(old(Segment(scratch, count)), at, result)
    ensures SegmentOnly(scratch)
  {
    ghost var before := scratch[..];
    scratch[CURRENT_SEGMENT + at] := result;
    var i := at + 1;
    while i < count - 1
      invariant at + 1 <= i <= count - 1
      invariant forall k | 0 <= k < scratch.Length && !(CURRENT_SEGMENT + at <= k < CURRENT_SEGMENT + i) ::
        scratch[k] == before[k]
      invariant scratch[CURRENT_SEGMENT + at] == result
      invariant forall k | CURRENT_SEGMENT + at < k < CURRENT_SEGMENT + i :: scratch[k] == before[k + 1]
    {
      scratch[CURRENT_SEGMENT + i] := scratch[CURRENT_SEGMENT + i + 1];
      i := i + 1;
    }
    ghost var was, now := before[CURRENT_SEGMENT..CURRENT_SEGMENT + count], Segment(scratch, count - 1);
    ghost var goal := MergeAt(was, at, result);
    forall k | 0 <= k < |now| ensures now[k] == goal[k] {
      assert now[k] == scratch[CURRENT_SEGMENT + k];
      if k > at {
        assert goal[k] == was[k + 1] == before[CURRENT_SEGMENT + k + 1];
      }
    }
  }

  /** One round of the merge loop: merge the best pair, if there is one. */
  method MergeOnce(index: array<Slot>, ghost merges: seq<Merge>, scratch: array<nat>, count: nat) returns (merged: bool)
    requires Answers(index, merges) && scratch.Length >= STAGED_RENDERED && count <= MAX_SEGMENT
    modifies scratch
    ensures SegmentOnly(scratch)
    ensures merged ==> count > 1
    ensures merged ==> Reduce(merges, Segment(scratch, count - 1)) == Reduce(merges, old(Segment(scratch, count)))
    ensures !merged ==> unchanged(scratch) && Reduce(merges, Segment(scratch, count)) == Segment(scratch, count)
  {
    var best := FindBest(index, merges, scratch, count);
    if best.None? {
      return false;
    }
    MergeInPlace(scratch, count, best.value.0, best.value.1);
    merged := true;
  }

  /** The merge loop of `bpe`. */
  method ReduceInPlace(index: array<Slot>, ghost merges: seq<Merge>, scratch: array<nat>, length: nat) returns (count: nat)
    requires Answers(index, merges) && scratch.Length >= STAGED_RENDERED && length <= MAX_SEGMENT
    modifies scratch
    ensures count <= length && (length > 0 ==> count > 0)
    ensures Segment(scratch, count) == Reduce(merges, old(Segment(scratch, length)))
    ensures SegmentOnly(scratch)
  {
    count := length;
    var merged := true;
    while merged
      invariant count <= length && (length > 0 ==> count > 0)
      invariant Reduce(merges, Segment(scratch, count)) == Reduce(merges, old(Segment(scratch, length)))
      invariant !merged ==> Reduce(merges, Segment(scratch, count)) == Segment(scratch, count)
      invariant SegmentOnly(scratch)
      decreases count, merged
    {
      merged := MergeOnce(index, merges, scratch, count);
      if merged {
        count := count - 1;
      }
    }
  }

  // ---- one pre-token ----

  datatype TokenError = SegmentTooLong(length: nat) | TooManyTokens(total: nat)

  type ByteMap = m: seq<nat> | |m| == 256 witness seq(256, _ => 0)

  function ByteTokens(byteMap: ByteMap, text: seq<Byte>): seq<nat> {
    seq(|text|, i requires 0 <= i < |text| => byteMap[text[i]])
  }

  /** The tokens of a pre-token. */
  function PretokenTokens(merges: seq<Merge>, byteMap: ByteMap, text: seq<Byte>): (out: seq<nat>)
    ensures |out| <= |text|
  {
    Reduce(merges, ByteTokens(byteMap, text))
  }

  /** `out` has been staged behind the first `from` tokens, and only the segment area has changed besides. */
  twostate predicate Staged(scratch: array<nat>, from: nat, out: seq<nat>)
    reads scratch
    requires scratch.Length >= STAGED_RENDERED && from + |out| <= MAX_TOKENS
  {
    && scratch[..from] == old(scratch[..from])
    && scratch[from..from + |out|] == out
    && scratch[from + |out|..MAX_TOKENS] == old(scratch[from + |out|..MAX_TOKENS])
    && scratch[STAGED_RENDERED..] == old(scratch[STAGED_RENDERED..])
  }

  method LoadSegment(byteMap: ByteMap, scratch: array<nat>, text: seq<Byte>)
    requires scratch.Length >= STAGED_RENDERED && |text| <= MAX_SEGMENT
    modifies scratch
    ensures Segment(scratch, |text|) == ByteTokens(byteMap, text) && SegmentOnly(scratch)
  {
    var at := 0;
    while at < |text|
      invariant at <= |text|
      invariant Segment(scratch, at) == ByteTokens(byteMap, text[..at]) && SegmentOnly(scratch)
    {
      scratch[CURRENT_SEGMENT + at] := byteMap[text[at]];
      assert Segment(scratch, at + 1) == Segment(scratch, at) + [byteMap[text[at]]];
      at := at + 1;
    }
    assert text[..at] == text;
  }

  method StageSegment(scratch: array<nat>, from: nat, count: nat)
    requires scratch.Length >= STAGED_RENDERED && count <= MAX_SEGMENT && from + count <= MAX_TOKENS
    modifies scratch
    ensures Staged(scratch, from, old(Segment(scratch, count)))
  {
    var at := 0;
    while at < count
      invariant at <= count
      invariant scratch[..from] == old(scratch[..from])
      invariant scratch[from..from + at] == old(Segment(scratch, count))[..at]
      invariant forall k | from + at <= k < scratch.Length :: scratch[k] == old(scratch[k])
      invariant scratch[STAGED_RENDERED..] == old(scratch[STAGED_RENDERED..])
    {
      var value := scratch[CURRENT_SEGMENT + at];
      assert value == old(scratch[CURRENT_SEGMENT + at]) == old(Segment(scratch, count))[at];
      scratch[from + at] := value;
      at := at + 1;
    }
    assert scratch[from + count..MAX_TOKENS] == old(scratch[from + count..MAX_TOKENS]);
  }

  /** `bpe`. */
  method EncodePretoken(index: array<Slot>, ghost merges: seq<Merge>, byteMap: ByteMap, scratch: array<nat>,
                        outputCount: nat, text: seq<Byte>)
      returns (error: Option<TokenError>, count: nat)
    requires Answers(index, merges) && scratch.Length >= STAGED_RENDERED && outputCount <= MAX_TOKENS
    modifies scratch
    ensures |text| > MAX_SEGMENT ==>
      error == Some(SegmentTooLong(|text|)) && count == outputCount && unchanged(scratch)
    ensures |text| <= MAX_SEGMENT ==>
      var out := PretokenTokens(merges, byteMap, text);
      if outputCount + |out| > MAX_TOKENS then
        error == Some(TooManyTokens(outputCount + |out|)) && count == outputCount && SegmentOnly(scratch)
      else
        error == None && count == outputCount + |out| && Staged(scratch, outputCount, out)
  {
    if |text| > MAX_SEGMENT {
      return Some(SegmentTooLong(|text|)), outputCount;
    }
    LoadSegment(byteMap, scratch, text);
    var produced := ReduceInPlace(index, merges, scratch, |text|);
    if outputCount + produced > MAX_TOKENS {
      return Some(TooManyTokens(outputCount + produced)), outputCount;
    }
    StageSegment(scratch, outputCount, produced);
    return None, outputCount + produced;
  }
}
