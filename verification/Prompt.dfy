/**
 The chat prompt as tokens.  What the tokenizer produces is what the session relies on: valid tokens, a fixed
 prefix, and exactly one place where a follow-up turn starts.
 */
module Prompt {
  import opened Wrappers
  import opened Utf8
  import opened MergeIndex
  import opened Bpe
  import opened TokenText
  import opened Pretoken
  import S = Session
  import E = Engine

  datatype Part = Control(token: nat) | Text(text: seq<Byte>)

  function Ascii(s: string): seq<Byte> {
    seq(|s|, i requires 0 <= i < |s| => s[i] as int % 0x100)
  }

  const LINE_END: seq<Byte> := [0x0a]
  const SYSTEM_TEXT: string := "You are Qwen, created by Alibaba Cloud. You are a helpful assistant."

  function SystemParts(): seq<Part> {
    [Control(S.IM_START), Text(Ascii("system")), Text(LINE_END),
     Text(Ascii(SYSTEM_TEXT)),
     Control(S.IM_END), Text(LINE_END)]
  }

  function UserParts(): seq<Part> {
    [Control(S.IM_START), Text(Ascii("user")), Text(LINE_END)]
  }

  function ClosingParts(): seq<Part> {
    [Control(S.IM_END), Text(LINE_END), Control(S.IM_START), Text(Ascii("assistant")), Text(LINE_END)]
  }

  /** All parts of the prompt for `user`; the first nine are the fixed prefix. */
  function PromptParts(user: seq<Byte>): seq<Part> {
    SystemParts() + UserParts() + [Text(user)] + ClosingParts()
  }

  function PartTokens(merges: seq<Merge>, byteMap: ByteMap, part: Part): seq<nat> {
    match part
    case Control(token) => [token]
    case Text(text) => OrdinaryTokens(merges, byteMap, text)
  }

  function PartsTokens(merges: seq<Merge>, byteMap: ByteMap, parts: seq<Part>): seq<nat> {
    if parts == [] then []
    else PartsTokens(merges, byteMap, parts[..|parts| - 1]) + PartTokens(merges, byteMap, parts[|parts| - 1])
  }

  lemma {:induction false} PartsConcat(merges: seq<Merge>, byteMap: ByteMap, a: seq<Part>, b: seq<Part>)
    ensures PartsTokens(merges, byteMap, a + b) == PartsTokens(merges, byteMap, a) + PartsTokens(merges, byteMap, b)
  {
    if b == [] {
      assert a + b == a;
    } else {
      var n := |b| - 1;
      assert (a + b)[..|a| + n] == a + b[..n];
      PartsConcat(merges, byteMap, a, b[..n]);
      Associate(PartsTokens(merges, byteMap, a), PartsTokens(merges, byteMap, b[..n]), PartTokens(merges, byteMap, b[n]));
    }
  }

  lemma Associate(a: seq<nat>, b: seq<nat>, c: seq<nat>)
    ensures a + (b + c) == a + b + c
  {
  }

  // ---- facts about the tokens ----

  /** The vocabulary has the size the engine expects, IM_START is a control token, the newline has its token. */
  ghost predicate GoodPromptVocabulary(v: Vocabulary, merges: seq<Merge>, byteMap: ByteMap) {
    && GoodVocabulary(v, merges, byteMap)
    && |v.pieces| == E.VOCAB_COUNT
    && v.types[S.IM_START] == CONTROL
    && byteMap[0x0a] == S.NEWLINE
  }

  predicate OrdinaryToken(token: nat) {
    token < E.VOCAB_COUNT && token != S.IM_START
  }

  predicate AllOrdinary(tokens: seq<nat>) {
    forall i | 0 <= i < |tokens| :: OrdinaryToken(tokens[i])
  }

  lemma PretokenOrdinary(v: Vocabulary, merges: seq<Merge>, byteMap: ByteMap, text: seq<Byte>)
    requires GoodPromptVocabulary(v, merges, byteMap)
    ensures AllOrdinary(PretokenTokens(merges, byteMap, text))
  {
    var tokens := ByteTokens(byteMap, text);
    var parts := ReduceSpells(v, merges, tokens, Singles(text));
    var out := Reduce(merges, tokens);
    forall i | 0 <= i < |out| ensures OrdinaryToken(out[i]) {
      assert Writes(v, out[i], parts[i]);
    }
  }

  lemma {:induction false} FragmentsOrdinary(v: Vocabulary, merges: seq<Merge>, byteMap: ByteMap, text: seq<Byte>)
    requires GoodPromptVocabulary(v, merges, byteMap)
    ensures AllOrdinary(FragmentTokens(merges, byteMap, text)) && |FragmentTokens(merges, byteMap, text)| <= |text|
    decreases |text|
  {
    if text != [] {
      var length := FragmentsCut(merges, byteMap, text);
      PretokenOrdinary(v, merges, byteMap, text[..length]);
      FragmentsOrdinary(v, merges, byteMap, text[length..]);
    }
  }

  lemma OrdinaryConcat(a: seq<nat>, token: nat, b: seq<nat>)
    requires AllOrdinary(a) && OrdinaryToken(token) && AllOrdinary(b)
    ensures AllOrdinary(a + [token] + b) && |a + [token] + b| == |a| + 1 + |b|
  {
  }

  /** Text gives at most one token a byte, all of them in the vocabulary and none of them IM_START. */
  lemma {:induction false} TextOrdinary(v: Vocabulary, merges: seq<Merge>, byteMap: ByteMap, text: seq<Byte>)
    requires GoodPromptVocabulary(v, merges, byteMap)
    ensures AllOrdinary(OrdinaryTokens(merges, byteMap, text)) && |OrdinaryTokens(merges, byteMap, text)| <= |text|
    decreases |text|
  {
    if text == [] {
    } else if NextSpecial(text, 0) == |text| {
      OrdinaryPlain(merges, byteMap, text);
      FragmentsOrdinary(v, merges, byteMap, text);
    } else {
      var at, token, end := OrdinaryCut(merges, byteMap, text);
      FragmentsOrdinary(v, merges, byteMap, text[..at]);
      TextOrdinary(v, merges, byteMap, text[end..]);
      OrdinaryConcat(FragmentTokens(merges, byteMap, text[..at]), token, OrdinaryTokens(merges, byteMap, text[end..]));
    }
  }

  /** The newline is one token. */
  lemma LineEndToken(merges: seq<Merge>, byteMap: ByteMap)
    ensures OrdinaryTokens(merges, byteMap, LINE_END) == [byteMap[0x0a]]
  {
    assert SpecialAt(LINE_END, 0).Plain?;
    assert NextSpecial(LINE_END, 0) == 1;
    OrdinaryPlain(merges, byteMap, LINE_END);
    var length := FragmentsCut(merges, byteMap, LINE_END);
    assert LINE_END[..length] == LINE_END && LINE_END[length..] == [];
    assert ByteTokens(byteMap, LINE_END) == [byteMap[0x0a]];
    assert PretokenTokens(merges, byteMap, LINE_END) == [byteMap[0x0a]];
  }

  lemma {:induction false} StartsConcat(a: seq<nat>, b: seq<nat>)
    ensures S.Starts(a + b) == S.Starts(a) + S.Starts(b)
  {
    if b == [] {
      assert a + b == a;
    } else {
      var n := |b| - 1;
      assert (a + b)[..|a| + n] == a + b[..n];
      StartsConcat(a, b[..n]);
    }
  }

  lemma {:induction false} NoStarts(tokens: seq<nat>)
    requires AllOrdinary(tokens)
    ensures S.Starts(tokens) == 0
  {
    if tokens != [] {
      NoStarts(tokens[..|tokens| - 1]);
    }
  }

  // ---- the prompt ----

  function PromptTokens(merges: seq<Merge>, byteMap: ByteMap, user: seq<Byte>): seq<nat> {
    PartsTokens(merges, byteMap, PromptParts(user))
  }

  function PrefixTokens(merges: seq<Merge>, byteMap: ByteMap): seq<nat> {
    PartsTokens(merges, byteMap, SystemParts() + UserParts())
  }

  predicate ControlsKnown(parts: seq<Part>) {
    forall i | 0 <= i < |parts| && parts[i].Control? :: parts[i].token < E.VOCAB_COUNT
  }

  lemma PromptControls(user: seq<Byte>)
    ensures ControlsKnown(PromptParts(user))
  {
  }

  /** Every token of the prompt is in the vocabulary. */
  lemma {:induction false} PartsInVocabulary(v: Vocabulary, merges: seq<Merge>, byteMap: ByteMap, parts: seq<Part>)
    requires GoodPromptVocabulary(v, merges, byteMap)
    requires ControlsKnown(parts)
    ensures !E.BadToken(PartsTokens(merges, byteMap, parts))
  {
    if parts != [] {
      var last := parts[|parts| - 1];
      PartsInVocabulary(v, merges, byteMap, parts[..|parts| - 1]);
      if last.Text? {
        TextOrdinary(v, merges, byteMap, last.text);
      }
      E.BadTokenExists(PartTokens(merges, byteMap, last));
      E.GoodConcat(PartsTokens(merges, byteMap, parts[..|parts| - 1]), PartTokens(merges, byteMap, last));
    }
  }

  /** A message: its start, and parts with no further start. */
  predicate IsMessage(parts: seq<Part>) {
    && |parts| > 0 && parts[0] == Control(S.IM_START)
    && forall i | 0 < i < |parts| :: parts[i].Text? || OrdinaryToken(parts[i].token)
  }

  lemma {:induction false} NoStartParts(v: Vocabulary, merges: seq<Merge>, byteMap: ByteMap, parts: seq<Part>)
    requires GoodPromptVocabulary(v, merges, byteMap)
    requires forall i | 0 <= i < |parts| :: parts[i].Text? || OrdinaryToken(parts[i].token)
    ensures S.Starts(PartsTokens(merges, byteMap, parts)) == 0
  {
    if parts != [] {
      var before, last := parts[..|parts| - 1], parts[|parts| - 1];
      NoStartParts(v, merges, byteMap, before);
      PartNoStart(v, merges, byteMap, last);
      StartsConcat(PartsTokens(merges, byteMap, before), PartTokens(merges, byteMap, last));
    }
  }

  lemma MessageStarts(v: Vocabulary, merges: seq<Merge>, byteMap: ByteMap, parts: seq<Part>)
    requires GoodPromptVocabulary(v, merges, byteMap) && IsMessage(parts)
    ensures S.Starts(PartsTokens(merges, byteMap, parts)) == 1
  {
    hide GoodPromptVocabulary, PartsTokens, S.Starts;
    var rest := parts[1..];
    assert parts == [parts[0]] + rest;
    PartsConcat(merges, byteMap, [parts[0]], rest);
    NoStartParts(v, merges, byteMap, rest);
    OnePart(merges, byteMap, parts[0]);
    OneStart();
    StartsConcat([S.IM_START], PartsTokens(merges, byteMap, rest));
  }

  lemma OnePart(merges: seq<Merge>, byteMap: ByteMap, part: Part)
    ensures PartsTokens(merges, byteMap, [part]) == PartTokens(merges, byteMap, part)
  {
    assert [part][..0] == [];
    assert [] + PartTokens(merges, byteMap, part) == PartTokens(merges, byteMap, part);
  }

  lemma OneStart()
    ensures S.Starts([S.IM_START]) == 1
  {
    assert [S.IM_START][..0] == [];
  }

  lemma PartNoStart(v: Vocabulary, merges: seq<Merge>, byteMap: ByteMap, part: Part)
    requires GoodPromptVocabulary(v, merges, byteMap)
    requires part.Text? || OrdinaryToken(part.token)
    ensures S.Starts(PartTokens(merges, byteMap, part)) == 0
  {
    if part.Text? {
      TextOrdinary(v, merges, byteMap, part.text);
    }
    NoStarts(PartTokens(merges, byteMap, part));
  }

  /** A first message that ends a line, then another message. */
  ghost predicate TwoMessages(parts: seq<Part>, n: nat) {
    && 0 < n < |parts| && IsMessage(parts[..n]) && parts[n - 1] == Text(LINE_END)
    && parts[n] == Control(S.IM_START)
  }

  /** The second message is a follow-up. */
  lemma MessageFollowUp(v: Vocabulary, merges: seq<Merge>, byteMap: ByteMap, a: seq<Part>, b: seq<Part>)
      returns (at: nat)
    requires GoodPromptVocabulary(v, merges, byteMap)
    requires IsMessage(a) && a[|a| - 1] == Text(LINE_END) && |b| > 0 && b[0] == Control(S.IM_START)
    ensures S.FollowUpAt(PartsTokens(merges, byteMap, a + b), at)
    ensures at + 1 == |PartsTokens(merges, byteMap, a)|
  {
    PartsConcat(merges, byteMap, a, b);
    MessageStarts(v, merges, byteMap, a);
    EndsInNewline(merges, byteMap, a);
    StartsWithStart(merges, byteMap, b);
    FollowUpHere(PartsTokens(merges, byteMap, a), PartsTokens(merges, byteMap, b));
    at := |PartsTokens(merges, byteMap, a)| - 1;
  }

  lemma PromptMessages(user: seq<Byte>)
    ensures TwoMessages(PromptParts(user), 6)
  {
    assert PromptParts(user)[..6] == SystemParts();
  }

  /** Every prompt has a place where a follow-up turn starts: the newline that closes the system message. */
  lemma PromptFollowUp(v: Vocabulary, merges: seq<Merge>, byteMap: ByteMap, user: seq<Byte>) returns (at: nat)
    requires GoodPromptVocabulary(v, merges, byteMap)
    ensures S.FollowUpAt(PromptTokens(merges, byteMap, user), at)
    ensures at + 1 == |PartsTokens(merges, byteMap, SystemParts())|
  {
    var parts := PromptParts(user);
    assert parts[..6] == SystemParts();
    PromptMessages(user);
    at := MessageFollowUp(v, merges, byteMap, parts[..6], parts[6..]);
    assert parts == parts[..6] + parts[6..];
  }

  lemma FollowUpHere(first: seq<nat>, second: seq<nat>)
    requires |first| > 0 && first[|first| - 1] == S.NEWLINE && S.Starts(first) == 1
    requires |second| > 0 && second[0] == S.IM_START
    ensures S.FollowUpAt(first + second, |first| - 1)
  {
    assert (first + second)[..|first| - 1 + 1] == first;
  }

  lemma EndsInNewline(merges: seq<Merge>, byteMap: ByteMap, parts: seq<Part>)
    requires byteMap[0x0a] == S.NEWLINE && |parts| > 0 && parts[|parts| - 1] == Text(LINE_END)
    ensures var tokens := PartsTokens(merges, byteMap, parts); |tokens| > 0 && tokens[|tokens| - 1] == S.NEWLINE
  {
    LineEndToken(merges, byteMap);
  }

  lemma {:induction false} StartsWithStart(merges: seq<Merge>, byteMap: ByteMap, parts: seq<Part>)
    requires |parts| > 0 && parts[0] == Control(S.IM_START)
    ensures var tokens := PartsTokens(merges, byteMap, parts); |tokens| > 0 && tokens[0] == S.IM_START
  {
    assert parts == [parts[0]] + parts[1..];
    PartsConcat(merges, byteMap, [parts[0]], parts[1..]);
    OnePart(merges, byteMap, parts[0]);
  }

  // ---- the tokenizer the session uses ----

  predicate Printable(user: seq<Byte>) {
    forall i | 0 <= i < |user| :: 0x20 <= user[i] <= 0x7e
  }

  /** A line is accepted when it is short, printable, and its prompt has room. */
  predicate Accepts(merges: seq<Merge>, byteMap: ByteMap, user: seq<Byte>) {
    |user| <= 512 && Printable(user) && |PromptTokens(merges, byteMap, user)| <= MAX_TOKENS
  }

  datatype UserError = TooLong(length: nat) | BadByte(at: nat)

  /** `validate_prompt_request`, as far as it is about the text: its length, then the first byte that is not printable. */
  method CheckUser(user: seq<Byte>) returns (error: Option<UserError>)
    ensures error.None? <==> |user| <= 512 && Printable(user)
    ensures match error
            case None => forall i | 0 <= i < |user| :: ' ' as int <= user[i] <= '~' as int
            case Some(TooLong(length)) => length == |user| > 512
            case Some(BadByte(at)) =>
              at < |user| <= 512 && !(' ' as int <= user[at] <= '~' as int) && Printable(user[..at])
  {
    if |user| > 512 {
      return Some(TooLong(|user|));
    }
    for at := 0 to |user|
      invariant Printable(user[..at])
    {
      if !(0x20 <= user[at] <= 0x7e) {
        return Some(BadByte(at));
      }
    }
    assert user[..|user|] == user;
    error := None;
  }

  lemma ToolWords()
    ensures TOOL_CALL == Ascii("<tool_call>") && TOOL_END == Ascii("</tool_call>")
  {
  }

  function TokenizerOf(merges: seq<Merge>, byteMap: ByteMap): S.Tokenizer<seq<Byte>> {
    S.Tokenizer(
      user => if Accepts(merges, byteMap, user) then Some(PromptTokens(merges, byteMap, user)) else None,
      |PrefixTokens(merges, byteMap)|)
  }

  lemma {:induction false} PartsShort(v: Vocabulary, merges: seq<Merge>, byteMap: ByteMap, parts: seq<Part>)
    requires GoodPromptVocabulary(v, merges, byteMap)
    ensures |PartsTokens(merges, byteMap, parts)| <= PartsBytes(parts)
  {
    if parts != [] {
      PartsShort(v, merges, byteMap, parts[..|parts| - 1]);
      if parts[|parts| - 1].Text? {
        TextOrdinary(v, merges, byteMap, parts[|parts| - 1].text);
      }
    }
  }

  function PartBytes(part: Part): nat {
    match part
    case Control(_) => 1
    case Text(text) => |text|
  }

  function PartsBytes(parts: seq<Part>): nat {
    if parts == [] then 0 else PartsBytes(parts[..|parts| - 1]) + PartBytes(parts[|parts| - 1])
  }

  lemma {:induction false} PartsBytesConcat(a: seq<Part>, b: seq<Part>)
    ensures PartsBytes(a + b) == PartsBytes(a) + PartsBytes(b)
  {
    if b == [] {
      assert a + b == a;
    } else {
      assert (a + b)[..|a + b| - 1] == a + b[..|b| - 1];
      PartsBytesConcat(a, b[..|b| - 1]);
    }
  }

  /** The fixed prefix is a proper prefix of every prompt. */
  lemma PrefixOfPrompt(merges: seq<Merge>, byteMap: ByteMap, user: seq<Byte>)
    ensures PrefixTokens(merges, byteMap) <= PromptTokens(merges, byteMap, user)
    ensures 0 < |PrefixTokens(merges, byteMap)| < |PromptTokens(merges, byteMap, user)|
  {
    var prefix, rest := SystemParts() + UserParts(), [Text(user)] + ClosingParts();
    assert PromptParts(user) == prefix + rest;
    PartsConcat(merges, byteMap, prefix, rest);
    StartsWithStart(merges, byteMap, prefix);
    PartsConcat(merges, byteMap, [Text(user)], ClosingParts());
    StartsWithEnd(merges, byteMap);
  }

  lemma StartsWithEnd(merges: seq<Merge>, byteMap: ByteMap)
    ensures |PartsTokens(merges, byteMap, ClosingParts())| > 0
  {
    assert ClosingParts() == ClosingParts()[..2] + ClosingParts()[2..];
    PartsConcat(merges, byteMap, ClosingParts()[..2], ClosingParts()[2..]);
    StartsWithStart(merges, byteMap, ClosingParts()[2..]);
  }

  /** The tokens fit the engine's prefix bound. */
  lemma PrefixShort(v: Vocabulary, merges: seq<Merge>, byteMap: ByteMap)
    requires GoodPromptVocabulary(v, merges, byteMap)
    ensures |PrefixTokens(merges, byteMap)| <= MAX_TOKENS
  {
    var parts := SystemParts() + UserParts();
    PartsShort(v, merges, byteMap, parts);
    PartsBytesConcat(SystemParts(), UserParts());
    SystemBytes();
    UserBytes();
  }

  lemma SystemBytes()
    ensures PartsBytes(SystemParts()) == 78
  {
    var p := SystemParts();
    assert p[..6] == p && p[..5][..4] == p[..4] && p[..4][..3] == p[..3] && p[..3][..2] == p[..2] && p[..2][..1] == p[..1];
    assert PartsBytes(p[..1]) == 1;
    assert PartsBytes(p[..2]) == 7;
    assert PartsBytes(p[..3]) == 8;
    assert PartsBytes(p[..4]) == 76;
    assert PartsBytes(p[..5]) == 77;
  }

  lemma UserBytes()
    ensures PartsBytes(UserParts()) == 6
  {
    var p := UserParts();
    assert p[..3] == p && p[..2][..1] == p[..1];
    assert PartsBytes(p[..1]) == 1;
    assert PartsBytes(p[..2]) == 5;
  }

  lemma PromptInVocabulary(v: Vocabulary, merges: seq<Merge>, byteMap: ByteMap, user: seq<Byte>)
    requires GoodPromptVocabulary(v, merges, byteMap)
    ensures !E.BadToken(PromptTokens(merges, byteMap, user))
  {
    PromptControls(user);
    PartsInVocabulary(v, merges, byteMap, PromptParts(user));
  }

  /**
   The tokenizer meets what the session assumes of it: a fixed prefix that every prompt starts with and exceeds,
   prompts of at most 599 valid tokens, and in each of them a place where a follow-up turn starts.
   */
  lemma SessionTokenizer(v: Vocabulary, merges: seq<Merge>, byteMap: ByteMap)
    requires GoodPromptVocabulary(v, merges, byteMap)
    ensures S.GoodTokenizer(TokenizerOf(merges, byteMap))
    ensures forall user | TokenizerOf(merges, byteMap).tokenize(user).Some? ::
      var tokens := TokenizerOf(merges, byteMap).tokenize(user).value;
      PrefixTokens(merges, byteMap) <= tokens && exists at: nat :: S.FollowUpAt(tokens, at)
  {
    PrefixOfPrompt(merges, byteMap, []);
    PrefixShort(v, merges, byteMap);
    forall user | Accepts(merges, byteMap, user)
      ensures var tokens := PromptTokens(merges, byteMap, user);
        && |PrefixTokens(merges, byteMap)| < |tokens| && PrefixTokens(merges, byteMap) <= tokens
        && !E.BadToken(tokens) && exists at: nat :: S.FollowUpAt(tokens, at)
    {
      PrefixOfPrompt(merges, byteMap, user);
      PromptInVocabulary(v, merges, byteMap, user);
      var at := PromptFollowUp(v, merges, byteMap, user);
    }
  }

  // ---- staging the prompt ----

  const BEFORE: string := "<|im_start|>system\n" + SYSTEM_TEXT + "<|im_end|>\n<|im_start|>user\n"
  const AFTER: string := "<|im_end|>\n<|im_start|>assistant\n"

  /** The prompt as text. */
  function Rendered(user: seq<Byte>): (text: seq<Byte>)
    ensures |text| == 148 + |user|
  {
    Ascii(BEFORE) + user + Ascii(AFTER)
  }

  /** A copy of bytes into the scratch memory. */
  method CopyBytes(scratch: array<nat>, at: nat, bytes: seq<Byte>)
    requires at + |bytes| <= scratch.Length
    modifies scratch
    ensures scratch[..at] == old(scratch[..at]) && scratch[at..at + |bytes|] == bytes
  {
    for i := 0 to |bytes|
      invariant scratch[..at] == old(scratch[..at]) && scratch[at..at + i] == bytes[..i]
    {
      scratch[at + i] := bytes[i];
    }
  }

  /** What was there, and the copy behind it. */
  lemma CopiedBehind(now: seq<nat>, from: nat, middle: nat, end: nat, first: seq<nat>, second: seq<nat>)
    requires from <= middle <= end <= |now|
    requires now[..middle][from..] == first && now[middle..end] == second
    ensures now[..end][from..] == first + second
  {
    assert now[..end][from..] == now[..middle][from..] + now[middle..end];
  }

  /** The copies at the beginning of `compute_prompt`. */
  method StageRendered(scratch: array<nat>, user: seq<Byte>) returns (renderedBytes: nat)
    requires scratch.Length >= STAGED_RENDERED + |Rendered(user)|
    modifies scratch
    ensures renderedBytes == |Rendered(user)|
    ensures scratch[..STAGED_RENDERED + renderedBytes][STAGED_RENDERED..] == Rendered(user)
  {
    var before, after := Ascii(BEFORE), Ascii(AFTER);
    var second, third := STAGED_RENDERED + |before|, STAGED_RENDERED + |before| + |user|;
    renderedBytes := |before| + |user| + |after|;
    CopyBytes(scratch, STAGED_RENDERED, before);
    assert scratch[..second][STAGED_RENDERED..] == before;
    CopyBytes(scratch, second, user);
    CopiedBehind(scratch[..], STAGED_RENDERED, second, third, before, user);
    CopyBytes(scratch, third, after);
    CopiedBehind(scratch[..], STAGED_RENDERED, third, third + |after|, before + user, after);
  }

  lemma PartsGrow(merges: seq<Merge>, byteMap: ByteMap, parts: seq<Part>, i: nat)
    requires i < |parts|
    ensures PartsTokens(merges, byteMap, parts[..i + 1])
         == PartsTokens(merges, byteMap, parts[..i]) + PartTokens(merges, byteMap, parts[i])
    ensures |PartsTokens(merges, byteMap, parts[..i + 1])| <= |PartsTokens(merges, byteMap, parts)|
  {
    assert parts[..i + 1][..i] == parts[..i];
    assert parts == parts[..i + 1] + parts[i + 1..];
    PartsConcat(merges, byteMap, parts[..i + 1], parts[i + 1..]);
  }

  method StagePart(index: array<Slot>, ghost merges: seq<Merge>, byteMap: ByteMap, scratch: array<nat>,
                   staged: nat, ghost done: seq<nat>, part: Part)
      returns (error: Option<TokenError>, count: nat)
    requires Answers(index, merges) && Holding(scratch, staged, done) && PartBytes(part) <= MAX_SEGMENT
    modifies scratch
    ensures RenderedKept(scratch) && Extended(scratch, error, count, done, PartTokens(merges, byteMap, part))
  {
    match part {
      case Control(token) =>
        error, count := StageControl(scratch, staged, done, token);
      case Text(text) =>
        error, count := StageOrdinary(index, merges, byteMap, scratch, staged, done, text);
    }
  }

  method StageParts(index: array<Slot>, ghost merges: seq<Merge>, byteMap: ByteMap, scratch: array<nat>,
                    staged: nat, ghost done: seq<nat>, parts: seq<Part>)
      returns (error: Option<TokenError>, count: nat)
    requires Answers(index, merges) && Holding(scratch, staged, done)
    requires forall i | 0 <= i < |parts| :: PartBytes(parts[i]) <= MAX_SEGMENT
    modifies scratch
    ensures RenderedKept(scratch) && Extended(scratch, error, count, done, PartsTokens(merges, byteMap, parts))
  {
    count, error := staged, None;
    ghost var now := done;
    var i := 0;
    assert done + [] == done;
    while i < |parts|
      invariant i <= |parts| && error.None? && RenderedKept(scratch) && Holding(scratch, count, now)
      invariant now == done + PartsTokens(merges, byteMap, parts[..i])
    {
      PartsGrow(merges, byteMap, parts, i);
      ghost var out := PartTokens(merges, byteMap, parts[i]);
      Associate(done, PartsTokens(merges, byteMap, parts[..i]), out);
      error, count := StagePart(index, merges, byteMap, scratch, count, now, parts[i]);
      if error.Some? {
        return;
      }
      now := now + out;
      i := i + 1;
    }
    assert parts[..i] == parts;
  }

  /** `compute_prompt`: the rendered text and the tokens, and the counts it reports. */
  method ComputePrompt(index: array<Slot>, ghost merges: seq<Merge>, byteMap: ByteMap, scratch: array<nat>, user: seq<Byte>)
      returns (error: Option<TokenError>, count: nat, renderedBytes: nat, prefixTokens: nat, userTokens: nat)
    requires Answers(index, merges) && scratch.Length >= STAGED_RENDERED + |Rendered(user)| && |user| <= MAX_SEGMENT
    modifies scratch
    ensures renderedBytes == |Rendered(user)|
    ensures scratch[..STAGED_RENDERED + renderedBytes][STAGED_RENDERED..] == Rendered(user)
    ensures error.None? <==> |PromptTokens(merges, byteMap, user)| <= MAX_TOKENS
    ensures error.None? ==>
      && Holding(scratch, count, PromptTokens(merges, byteMap, user))
      && prefixTokens == |PrefixTokens(merges, byteMap)| && userTokens == |OrdinaryTokens(merges, byteMap, user)|
  {
    renderedBytes := StageRendered(scratch, user);
    ghost var kept := scratch[STAGED_RENDERED..];
    assert kept[..renderedBytes] == Rendered(user);
    error, count, prefixTokens, userTokens := StagePrompt(index, merges, byteMap, scratch, user);
    assert scratch[..STAGED_RENDERED + renderedBytes][STAGED_RENDERED..] == kept[..renderedBytes];
  }

  /** The tokens of `compute_prompt`. */
  method StagePrompt(index: array<Slot>, ghost merges: seq<Merge>, byteMap: ByteMap, scratch: array<nat>, user: seq<Byte>)
      returns (error: Option<TokenError>, count: nat, prefixTokens: nat, userTokens: nat)
    requires Answers(index, merges) && scratch.Length >= STAGED_RENDERED && |user| <= MAX_SEGMENT
    modifies scratch
    ensures RenderedKept(scratch)
    ensures error.None? <==> |PromptTokens(merges, byteMap, user)| <= MAX_TOKENS
    ensures error.None? ==>
      && Holding(scratch, count, PromptTokens(merges, byteMap, user))
      && prefixTokens == |PrefixTokens(merges, byteMap)| && userTokens == |OrdinaryTokens(merges, byteMap, user)|
  {
    prefixTokens, userTokens := 0, 0;
    ghost var prefix := PrefixTokens(merges, byteMap);
    ghost var middle := OrdinaryTokens(merges, byteMap, user);
    ghost var closing := PartsTokens(merges, byteMap, ClosingParts());
    PromptSplit(merges, byteMap, user);
    PartSizes();
    assert scratch[..0] == [] && [] + prefix == prefix;
    error, count := StageParts(index, merges, byteMap, scratch, 0, [], SystemParts() + UserParts());
    if error.Some? {
      return;
    }
    prefixTokens := count;
    error, count := StageOrdinary(index, merges, byteMap, scratch, count, prefix, user);
    if error.Some? {
      return;
    }
    userTokens := count - prefixTokens;
    error, count := StageParts(index, merges, byteMap, scratch, count, prefix + middle, ClosingParts());
  }

  lemma PromptSplit(merges: seq<Merge>, byteMap: ByteMap, user: seq<Byte>)
    ensures PromptTokens(merges, byteMap, user) ==
      PrefixTokens(merges, byteMap) + OrdinaryTokens(merges, byteMap, user) + PartsTokens(merges, byteMap, ClosingParts())
  {
    var prefix := SystemParts() + UserParts();
    PartsConcat(merges, byteMap, prefix + [Text(user)], ClosingParts());
    PartsConcat(merges, byteMap, prefix, [Text(user)]);
    OnePart(merges, byteMap, Text(user));
  }

  lemma PartSizes()
    ensures forall i | 0 <= i < 9 :: PartBytes((SystemParts() + UserParts())[i]) <= MAX_SEGMENT
    ensures forall i | 0 <= i < 5 :: PartBytes(ClosingParts()[i]) <= MAX_SEGMENT
  {
  }
}
