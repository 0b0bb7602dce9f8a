/**
 The two outputs of the prompt renderer agree: the tokens, decoded and with the names of the control tokens, are the
 rendered text.
 */
module PromptText {
  import opened Wrappers
  import opened Utf8
  import opened MergeIndex
  import opened Bpe
  import opened TokenText
  import opened Prompt
  import S = Session

  // ---- the text of the parts ----

  function ControlName(token: nat): seq<Byte> {
    Ascii(if token == S.IM_START then "<|im_start|>" else "<|im_end|>")
  }

  function PartText(part: Part): seq<Byte> {
    match part
    case Control(token) => ControlName(token)
    case Text(text) => text
  }

  function PartsText(parts: seq<Part>): seq<Byte> {
    if parts == [] then [] else PartsText(parts[..|parts| - 1]) + PartText(parts[|parts| - 1])
  }

  lemma AsciiConcat(a: string, b: string)
    ensures Ascii(a + b) == Ascii(a) + Ascii(b)
  {
  }

  lemma {:induction false} PartsTextConcat(a: seq<Part>, b: seq<Part>)
    ensures PartsText(a + b) == PartsText(a) + PartsText(b)
  {
    if b == [] {
      assert a + b == a;
    } else {
      var n := |b| - 1;
      assert (a + b)[..|a| + n] == a + b[..n];
      PartsTextConcat(a, b[..n]);
      assert PartsText(a) + (PartsText(b[..n]) + PartText(b[n])) == PartsText(a) + PartsText(b[..n]) + PartText(b[n]);
    }
  }

  lemma PartsTextOne(part: Part)
    ensures PartsText([part]) == PartText(part)
  {
    assert [part][..0] == [];
  }

  /** One more part, as a string. */
  lemma Spelled(parts: seq<Part>, s: string, part: Part, t: string)
    requires PartsText(parts) == Ascii(s) && PartText(part) == Ascii(t)
    ensures PartsText(parts + [part]) == Ascii(s + t)
  {
    PartsTextConcat(parts, [part]);
    PartsTextOne(part);
    AsciiConcat(s, t);
  }

  lemma SpelledFirst(part: Part, t: string)
    requires PartText(part) == Ascii(t)
    ensures PartsText([part]) == Ascii(t)
  {
    PartsTextOne(part);
  }

  lemma PartTexts()
    ensures PartText(Control(S.IM_START)) == Ascii("<|im_start|>") && PartText(Control(S.IM_END)) == Ascii("<|im_end|>")
    ensures PartText(Text(LINE_END)) == Ascii("\n")
  {
  }

  /** Three parts that open a message or close one. */
  lemma SpelledThree(a: Part, s: string, b: Part, t: string, c: Part, u: string, all: string)
    requires PartText(a) == Ascii(s) && PartText(b) == Ascii(t) && PartText(c) == Ascii(u) && s + t + u == all
    ensures PartsText([a, b, c]) == Ascii(all)
  {
    SpelledFirst(a, s);
    Spelled([a], s, b, t);
    assert [a] + [b] == [a, b] && [a, b] + [c] == [a, b, c];
    Spelled([a, b], s + t, c, u);
  }

  /** The fixed parts before the user's text. */
  lemma TextBefore()
    ensures PartsText(SystemParts() + UserParts()) == Ascii(BEFORE)
  {
    hide PartsText, Ascii;
    PartTexts();
    var start, text := Control(S.IM_START), Text(Ascii(SYSTEM_TEXT));
    var end, line := Control(S.IM_END), Text(LINE_END);
    var head, tail := [start, Text(Ascii("system")), line], [end, line];
    assert "<|im_start|>" + "system" + "\n" == "<|im_start|>system\n";
    SpelledThree(start, "<|im_start|>", Text(Ascii("system")), "system", line, "\n", "<|im_start|>system\n");
    assert "<|im_start|>" + "user" + "\n" == "<|im_start|>user\n";
    SpelledThree(start, "<|im_start|>", Text(Ascii("user")), "user", line, "\n", "<|im_start|>user\n");
    var opening := "<|im_start|>system\n" + SYSTEM_TEXT;
    Spelled(head, "<|im_start|>system\n", text, SYSTEM_TEXT);
    Spelled(head + [text], opening, end, "<|im_end|>");
    Spelled(head + [text] + [end], opening + "<|im_end|>", line, "\n");
    assert SystemParts() == head + [text] + [end] + [line];
    PartsTextConcat(SystemParts(), UserParts());
    AsciiConcat(opening + "<|im_end|>" + "\n", "<|im_start|>user\n");
    Regroup(opening, "<|im_end|>", "\n", "<|im_start|>user\n");
    assert "<|im_end|>" + "\n" + "<|im_start|>user\n" == "<|im_end|>\n<|im_start|>user\n";
  }

  lemma Regroup(a: string, b: string, c: string, d: string)
    ensures a + b + c + d == a + (b + c + d)
  {
  }

  /** The fixed parts behind it. */
  lemma TextAfter()
    ensures PartsText(ClosingParts()) == Ascii(AFTER)
  {
    hide PartsText, Ascii;
    PartTexts();
    var start, end, line := Control(S.IM_START), Control(S.IM_END), Text(LINE_END);
    var head, tail := [end, line], [start, Text(Ascii("assistant")), line];
    SpelledFirst(end, "<|im_end|>");
    Spelled([end], "<|im_end|>", line, "\n");
    assert [end] + [line] == head && "<|im_end|>" + "\n" == "<|im_end|>\n";
    assert "<|im_start|>" + "assistant" + "\n" == "<|im_start|>assistant\n";
    SpelledThree(start, "<|im_start|>", Text(Ascii("assistant")), "assistant", line, "\n", "<|im_start|>assistant\n");
    assert ClosingParts() == head + tail;
    PartsTextConcat(head, tail);
    AsciiConcat("<|im_end|>\n", "<|im_start|>assistant\n");
    assert "<|im_end|>\n" + "<|im_start|>assistant\n" == AFTER;
  }

  /** The rendered text is the text of the parts that the tokens are made of. */
  lemma RenderedParts(user: seq<Byte>)
    ensures PartsText(PromptParts(user)) == Rendered(user)
  {
    hide PartsText, Ascii;
    var prefix := SystemParts() + UserParts();
    TextBefore();
    TextAfter();
    PartsTextConcat(prefix, [Text(user)]);
    PartsTextOne(Text(user));
    PartsTextConcat(prefix + [Text(user)], ClosingParts());
    assert PromptParts(user) == prefix + [Text(user)] + ClosingParts();
  }

  // ---- what the tokens show ----

  predicate IsControl(token: nat) {
    token == S.IM_START || token == S.IM_END
  }

  ghost function ShownToken(v: Vocabulary, token: nat): Option<seq<Byte>>
    requires |v.types| == |v.pieces|
  {
    if IsControl(token) then Some(ControlName(token)) else TokenText.TokenText(v, token)
  }

  /** Decoding tokens one by one, with the names of the two control tokens. */
  ghost function Shown(v: Vocabulary, tokens: seq<nat>): Option<seq<Byte>>
    requires |v.types| == |v.pieces|
  {
    if tokens == [] then Some([])
    else Join(Shown(v, tokens[..|tokens| - 1]), ShownToken(v, tokens[|tokens| - 1]))
  }

  lemma {:induction false} ShownConcat(v: Vocabulary, a: seq<nat>, b: seq<nat>)
    requires |v.types| == |v.pieces|
    ensures Shown(v, a + b) == Join(Shown(v, a), Shown(v, b))
  {
    if b == [] {
      assert a + b == a;
      assert Shown(v, a).Some? ==> Shown(v, a).value + [] == Shown(v, a).value;
    } else {
      var shorter := b[..|b| - 1];
      assert (a + b)[..|a + b| - 1] == a + shorter;
      ShownConcat(v, a, shorter);
      JoinAssociates(Shown(v, a), Shown(v, shorter), ShownToken(v, b[|b| - 1]));
    }
  }

  predicate NoControls(tokens: seq<nat>) {
    forall i | 0 <= i < |tokens| :: !IsControl(tokens[i])
  }

  lemma {:induction false} ShownPlain(v: Vocabulary, tokens: seq<nat>)
    requires |v.types| == |v.pieces| && NoControls(tokens)
    ensures Shown(v, tokens) == DecodeAll(v, tokens)
  {
    if tokens != [] {
      ShownPlain(v, tokens[..|tokens| - 1]);
    }
  }

  /** Both control tokens have the type of one. */
  ghost predicate GoodControls(v: Vocabulary, merges: seq<Merge>, byteMap: ByteMap) {
    GoodPromptVocabulary(v, merges, byteMap) && v.types[S.IM_END] == CONTROL
  }

  lemma FragmentsNoControls(v: Vocabulary, merges: seq<Merge>, byteMap: ByteMap, text: seq<Byte>)
    requires GoodControls(v, merges, byteMap)
    ensures NoControls(FragmentTokens(merges, byteMap, text))
  {
    FragmentsNormal(v, merges, byteMap, text);
    var tokens := FragmentTokens(merges, byteMap, text);
    forall i | 0 <= i < |tokens| ensures !IsControl(tokens[i]) {
      assert IsNormal(v, tokens[i]);
    }
  }

  lemma NoControlsConcat(a: seq<nat>, token: nat, b: seq<nat>)
    requires NoControls(a) && !IsControl(token) && NoControls(b)
    ensures NoControls(a + [token] + b)
  {
  }

  lemma {:induction false} TextNoControls(v: Vocabulary, merges: seq<Merge>, byteMap: ByteMap, text: seq<Byte>)
    requires GoodControls(v, merges, byteMap)
    ensures NoControls(OrdinaryTokens(merges, byteMap, text))
    decreases |text|
  {
    if text == [] {
    } else if NextSpecial(text, 0) == |text| {
      OrdinaryPlain(merges, byteMap, text);
      FragmentsNoControls(v, merges, byteMap, text);
    } else {
      var at, token, end := OrdinaryCut(merges, byteMap, text);
      FragmentsNoControls(v, merges, byteMap, text[..at]);
      TextNoControls(v, merges, byteMap, text[end..]);
      NoControlsConcat(FragmentTokens(merges, byteMap, text[..at]), token, OrdinaryTokens(merges, byteMap, text[end..]));
    }
  }

  lemma PartShown(v: Vocabulary, merges: seq<Merge>, byteMap: ByteMap, part: Part)
    requires GoodControls(v, merges, byteMap) && (part.Control? ==> IsControl(part.token))
    ensures Shown(v, PartTokens(merges, byteMap, part)) == Some(PartText(part))
  {
    match part
    case Control(token) =>
      assert [token][..0] == [];
      assert [] + ControlName(token) == ControlName(token);
    case Text(text) =>
      TextNoControls(v, merges, byteMap, text);
      ShownPlain(v, OrdinaryTokens(merges, byteMap, text));
      RoundTrip(v, merges, byteMap, text);
  }

  predicate KnownControls(parts: seq<Part>) {
    forall i | 0 <= i < |parts| :: parts[i].Control? ==> IsControl(parts[i].token)
  }

  lemma PromptKnownControls(user: seq<Byte>)
    ensures KnownControls(PromptParts(user))
  {
  }

  lemma {:induction false} PartsShown(v: Vocabulary, merges: seq<Merge>, byteMap: ByteMap, parts: seq<Part>)
    requires GoodControls(v, merges, byteMap) && KnownControls(parts)
    ensures Shown(v, PartsTokens(merges, byteMap, parts)) == Some(PartsText(parts))
  {
    if parts != [] {
      var before, last := parts[..|parts| - 1], parts[|parts| - 1];
      PartsShown(v, merges, byteMap, before);
      PartShown(v, merges, byteMap, last);
      ShownConcat(v, PartsTokens(merges, byteMap, before), PartTokens(merges, byteMap, last));
    }
  }

  /** Decoded one by one, the tokens of a prompt are its rendered text, for every user text. */
  lemma TokensShowText(v: Vocabulary, merges: seq<Merge>, byteMap: ByteMap, user: seq<Byte>)
    requires GoodControls(v, merges, byteMap)
    ensures Shown(v, PromptTokens(merges, byteMap, user)) == Some(Rendered(user))
  {
    hide PromptParts, Rendered, KnownControls, GoodControls, Shown, PartsTokens, PartsText;
    PromptKnownControls(user);
    PartsShown(v, merges, byteMap, PromptParts(user));
    RenderedParts(user);
  }

  // ---- what a follow-up adds ----

  /**
   The tokens that a follow-up prompt adds to a conversation show the newline behind its last end, and the next message
   of the user up to where the reply starts.
   */
  lemma FollowUpShows(v: Vocabulary, merges: seq<Merge>, byteMap: ByteMap, user: seq<Byte>, at: nat)
    requires GoodControls(v, merges, byteMap) && S.FollowUpAt(PromptTokens(merges, byteMap, user), at)
    ensures Shown(v, PromptTokens(merges, byteMap, user)[at..])
         == Some(Ascii("\n<|im_start|>user\n") + user + Ascii("<|im_end|>\n<|im_start|>assistant\n"))
  {
    hide Shown, PartsTokens, PartsText, Ascii, GoodControls, S.FollowUpAt;
    var system, rest := SystemParts()[..5], [Text(LINE_END)] + UserParts() + [Text(user)] + ClosingParts();
    assert PromptParts(user) == system + rest;
    var here := FollowUpPlace(v, merges, byteMap, user);
    S.FollowUpUnique(PromptTokens(merges, byteMap, user), at, here);
    PartsConcat(merges, byteMap, system, rest);
    assert PromptTokens(merges, byteMap, user)[at..] == PartsTokens(merges, byteMap, rest);
    PartsShown(v, merges, byteMap, rest);
    FollowUpText(user);
  }

  /** The follow-up starts where the last part of the system message does. */
  lemma FollowUpPlace(v: Vocabulary, merges: seq<Merge>, byteMap: ByteMap, user: seq<Byte>) returns (at: nat)
    requires GoodControls(v, merges, byteMap)
    ensures S.FollowUpAt(PromptTokens(merges, byteMap, user), at)
    ensures at == |PartsTokens(merges, byteMap, SystemParts()[..5])|
  {
    hide PromptTokens, S.FollowUpAt, GoodPromptVocabulary;
    at := PromptFollowUp(v, merges, byteMap, user);
    LastLine(merges, byteMap);
  }

  lemma LastLine(merges: seq<Merge>, byteMap: ByteMap)
    ensures |PartsTokens(merges, byteMap, SystemParts())| == |PartsTokens(merges, byteMap, SystemParts()[..5])| + 1
  {
    hide PartsTokens;
    assert SystemParts() == SystemParts()[..5] + [Text(LINE_END)];
    PartsConcat(merges, byteMap, SystemParts()[..5], [Text(LINE_END)]);
    OnePart(merges, byteMap, Text(LINE_END));
    LineEndToken(merges, byteMap);
  }

  lemma FollowUpText(user: seq<Byte>)
    ensures PartsText([Text(LINE_END)] + UserParts() + [Text(user)] + ClosingParts())
         == Ascii("\n<|im_start|>user\n") + user + Ascii("<|im_end|>\n<|im_start|>assistant\n")
  {
    hide PartsText, Ascii;
    PartTexts();
    TextAfter();
    assert "<|im_start|>" + "user" + "\n" == "<|im_start|>user\n";
    SpelledThree(Control(S.IM_START), "<|im_start|>", Text(Ascii("user")), "user", Text(LINE_END), "\n",
                 "<|im_start|>user\n");
    SpelledFirst(Text(LINE_END), "\n");
    PartsTextConcat([Text(LINE_END)], UserParts());
    AsciiConcat("\n", "<|im_start|>user\n");
    assert "\n" + "<|im_start|>user\n" == "\n<|im_start|>user\n";
    PartsTextConcat([Text(LINE_END)] + UserParts(), [Text(user)]);
    PartsTextOne(Text(user));
    PartsTextConcat([Text(LINE_END)] + UserParts() + [Text(user)], ClosingParts());
  }

  // ---- what a turn saves ----

  /** The vocabulary gives its two ends of text the type of control tokens. */
  predicate GoodEnds(v: Vocabulary) {
    && |v.types| == |v.pieces| && |v.pieces| > 151_645
    && v.types[151_643] == CONTROL && v.types[151_645] == CONTROL
  }

  /** The first `n` iterations take the end of text from the kind of the selected token. */
  predicate KindsRead(v: Vocabulary, env: S.Env, n: nat)
    requires |v.types| == |v.pieces|
  {
    forall i: nat | i < n ::
      var m := S.MomentAt(env, i);
      m.token < |v.pieces| && (m.eos <==> KindOf(v, m.token) == Some(EOS))
  }

  lemma {:induction false} RepliesAt(env: S.Env, n: nat, i: nat)
    requires i < n
    ensures S.Replies(env, n)[i] == S.Reply(S.MomentAt(env, i))
  {
    if i < n - 1 {
      RepliesAt(env, n - 1, i);
    }
  }

  /**
   What a turn adds to the conversation holds <|im_end|> exactly once, as its last token, and never <|endoftext|>; the
   token selected last was one of the two.
   */
  lemma ReplyClosesOnce(v: Vocabulary, env: S.Env, prompt: seq<nat>, next: seq<nat>, i: nat)
    requires GoodEnds(v) && S.ClosedTurn(prompt, env, next) && KindsRead(v, env, |next| - |prompt|)
    requires |prompt| <= i < |next|
    ensures next[i] != 151_643 && (next[i] == 151_645 <==> i == |next| - 1)
    ensures i == |next| - 1 ==> S.MomentAt(env, i - |prompt|).token in {151_643, 151_645}
  {
    var n := |next| - |prompt|;
    RepliesAt(env, n, i - |prompt|);
    if i < |next| - 1 {
      S.OpenBefore(env, i - |prompt| + 1, n - 1);
    }
  }
}
