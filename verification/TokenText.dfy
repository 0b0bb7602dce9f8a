/**
 Text to tokens and back.  Whatever the text, decoding the tokens that stand for it piece by piece gives the
 text again: the byte alphabet is reversible, merging keeps what is spelled, and the pre-tokens tile the text.
 */
module TokenText {
  import opened Wrappers
  import opened Utf8
  import opened MergeIndex
  import opened Bpe
  import opened Pretoken

  // ---- the byte alphabet ----

  /** Bytes that stand for themselves. */
  predicate IsPlain(b: nat) {
    0x21 <= b <= 0x7e || 0xa1 <= b <= 0xac || 0xae <= b <= 0xff
  }

  /** How many bytes below `b` do not stand for themselves. */
  function Ordinal(b: nat): (n: nat)
    ensures n <= b
  {
    if b == 0 then 0 else Ordinal(b - 1) + if IsPlain(b - 1) then 0 else 1
  }

  lemma {:induction false} OrdinalGrows(a: nat, b: nat)
    requires a <= b
    ensures Ordinal(a) <= Ordinal(b) && (a < b && !IsPlain(a) ==> Ordinal(a) < Ordinal(b))
  {
    if a + 1 < b {
      OrdinalGrows(a, b - 1);
    }
  }

  /** The character that stands for a byte. */
  function Codepoint(b: Byte): (c: Scalar)
    ensures 0 < c < 0x200
  {
    if IsPlain(b) then b else 0x100 + Ordinal(b)
  }

  /** Different bytes have different characters. */
  lemma CodepointInjective(a: Byte, b: Byte)
    requires Codepoint(a) == Codepoint(b)
    ensures a == b
  {
    if a < b {
      OrdinalGrows(a, b);
    } else if b < a {
      OrdinalGrows(b, a);
    }
  }

  /** The count grows over the bytes up to the space, over those from 0x7f to 0xa0, and over 0xad. */
  lemma {:induction false} OrdinalIs(b: Byte)
    ensures Ordinal(b) == if b <= 0x21 then b else if b <= 0x7f then 0x21
                          else if b <= 0xa1 then 0x21 + (b - 0x7f) else if b <= 0xad then 0x43 else 0x44
  {
    if b > 0 {
      OrdinalIs(b - 1);
    }
  }

  /**
   The alphabet, byte by byte: printable bytes stand for themselves, and the 68 others get the characters U+0100 to
   U+0143 in their order and without a gap.
   */
  lemma Alphabet(b: Byte)
    ensures b <= 0x20 ==> Codepoint(b) == 0x100 + b
    ensures 0x21 <= b <= 0x7e ==> Codepoint(b) == b
    ensures 0x7f <= b <= 0xa0 ==> Codepoint(b) == 0x121 + (b - 0x7f)
    ensures b == 0xad ==> Codepoint(b) == 0x143
    ensures 0xa1 <= b && b != 0xad ==> Codepoint(b) == b
  {
    OrdinalIs(b);
  }

  /** `gpt2_codepoint`. */
  method Gpt2Codepoint(b: Byte) returns (c: nat)
    ensures c == Codepoint(b)
  {
    if IsPlain(b) {
      return b;
    }
    var ordinal, candidate := 0, 0;
    while candidate < b
      invariant candidate <= b && ordinal == Ordinal(candidate)
    {
      if !IsPlain(candidate) {
        ordinal := ordinal + 1;
      }
      candidate := candidate + 1;
    }
    c := 256 + ordinal;
  }

  /** `encoded_byte`: the character of a byte in UTF-8. */
  method EncodedByte(b: Byte) returns (piece: seq<Byte>)
    ensures piece == EncodeScalar(Codepoint(b))
  {
    var point := Gpt2Codepoint(b);
    if point < 0x80 {
      return [point];
    }
    piece := [0xc0 + point / 64, 0x80 + point % 64];
  }

  /** The inverse, as the decoder looks for it: the first byte with that character. */
  method FindByte(c: nat) returns (b: Option<Byte>)
    ensures b.Some? ==> Codepoint(b.value) == c
    ensures b.None? ==> forall x: Byte :: Codepoint(x) != c
  {
    var byte := 0;
    while byte < 256
      invariant byte <= 256
      invariant forall x: Byte | x < byte :: Codepoint(x) != c
    {
      var point := Gpt2Codepoint(byte);
      if point == c {
        return Some(byte);
      }
      byte := byte + 1;
    }
    b := None;
  }

  /** Bytes as the characters that stand for them. */
  function Characters(s: seq<Byte>): seq<Scalar> {
    seq(|s|, i requires 0 <= i < |s| => Codepoint(s[i]))
  }

  lemma CharactersInjective(a: seq<Byte>, b: seq<Byte>)
    requires Characters(a) == Characters(b)
    ensures a == b
  {
    assert |a| == |Characters(a)| == |Characters(b)| == |b|;
    forall i | 0 <= i < |a| ensures a[i] == b[i] {
      assert Characters(a)[i] == Characters(b)[i];
      CodepointInjective(a[i], b[i]);
    }
  }

  /** How a piece of the vocabulary writes the bytes `s`. */
  function Written(s: seq<Byte>): seq<Byte> {
    Encode(Characters(s))
  }

  lemma WrittenConcat(a: seq<Byte>, b: seq<Byte>)
    ensures Written(a + b) == Written(a) + Written(b)
  {
    assert Characters(a + b) == Characters(a) + Characters(b);
    EncodeConcat(Characters(a), Characters(b));
  }

  lemma WrittenDecodes(s: seq<Byte>)
    ensures Decode(Written(s)) == Ok(Decoded(Characters(s), []))
  {
    DecodeExact(Written(s), Characters(s));
  }

  // ---- the vocabulary ----

  const IM_END := 151_645
  const END_OF_TEXT := 151_643
  const TOOL_CALL_TOKEN := 151_657
  const TOOL_END_TOKEN := 151_658
  const PIECE_BYTES := 128

  const NORMAL := 1
  const CONTROL := 3
  const USER_DEFINED := 4
  const UNUSED_TYPE := 5

  /** "<tool_call>" */
  const TOOL_CALL: seq<Byte> := [0x3c, 0x74, 0x6f, 0x6f, 0x6c, 0x5f, 0x63, 0x61, 0x6c, 0x6c, 0x3e]
  /** "</tool_call>" */
  const TOOL_END: seq<Byte> := [0x3c, 0x2f, 0x74, 0x6f, 0x6f, 0x6c, 0x5f, 0x63, 0x61, 0x6c, 0x6c, 0x3e]

  datatype Vocabulary = Vocabulary(pieces: seq<seq<Byte>>, types: seq<nat>)

  predicate IsNormal(v: Vocabulary, token: nat) {
    |v.types| == |v.pieces| && token < |v.pieces| && v.types[token] == NORMAL
  }

  /** A normal token whose piece writes the bytes `s`. */
  predicate Writes(v: Vocabulary, token: nat, s: seq<Byte>) {
    IsNormal(v, token) && v.pieces[token] == Written(s)
  }

  /** Every merge gives a normal token, and its piece is the two pieces together. */
  ghost predicate GoodMerges(v: Vocabulary, merges: seq<Merge>) {
    forall i | 0 <= i < |merges| ::
      var m := merges[i];
      && IsNormal(v, m.result) && m.left < |v.pieces| && m.right < |v.pieces|
      && v.pieces[m.result] == v.pieces[m.left] + v.pieces[m.right]
  }

  ghost predicate GoodBytes(v: Vocabulary, byteMap: ByteMap) {
    forall b: Byte :: Writes(v, byteMap[b], [b])
  }

  ghost predicate PiecesFit(v: Vocabulary) {
    forall token: nat, s :: Writes(v, token, s) ==> |s| <= PIECE_BYTES
  }

  predicate GoodTools(v: Vocabulary) {
    && |v.types| == |v.pieces| > TOOL_END_TOKEN
    && v.types[TOOL_CALL_TOKEN] == USER_DEFINED && v.pieces[TOOL_CALL_TOKEN] == TOOL_CALL
    && v.types[TOOL_END_TOKEN] == USER_DEFINED && v.pieces[TOOL_END_TOKEN] == TOOL_END
  }

  /** What loading the model has checked, and the two user-defined tokens. */
  ghost predicate GoodVocabulary(v: Vocabulary, merges: seq<Merge>, byteMap: ByteMap) {
    GoodMerges(v, merges) && GoodBytes(v, byteMap) && PiecesFit(v) && GoodTools(v)
  }

  // ---- the byte map ----

  /** The first token whose piece writes the byte. */
  ghost predicate FirstToken(pieces: seq<seq<Byte>>, b: Byte, token: nat) {
    && token < |pieces| && pieces[token] == EncodeScalar(Codepoint(b))
    && forall t: nat | t < token :: pieces[t] != EncodeScalar(Codepoint(b))
  }

  ghost predicate NoToken(pieces: seq<seq<Byte>>, b: Byte) {
    EncodeScalar(Codepoint(b)) !in pieces
  }

  /** One token of the first loop of `construct`. */
  method MapToken(ghost pieces: seq<seq<Byte>>, token: nat, piece: seq<Byte>, ids: array<Option<nat>>)
    requires ids.Length == 256 && token < |pieces| && piece == pieces[token]
    requires forall b: Byte :: if ids[b].Some? then FirstToken(pieces, b, ids[b].value) else NoToken(pieces[..token], b)
    modifies ids
    ensures forall b: Byte ::
      if ids[b].Some? then FirstToken(pieces, b, ids[b].value) else NoToken(pieces[..token + 1], b)
  {
    if |piece| <= 2 {
      var byte := 0;
      while byte < 256
        invariant byte <= 256
        invariant forall b: Byte | byte <= b :: ids[b] == old(ids[b])
        invariant forall b: Byte | b < byte ::
          if ids[b].Some? then FirstToken(pieces, b, ids[b].value) else NoToken(pieces[..token + 1], b)
      {
        assert pieces[..token + 1] == pieces[..token] + [piece];
        if ids[byte].None? {
          var encoded := EncodedByte(byte);
          if piece == encoded {
            ids[byte] := Some(token);
          }
        }
        byte := byte + 1;
      }
    } else {
      assert pieces[..token + 1] == pieces[..token] + [piece];
      forall b: Byte ensures |EncodeScalar(Codepoint(b))| <= 2 {
      }
    }
  }

  /** The byte map of `construct`: the first token of every byte, or the first byte that has none. */
  method BuildByteMap(pieces: seq<seq<Byte>>) returns (map_: Result<ByteMap, Byte>)
    ensures map_.Ok? ==> forall b: Byte :: FirstToken(pieces, b, map_.value[b])
    ensures map_.Err? ==> NoToken(pieces, map_.error) && forall b: Byte | b < map_.error :: !NoToken(pieces, b)
  {
    var ids := new Option<nat>[256](_ => None);
    var token := 0;
    while token < |pieces|
      invariant token <= |pieces|
      invariant forall b: Byte :: if ids[b].Some? then FirstToken(pieces, b, ids[b].value) else NoToken(pieces[..token], b)
    {
      MapToken(pieces, token, pieces[token], ids);
      token := token + 1;
    }
    assert pieces[..token] == pieces;
    var result: seq<nat> := [];
    while |result| < 256
      invariant |result| <= 256
      invariant forall b: Byte | b < |result| :: FirstToken(pieces, b, result[b])
      decreases 256 - |result|
    {
      var b := |result|;
      if ids[b].None? {
        forall x: Byte | x < b ensures !NoToken(pieces, x) {
          assert pieces[result[x]] in pieces;
        }
        return Err(b);
      }
      result := result + [ids[b].value];
    }
    map_ := Ok(result);
  }

  // ---- ordinary text ----

  /** What starts at some place of the text: nothing special, or one of the two user-defined tokens. */
  datatype Special = Plain | Tool(token: nat, length: nat)

  predicate StartsWith(text: seq<Byte>, at: nat, word: seq<Byte>) {
    at + |word| <= |text| && text[at..at + |word|] == word
  }

  function SpecialAt(text: seq<Byte>, at: nat): (s: Special)
    ensures s.Tool? ==> 0 < s.length && at + s.length <= |text|
  {
    if StartsWith(text, at, TOOL_CALL) then Tool(TOOL_CALL_TOKEN, |TOOL_CALL|)
    else if StartsWith(text, at, TOOL_END) then Tool(TOOL_END_TOKEN, |TOOL_END|)
    else Plain
  }

  /** The first special place at or after `at`, or the end of the text. */
  function NextSpecial(text: seq<Byte>, at: nat): (next: nat)
    requires at <= |text|
    ensures at <= next <= |text| && (next < |text| ==> SpecialAt(text, next).Tool?)
    ensures forall i | at <= i < next :: SpecialAt(text, i).Plain?
    decreases |text| - at
  {
    if at == |text| || SpecialAt(text, at).Tool? then at else NextSpecial(text, at + 1)
  }

  /** `next_user_defined`. */
  method NextUserDefined(text: seq<Byte>) returns (at: nat, special: Special)
    ensures at == NextSpecial(text, 0)
    ensures special == if at < |text| then SpecialAt(text, at) else Plain
  {
    at := 0;
    while at < |text|
      invariant at <= |text| && NextSpecial(text, at) == NextSpecial(text, 0)
    {
      special := SpecialAt(text, at);
      if special.Tool? {
        return;
      }
      at := at + 1;
    }
    special := Plain;
  }

  /** Tokens of text without anything special: each pre-token merged on its own. */
  function FragmentTokens(merges: seq<Merge>, byteMap: ByteMap, text: seq<Byte>): seq<nat> {
    if text == [] then []
    else
      var length := PretokenSize(text);
      PretokenTokens(merges, byteMap, text[..length]) + FragmentTokens(merges, byteMap, text[length..])
  }

  /** Tokens of any text. */
  function OrdinaryTokens(merges: seq<Merge>, byteMap: ByteMap, text: seq<Byte>): seq<nat>
    decreases |text|
  {
    if text == [] then []
    else
      var at := NextSpecial(text, 0);
      var before := FragmentTokens(merges, byteMap, text[..at]);
      if at == |text| then before
      else
        var special := SpecialAt(text, at);
        before + [special.token] + OrdinaryTokens(merges, byteMap, text[at + special.length..])
  }

  // ---- decoding ----

  datatype PieceKind = TEXT | EOS | SUPPRESSED

  datatype DecodeError = UnknownToken | BadType | Undecodable | PieceTooLong | OutputTooSmall

  /** The bytes of a run of characters, when every one stands for a byte. */
  ghost function BytesOf(text: seq<Scalar>): (s: Option<seq<Byte>>)
    ensures s.Some? ==> Characters(s.value) == text
    ensures s.None? ==> forall b: seq<Byte> :: Characters(b) != text
  {
    if exists b: seq<Byte> :: Characters(b) == text then
      var b: seq<Byte> :| Characters(b) == text;
      Some(b)
    else None
  }

  /** The first character that stands for no byte, or the end. */
  ghost function Mapped(text: seq<Scalar>, from: nat): (i: nat)
    requires from <= |text|
    ensures from <= i <= |text|
    ensures forall k | from <= k < i :: exists b: Byte :: Codepoint(b) == text[k]
    ensures i < |text| ==> forall b: Byte :: Codepoint(b) != text[i]
    decreases |text| - from
  {
    if from < |text| && exists b: Byte :: Codepoint(b) == text[from] then Mapped(text, from + 1) else from
  }

  /** Why a run of characters gives no bytes: one of the first 129 stands for none, or there are too many. */
  ghost function PieceError(text: seq<Scalar>): Option<DecodeError> {
    var mapped := Mapped(text, 0);
    if mapped < |text| && mapped <= PIECE_BYTES then Some(Undecodable)
    else if |text| > PIECE_BYTES then Some(PieceTooLong)
    else None
  }

  /** The same for a normal token. */
  ghost function NormalError(piece: seq<Byte>): Option<DecodeError> {
    match Decode(piece)
    case Err(_) => Some(Undecodable)
    case Ok(d) => if d.rest == [] then PieceError(d.text) else Some(Undecodable)
  }

  /** What a piece stands for. */
  ghost function PieceText(v: Vocabulary, token: nat): Option<seq<Byte>>
    requires token < |v.pieces| == |v.types|
  {
    if v.types[token] == USER_DEFINED then Some(v.pieces[token])
    else
      match Decode(v.pieces[token])
      case Err(_) => None
      case Ok(d) => if d.rest == [] then BytesOf(d.text) else None
  }

  function KindOf(v: Vocabulary, token: nat): Option<PieceKind>
    requires token < |v.pieces| == |v.types|
  {
    var t := v.types[token];
    if t == NORMAL || t == USER_DEFINED then Some(TEXT)
    else if t == CONTROL && (token == IM_END || token == END_OF_TEXT) then Some(EOS)
    else if t == CONTROL || t == UNUSED_TYPE then Some(SUPPRESSED)
    else None
  }

  /** The kinds by the numbers of the token types; any other type has none. */
  lemma KindByType(v: Vocabulary, token: nat)
    requires token < |v.pieces| == |v.types|
    ensures var t, kind := v.types[token], KindOf(v, token);
      && (kind == Some(TEXT) <==> t in {1, 4})
      && (kind == Some(EOS) <==> t == 3 && token in {151_643, 151_645})
      && (kind == Some(SUPPRESSED) <==> t == 5 || (t == 3 && token !in {151_643, 151_645}))
      && (kind == None <==> t !in {1, 3, 4, 5})
  {
  }

  /** `decode_piece`: kind and bytes of a token, or why there are none; the output is written only on success. */
  method DecodePiece(v: Vocabulary, token: nat, output: array<Byte>)
      returns (r: Result<(PieceKind, nat), DecodeError>)
    requires |v.types| == |v.pieces|
    modifies output
    ensures token >= |v.pieces| ==> r == Err(UnknownToken)
    ensures token < |v.pieces| ==>
      match KindOf(v, token)
      case None => r == Err(BadType)
      case Some(TEXT) =>
        (match PieceText(v, token)
         case None => v.types[token] == NORMAL && NormalError(v.pieces[token]).Some?
                   && r == Err(NormalError(v.pieces[token]).value)
         case Some(s) =>
           if |s| > PIECE_BYTES then r == Err(PieceTooLong)
           else if |s| > output.Length then r == Err(OutputTooSmall)
           else r == Ok((TEXT, |s|)) && output[..|s|] == s)
      case Some(kind) => r == Ok((kind, 0))
    ensures r.Err? ==> unchanged(output)
    ensures r.Ok? ==> r.value.1 <= output.Length && output[r.value.1..] == old(output[r.value.1..])
  {
    if token >= |v.pieces| {
      return Err(UnknownToken);
    }
    var kind := KindOf(v, token);
    if kind.None? {
      return Err(BadType);
    }
    if kind.value != TEXT {
      return Ok((kind.value, 0));
    }
    var staged;
    if v.types[token] == USER_DEFINED {
      staged := v.pieces[token];
      if |staged| > PIECE_BYTES {
        return Err(PieceTooLong);
      }
    } else {
      var decoded := Decode(v.pieces[token]);
      if decoded.Err? || decoded.value.rest != [] {
        return Err(Undecodable);
      }
      var error, bytes := StagePiece(decoded.value.text);
      if error.Some? {
        return Err(error.value);
      }
      staged := bytes;
    }
    if output.Length < |staged| {
      return Err(OutputTooSmall);
    }
    Utf8Decoder.Copy(staged, output, 0);
    return Ok((TEXT, |staged|));
  }

  /** The character loop of `decode_piece`. */
  method StagePiece(text: seq<Scalar>) returns (error: Option<DecodeError>, staged: seq<Byte>)
    ensures error == PieceError(text)
    ensures match BytesOf(text)
            case None => error.Some?
            case Some(s) => if |s| > PIECE_BYTES then error == Some(PieceTooLong) else error == None && staged == s
  {
    error, staged := None, [];
    while |staged| < |text|
      invariant |staged| <= |text| && |staged| <= PIECE_BYTES && Characters(staged) == text[..|staged|]
      invariant Mapped(text, |staged|) == Mapped(text, 0)
      decreases |text| - |staged|
    {
      var i := |staged|;
      var b := FindByte(text[i]);
      if b.None? {
        NoBytes(text, i);
        return Some(Undecodable), staged;
      }
      if i == PIECE_BYTES {
        TooMany(text, i);
        return Some(PieceTooLong), staged;
      }
      assert Characters(staged + [b.value]) == Characters(staged) + [Codepoint(b.value)];
      staged := staged + [b.value];
    }
    assert text[..|staged|] == text;
    CharactersInjective(staged, BytesOf(text).value);
  }

  /** Beyond the limit nothing else matters. */
  lemma TooMany(text: seq<Scalar>, i: nat)
    requires i < |text| && i == PIECE_BYTES && Mapped(text, i) == Mapped(text, 0)
    requires exists b: Byte :: Codepoint(b) == text[i]
    ensures PieceError(text) == Some(PieceTooLong)
    ensures BytesOf(text).Some? ==> |BytesOf(text).value| > PIECE_BYTES
  {
    if BytesOf(text).Some? {
      assert |Characters(BytesOf(text).value)| == |BytesOf(text).value|;
    }
  }

  lemma NoBytes(text: seq<Scalar>, i: nat)
    requires i < |text| && forall x: Byte :: Codepoint(x) != text[i]
    ensures BytesOf(text).None?
  {
    forall s: seq<Byte> ensures Characters(s) != text {
      assert |Characters(s)| == |s|;
      if i < |s| {
        assert Characters(s)[i] == Codepoint(s[i]);
      }
    }
  }

  /** The text a token contributes, when it has any and decoding succeeds. */
  ghost function TokenText(v: Vocabulary, token: nat): Option<seq<Byte>>
    requires |v.types| == |v.pieces|
  {
    if token >= |v.pieces| || KindOf(v, token) != Some(TEXT) then None
    else
      var text := PieceText(v, token);
      if text.Some? && |text.value| <= PIECE_BYTES then text else None
  }

  function Join(a: Option<seq<Byte>>, b: Option<seq<Byte>>): Option<seq<Byte>> {
    if a.Some? && b.Some? then Some(a.value + b.value) else None
  }

  lemma JoinAssociates(a: Option<seq<Byte>>, b: Option<seq<Byte>>, c: Option<seq<Byte>>)
    ensures Join(Join(a, b), c) == Join(a, Join(b, c))
  {
    if a.Some? && b.Some? && c.Some? {
      assert a.value + b.value + c.value == a.value + (b.value + c.value);
    }
  }

  /** Decoding tokens one by one. */
  ghost function DecodeAll(v: Vocabulary, tokens: seq<nat>): Option<seq<Byte>>
    requires |v.types| == |v.pieces|
  {
    if tokens == [] then Some([])
    else Join(DecodeAll(v, tokens[..|tokens| - 1]), TokenText(v, tokens[|tokens| - 1]))
  }

  lemma {:induction false} DecodeAllConcat(v: Vocabulary, a: seq<nat>, b: seq<nat>)
    requires |v.types| == |v.pieces|
    ensures DecodeAll(v, a + b) == Join(DecodeAll(v, a), DecodeAll(v, b))
  {
    if b == [] {
      assert a + b == a;
      assert DecodeAll(v, a).Some? ==> DecodeAll(v, a).value + [] == DecodeAll(v, a).value;
    } else {
      var shorter := b[..|b| - 1];
      assert (a + b)[..|a + b| - 1] == a + shorter;
      DecodeAllConcat(v, a, shorter);
      JoinAssociates(DecodeAll(v, a), DecodeAll(v, shorter), TokenText(v, b[|b| - 1]));
    }
  }

  lemma DecodeAllOne(v: Vocabulary, token: nat)
    requires |v.types| == |v.pieces|
    ensures DecodeAll(v, [token]) == TokenText(v, token)
  {
    assert [token][..0] == [];
    if TokenText(v, token).Some? {
      assert [] + TokenText(v, token).value == TokenText(v, token).value;
    }
  }

  // ---- the round trip ----

  /** Token by token, the pieces write the parts. */
  ghost predicate Spells(v: Vocabulary, tokens: seq<nat>, parts: seq<seq<Byte>>) {
    |tokens| == |parts| && forall i | 0 <= i < |tokens| :: Writes(v, tokens[i], parts[i])
  }

  lemma FlattenJoin(before: seq<seq<Byte>>, a: seq<Byte>, b: seq<Byte>, after: seq<seq<Byte>>)
    ensures Flatten(before + [a + b] + after) == Flatten(before + [a, b] + after)
  {
    FlattenOne(a);
    FlattenOne(b);
    FlattenOne(a + b);
    FlattenConcat([a], [b]);
    assert [a] + [b] == [a, b];
    FlattenConcat(before, [a, b]);
    FlattenConcat(before, [a + b]);
    FlattenConcat(before + [a, b], after);
    FlattenConcat(before + [a + b], after);
  }

  lemma SpellsConcat(v: Vocabulary, a: seq<nat>, b: seq<nat>, pa: seq<seq<Byte>>, pb: seq<seq<Byte>>)
    requires Spells(v, a, pa) && Spells(v, b, pb)
    ensures Spells(v, a + b, pa + pb)
  {
  }

  /** The result of a merge writes what its two tokens write. */
  lemma MergeWrites(v: Vocabulary, merges: seq<Merge>, left: nat, right: nat, a: seq<Byte>, b: seq<Byte>)
    requires GoodMerges(v, merges) && Writes(v, left, a) && Writes(v, right, b) && MergeOf(merges, left, right).Some?
    ensures Writes(v, MergeOf(merges, left, right).value.result, a + b)
  {
    MergeOfExact(merges, left, right);
    WrittenConcat(a, b);
  }

  /** What the tokens spell after the pair at `at` has been merged. */
  function Joined(parts: seq<seq<Byte>>, at: nat): seq<seq<Byte>>
    requires at + 1 < |parts|
  {
    parts[..at] + [parts[at] + parts[at + 1]] + parts[at + 2..]
  }

  lemma SplitPair<T>(s: seq<T>, at: nat)
    requires at + 1 < |s|
    ensures s == s[..at] + [s[at], s[at + 1]] + s[at + 2..]
  {
  }

  lemma SplitThree<T>(s: seq<T>, at: nat, end: nat)
    requires at <= end <= |s|
    ensures s == s[..at] + s[at..end] + s[end..]
  {
  }

  lemma JoinedFlattens(parts: seq<seq<Byte>>, at: nat)
    requires at + 1 < |parts|
    ensures Flatten(Joined(parts, at)) == Flatten(parts)
  {
    FlattenJoin(parts[..at], parts[at], parts[at + 1], parts[at + 2..]);
    SplitPair(parts, at);
  }

  /** Merging a pair joins what the two tokens spell. */
  lemma SpellsMerge(v: Vocabulary, merges: seq<Merge>, tokens: seq<nat>, parts: seq<seq<Byte>>, at: nat)
    requires GoodMerges(v, merges) && Spells(v, tokens, parts)
    requires at + 1 < |tokens| && PairMerge(merges, tokens, at).Some?
    ensures Spells(v, MergeAt(tokens, at, PairMerge(merges, tokens, at).value.result), Joined(parts, at))
  {
    var joined, result := parts[at] + parts[at + 1], PairMerge(merges, tokens, at).value.result;
    MergeWrites(v, merges, tokens[at], tokens[at + 1], parts[at], parts[at + 1]);
    SpellsConcat(v, tokens[..at], [result], parts[..at], [joined]);
    SpellsConcat(v, tokens[..at] + [result], tokens[at + 2..], parts[..at] + [joined], parts[at + 2..]);
  }

  /** However many merges: what is spelled stays the same. */
  lemma {:induction false} ReduceSpells(v: Vocabulary, merges: seq<Merge>, tokens: seq<nat>, parts: seq<seq<Byte>>)
      returns (parts': seq<seq<Byte>>)
    requires GoodMerges(v, merges) && Spells(v, tokens, parts)
    ensures Spells(v, Reduce(merges, tokens), parts') && Flatten(parts') == Flatten(parts)
    decreases |tokens|
  {
    match Best(merges, tokens)
    case None =>
      parts' := parts;
    case Some(at) =>
      SpellsMerge(v, merges, tokens, parts, at);
      JoinedFlattens(parts, at);
      parts' := ReduceSpells(v, merges, MergeAt(tokens, at, PairMerge(merges, tokens, at).value.result), Joined(parts, at));
  }

  lemma WritesText(v: Vocabulary, token: nat, s: seq<Byte>)
    requires Writes(v, token, s) && PiecesFit(v)
    ensures TokenText(v, token) == Some(s)
  {
    WrittenDecodes(s);
    CharactersInjective(s, BytesOf(Characters(s)).value);
  }

  /** Tokens that spell parts decode to them. */
  lemma {:induction false} SpellsDecodes(v: Vocabulary, tokens: seq<nat>, parts: seq<seq<Byte>>)
    requires |v.types| == |v.pieces| && PiecesFit(v) && Spells(v, tokens, parts)
    ensures DecodeAll(v, tokens) == Some(Flatten(parts))
  {
    if tokens != [] {
      var n := |tokens| - 1;
      SpellsDecodes(v, tokens[..n], parts[..n]);
      WritesText(v, tokens[n], parts[n]);
    }
  }

  function Singles(text: seq<Byte>): seq<seq<Byte>> {
    seq(|text|, i requires 0 <= i < |text| => [text[i]])
  }

  lemma {:induction false} FlattenSingles(text: seq<Byte>)
    ensures Flatten(Singles(text)) == text
  {
    if text != [] {
      var n := |text| - 1;
      FlattenSingles(text[..n]);
      assert Singles(text)[..n] == Singles(text[..n]);
      assert text == text[..n] + [text[n]];
    }
  }

  lemma PretokenRoundTrip(v: Vocabulary, merges: seq<Merge>, byteMap: ByteMap, text: seq<Byte>)
    requires GoodVocabulary(v, merges, byteMap)
    ensures DecodeAll(v, PretokenTokens(merges, byteMap, text)) == Some(text)
  {
    var tokens := ByteTokens(byteMap, text);
    var parts := ReduceSpells(v, merges, tokens, Singles(text));
    SpellsDecodes(v, Reduce(merges, tokens), parts);
    FlattenSingles(text);
  }

  lemma JoinTexts(v: Vocabulary, a: seq<nat>, s: seq<Byte>, b: seq<nat>, t: seq<Byte>)
    requires |v.types| == |v.pieces| && DecodeAll(v, a) == Some(s) && DecodeAll(v, b) == Some(t)
    ensures DecodeAll(v, a + b) == Some(s + t)
  {
    DecodeAllConcat(v, a, b);
  }

  lemma FragmentsCut(merges: seq<Merge>, byteMap: ByteMap, text: seq<Byte>) returns (length: nat)
    requires text != []
    ensures 0 < length <= |text|
    ensures FragmentTokens(merges, byteMap, text) ==
      PretokenTokens(merges, byteMap, text[..length]) + FragmentTokens(merges, byteMap, text[length..])
  {
    length := PretokenSize(text);
  }

  lemma FragmentDecodes(v: Vocabulary, merges: seq<Merge>, byteMap: ByteMap, text: seq<Byte>, length: nat,
                        rest: seq<nat>)
    requires GoodVocabulary(v, merges, byteMap) && length <= |text|
    requires DecodeAll(v, rest) == Some(text[length..])
    ensures DecodeAll(v, PretokenTokens(merges, byteMap, text[..length]) + rest) == Some(text)
  {
    hide PretokenTokens, DecodeAll;
    PretokenRoundTrip(v, merges, byteMap, text[..length]);
    JoinTexts(v, PretokenTokens(merges, byteMap, text[..length]), text[..length], rest, text[length..]);
    assert text[..length] + text[length..] == text;
  }

  lemma {:induction false} FragmentsRoundTrip(v: Vocabulary, merges: seq<Merge>, byteMap: ByteMap, text: seq<Byte>)
    requires GoodVocabulary(v, merges, byteMap)
    ensures DecodeAll(v, FragmentTokens(merges, byteMap, text)) == Some(text)
    decreases |text|
  {
    hide PretokenTokens, PretokenSize, GoodMerges, GoodBytes, PiecesFit;
    if text != [] {
      var length := FragmentsCut(merges, byteMap, text);
      FragmentsRoundTrip(v, merges, byteMap, text[length..]);
      FragmentDecodes(v, merges, byteMap, text, length, FragmentTokens(merges, byteMap, text[length..]));
    }
  }

  lemma SpecialRoundTrip(v: Vocabulary, text: seq<Byte>, at: nat)
    requires GoodTools(v) && SpecialAt(text, at).Tool?
    ensures DecodeAll(v, [SpecialAt(text, at).token]) == Some(text[at..at + SpecialAt(text, at).length])
  {
    DecodeAllOne(v, SpecialAt(text, at).token);
  }

  /** A text with something special: what is before it, the token, and what comes after it. */
  lemma OrdinaryCut(merges: seq<Merge>, byteMap: ByteMap, text: seq<Byte>) returns (at: nat, token: nat, end: nat)
    requires NextSpecial(text, 0) < |text|
    ensures at == NextSpecial(text, 0) < end <= |text| && SpecialAt(text, at) == Tool(token, end - at)
    ensures text == text[..at] + text[at..end] + text[end..]
    ensures OrdinaryTokens(merges, byteMap, text) ==
      FragmentTokens(merges, byteMap, text[..at]) + [token] + OrdinaryTokens(merges, byteMap, text[end..])
    ensures forall v :: GoodTools(v) ==> DecodeAll(v, [token]) == Some(text[at..end])
  {
    at := NextSpecial(text, 0);
    token, end := SpecialAt(text, at).token, at + SpecialAt(text, at).length;
    SplitThree(text, at, end);
    forall v | GoodTools(v) ensures DecodeAll(v, [token]) == Some(text[at..end]) {
      SpecialRoundTrip(v, text, at);
    }
  }

  /** For every text: decoding its tokens one by one gives the text again. */
  lemma {:induction false} RoundTrip(v: Vocabulary, merges: seq<Merge>, byteMap: ByteMap, text: seq<Byte>)
    requires GoodVocabulary(v, merges, byteMap)
    ensures DecodeAll(v, OrdinaryTokens(merges, byteMap, text)) == Some(text)
    decreases |text|
  {
    if text == [] {
    } else if NextSpecial(text, 0) == |text| {
      FragmentsRoundTrip(v, merges, byteMap, text);
      assert text[..|text|] == text;
    } else {
      var at, token, end := OrdinaryCut(merges, byteMap, text);
      var before, after := FragmentTokens(merges, byteMap, text[..at]), OrdinaryTokens(merges, byteMap, text[end..]);
      FragmentsRoundTrip(v, merges, byteMap, text[..at]);
      RoundTrip(v, merges, byteMap, text[end..]);
      JoinTexts(v, before, text[..at], [token], text[at..end]);
      JoinTexts(v, before + [token], text[..at] + text[at..end], after, text[end..]);
    }
  }

  // ---- when special words make a difference ----

  lemma OrdinaryPlain(merges: seq<Merge>, byteMap: ByteMap, text: seq<Byte>)
    requires text != [] && NextSpecial(text, 0) == |text|
    ensures OrdinaryTokens(merges, byteMap, text) == FragmentTokens(merges, byteMap, text)
  {
    assert text[..|text|] == text;
  }

  ghost predicate AllNormal(v: Vocabulary, tokens: seq<nat>) {
    forall i | 0 <= i < |tokens| :: IsNormal(v, tokens[i])
  }

  lemma PretokenNormal(v: Vocabulary, merges: seq<Merge>, byteMap: ByteMap, text: seq<Byte>)
    requires GoodVocabulary(v, merges, byteMap)
    ensures AllNormal(v, PretokenTokens(merges, byteMap, text))
  {
    var tokens := ByteTokens(byteMap, text);
    var parts := ReduceSpells(v, merges, tokens, Singles(text));
    forall i | 0 <= i < |Reduce(merges, tokens)| ensures IsNormal(v, Reduce(merges, tokens)[i]) {
      assert Writes(v, Reduce(merges, tokens)[i], parts[i]);
    }
  }

  lemma {:induction false} FragmentsNormal(v: Vocabulary, merges: seq<Merge>, byteMap: ByteMap, text: seq<Byte>)
    requires GoodVocabulary(v, merges, byteMap)
    ensures AllNormal(v, FragmentTokens(merges, byteMap, text))
    decreases |text|
  {
    if text != [] {
      var length := FragmentsCut(merges, byteMap, text);
      PretokenNormal(v, merges, byteMap, text[..length]);
      FragmentsNormal(v, merges, byteMap, text[length..]);
    }
  }

  /** The text has one of the two user-defined words somewhere. */
  predicate HasWord(text: seq<Byte>) {
    exists at | 0 <= at < |text| :: StartsWith(text, at, TOOL_CALL) || StartsWith(text, at, TOOL_END)
  }

  /** Special parsing changes the tokens of a text exactly when one of the words occurs in it. */
  lemma PlainExactly(v: Vocabulary, merges: seq<Merge>, byteMap: ByteMap, text: seq<Byte>)
    requires GoodVocabulary(v, merges, byteMap)
    ensures OrdinaryTokens(merges, byteMap, text) == FragmentTokens(merges, byteMap, text) <==> !HasWord(text)
  {
    if text == [] {
    } else if NextSpecial(text, 0) == |text| {
      OrdinaryPlain(merges, byteMap, text);
      forall at | 0 <= at < |text| ensures !StartsWith(text, at, TOOL_CALL) && !StartsWith(text, at, TOOL_END) {
        assert SpecialAt(text, at).Plain?;
      }
    } else {
      var at, token, end := OrdinaryCut(merges, byteMap, text);
      var before, tokens := FragmentTokens(merges, byteMap, text[..at]), OrdinaryTokens(merges, byteMap, text);
      FragmentsNormal(v, merges, byteMap, text);
      assert tokens[|before|] == token && !IsNormal(v, token);
      assert StartsWith(text, at, TOOL_CALL) || StartsWith(text, at, TOOL_END);
    }
  }

  lemma WordIsToken(merges: seq<Merge>, byteMap: ByteMap, text: seq<Byte>, token: nat)
    requires text != [] && SpecialAt(text, 0) == Tool(token, |text|)
    ensures OrdinaryTokens(merges, byteMap, text) == [token]
  {
    assert text[..0] == [] && text[|text|..] == [];
  }

  /** The word itself is one token, which plain text never gives. */
  lemma ToolCallIsSpecial(v: Vocabulary, merges: seq<Merge>, byteMap: ByteMap)
    requires GoodVocabulary(v, merges, byteMap)
    ensures OrdinaryTokens(merges, byteMap, TOOL_CALL) == [TOOL_CALL_TOKEN]
    ensures FragmentTokens(merges, byteMap, TOOL_CALL) != [TOOL_CALL_TOKEN]
  {
    hide OrdinaryTokens, FragmentTokens;
    var text := TOOL_CALL;
    assert StartsWith(text, 0, TOOL_CALL);
    WordIsToken(merges, byteMap, text, TOOL_CALL_TOKEN);
    FragmentsNormal(v, merges, byteMap, text);
    var plain := FragmentTokens(merges, byteMap, text);
    assert |plain| > 0 ==> IsNormal(v, plain[0]);
  }

  // ---- the loops that stage the tokens ----

  /** The first `count` staged tokens are `done`. */
  predicate Holding(scratch: array<nat>, count: nat, done: seq<nat>)
    reads scratch
  {
    |done| == count <= MAX_TOKENS && scratch.Length >= STAGED_RENDERED && scratch[..count] == done
  }

  /** The rendered text has not changed. */
  twostate predicate RenderedKept(scratch: array<nat>)
    reads scratch
    requires scratch.Length >= STAGED_RENDERED
  {
    scratch[STAGED_RENDERED..] == old(scratch[STAGED_RENDERED..])
  }

  /** After a step that should stage `out` behind `done`: it has, or there was no room and `done` is still there. */
  predicate Extended(scratch: array<nat>, error: Option<TokenError>, count: nat, done: seq<nat>, out: seq<nat>)
    reads scratch
  {
    if |done| + |out| <= MAX_TOKENS then error == None && Holding(scratch, count, done + out)
    else error.Some? && error.value.TooManyTokens?
  }

  /** `control`. */
  method StageControl(scratch: array<nat>, staged: nat, ghost done: seq<nat>, token: nat)
      returns (error: Option<TokenError>, count: nat)
    requires Holding(scratch, staged, done)
    modifies scratch
    ensures RenderedKept(scratch) && Extended(scratch, error, count, done, [token])
  {
    if staged >= MAX_TOKENS {
      return Some(TooManyTokens(staged + 1)), staged;
    }
    scratch[staged] := token;
    return None, staged + 1;
  }

  method StagePretoken(index: array<Slot>, ghost merges: seq<Merge>, byteMap: ByteMap, scratch: array<nat>,
                       staged: nat, ghost done: seq<nat>, text: seq<Byte>)
      returns (error: Option<TokenError>, count: nat)
    requires Answers(index, merges) && Holding(scratch, staged, done) && |text| <= MAX_SEGMENT
    modifies scratch
    ensures RenderedKept(scratch) && Extended(scratch, error, count, done, PretokenTokens(merges, byteMap, text))
  {
    error, count := EncodePretoken(index, merges, byteMap, scratch, staged, text);
    if error.None? {
      assert scratch[..count] == scratch[..staged] + scratch[staged..count];
    }
  }

  /** The pre-token at the beginning of a text, and what its tokens contribute. */
  method NextLength(ghost merges: seq<Merge>, ghost byteMap: ByteMap, text: seq<Byte>, at: nat) returns (length: nat)
    requires at < |text|
    ensures 0 < length <= |text| - at
    ensures FragmentTokens(merges, byteMap, text[at..]) ==
      PretokenTokens(merges, byteMap, text[at..][..length]) + FragmentTokens(merges, byteMap, text[at + length..])
  {
    PretokenExists(text[at..]);
    length := PretokenLength(text[at..]);
    DropDrop(text, at, length);
  }

  lemma Advance(all: seq<nat>, now: seq<nat>, left: seq<nat>, out: seq<nat>, rest: seq<nat>)
    requires all == now + left && left == out + rest
    ensures all == (now + out) + rest && |all| >= |now| + |out|
  {
  }

  /** `regex_fragments`: on text that is not too long the only failure is running out of room. */
  method StageFragments(index: array<Slot>, ghost merges: seq<Merge>, byteMap: ByteMap, scratch: array<nat>,
                        staged: nat, ghost done: seq<nat>, text: seq<Byte>)
      returns (error: Option<TokenError>, count: nat)
    requires Answers(index, merges) && Holding(scratch, staged, done) && |text| <= MAX_SEGMENT
    modifies scratch
    ensures RenderedKept(scratch) && Extended(scratch, error, count, done, FragmentTokens(merges, byteMap, text))
  {
    count, error := staged, None;
    ghost var now := done;
    ghost var left := FragmentTokens(merges, byteMap, text);
    ghost var all := done + left;
    var at := 0;
    assert text[0..] == text;
    while at < |text|
      invariant at <= |text| && error.None? && RenderedKept(scratch) && Holding(scratch, count, now)
      invariant left == FragmentTokens(merges, byteMap, text[at..]) && all == now + left
    {
      var length := NextLength(merges, byteMap, text, at);
      var piece := text[at..][..length];
      ghost var out := PretokenTokens(merges, byteMap, piece);
      error, count := StagePretoken(index, merges, byteMap, scratch, count, now, piece);
      at := at + length;
      ghost var rest := FragmentTokens(merges, byteMap, text[at..]);
      Advance(all, now, left, out, rest);
      left := rest;
      if error.Some? {
        return;
      }
      now := now + out;
    }
    assert now + [] == now;
  }

  /** One round of `ordinary`: the text before the next special place, and what is there. */
  method StageCut(index: array<Slot>, ghost merges: seq<Merge>, byteMap: ByteMap, scratch: array<nat>,
                  staged: nat, ghost done: seq<nat>, text: seq<Byte>)
      returns (error: Option<TokenError>, count: nat, consumed: nat, ghost out: seq<nat>)
    requires Answers(index, merges) && Holding(scratch, staged, done) && 0 < |text| <= MAX_SEGMENT
    modifies scratch
    ensures RenderedKept(scratch) && Extended(scratch, error, count, done, out)
    ensures 0 < consumed <= |text|
    ensures OrdinaryTokens(merges, byteMap, text) == out + OrdinaryTokens(merges, byteMap, text[consumed..])
  {
    var at, special := NextUserDefined(text);
    ghost var before := FragmentTokens(merges, byteMap, text[..at]);
    if special == Plain {
      OrdinaryPlain(merges, byteMap, text);
      assert text[..at] == text;
      consumed, out := |text|, before;
      error, count := StageFragments(index, merges, byteMap, scratch, staged, done, text);
      return;
    }
    ghost var _, token, end := OrdinaryCut(merges, byteMap, text);
    consumed, out := at + special.length, before + [special.token];
    assert done + before + [special.token] == done + out;
    error, count := StageFragments(index, merges, byteMap, scratch, staged, done, text[..at]);
    if error.Some? {
      return;
    }
    error, count := StageControl(scratch, count, done + before, special.token);
  }

  lemma SameTokens(merges: seq<Merge>, byteMap: ByteMap, a: seq<Byte>, b: seq<Byte>)
    requires a == b
    ensures OrdinaryTokens(merges, byteMap, a) == OrdinaryTokens(merges, byteMap, b)
  {
  }

  method StageFrom(index: array<Slot>, ghost merges: seq<Merge>, byteMap: ByteMap, scratch: array<nat>,
                   staged: nat, ghost done: seq<nat>, text: seq<Byte>, cursor: nat)
      returns (error: Option<TokenError>, count: nat, next: nat, ghost out: seq<nat>)
    requires Answers(index, merges) && Holding(scratch, staged, done) && cursor < |text| <= MAX_SEGMENT
    modifies scratch
    ensures RenderedKept(scratch) && Extended(scratch, error, count, done, out)
    ensures cursor < next <= |text|
    ensures OrdinaryTokens(merges, byteMap, text[cursor..]) == out + OrdinaryTokens(merges, byteMap, text[next..])
  {
    var consumed;
    error, count, consumed, out := StageCut(index, merges, byteMap, scratch, staged, done, text[cursor..]);
    next := cursor + consumed;
    SameTokens(merges, byteMap, text[cursor..][consumed..], text[next..]) by {
      DropDrop(text, cursor, consumed);
    }
  }

  /** `ordinary`. */
  method StageOrdinary(index: array<Slot>, ghost merges: seq<Merge>, byteMap: ByteMap, scratch: array<nat>,
                       staged: nat, ghost done: seq<nat>, text: seq<Byte>)
      returns (error: Option<TokenError>, count: nat)
    requires Answers(index, merges) && Holding(scratch, staged, done) && |text| <= MAX_SEGMENT
    modifies scratch
    ensures RenderedKept(scratch) && Extended(scratch, error, count, done, OrdinaryTokens(merges, byteMap, text))
  {
    count, error := staged, None;
    ghost var now := done;
    ghost var left := OrdinaryTokens(merges, byteMap, text);
    ghost var all := done + left;
    var cursor := 0;
    assert text[0..] == text;
    while cursor < |text|
      invariant cursor <= |text| && error.None? && RenderedKept(scratch) && Holding(scratch, count, now)
      invariant left == OrdinaryTokens(merges, byteMap, text[cursor..]) && all == now + left
    {
      ghost var out;
      error, count, cursor, out := StageFrom(index, merges, byteMap, scratch, count, now, text, cursor);
      ghost var rest := OrdinaryTokens(merges, byteMap, text[cursor..]);
      Advance(all, now, left, out, rest);
      left := rest;
      if error.Some? {
        return;
      }
      now := now + out;
    }
    assert now + [] == now;
  }
}
