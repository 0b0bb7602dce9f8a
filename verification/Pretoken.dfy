/**
 Cutting text into pre-tokens.  The hand-written scanner finds exactly what the documented Qwen2
 expression matches first, under the usual backtracking meaning of that expression.
 */
module Pretoken {
  import opened Wrappers
  import opened Utf8

  // ---- character classes, on bytes ----

  predicate IsLetter(b: Byte) {
    0x41 <= b <= 0x5a || 0x61 <= b <= 0x7a
  }

  predicate IsDigit(b: Byte) {
    0x30 <= b <= 0x39
  }

  predicate IsSpace(b: Byte) {
    b == 0x20 || 0x09 <= b <= 0x0d
  }

  predicate IsNewline(b: Byte) {
    b == 0x0a || b == 0x0d
  }

  predicate IsPunctuation(b: Byte) {
    !IsSpace(b) && !IsLetter(b) && !IsDigit(b)
  }

  const BLANK_BYTE: Byte := 0x20
  const APOSTROPHE: Byte := 0x27

  /** The classes written out, as characters. */
  lemma LetterClass(b: Byte)
    ensures IsLetter(b) <==> b as char in "ABCDEFGHIJKLMNOPQRSTUVWXYZ" || b as char in "abcdefghijklmnopqrstuvwxyz"
  {
    UpperClass(b);
    LowerClass(b);
  }

  lemma UpperClass(b: Byte)
    ensures 0x41 <= b <= 0x5a <==> b as char in "ABCDEFGHIJKLMNOPQRSTUVWXYZ"
  {
    var letters := "ABCDEFGHIJKLMNOPQRSTUVWXYZ";
    assert forall i | 0 <= i < |letters| :: letters[i] as int == 0x41 + i;
    assert 0x41 <= b <= 0x5a ==> letters[b - 0x41] == b as char;
  }

  lemma LowerClass(b: Byte)
    ensures 0x61 <= b <= 0x7a <==> b as char in "abcdefghijklmnopqrstuvwxyz"
  {
    var letters := "abcdefghijklmnopqrstuvwxyz";
    assert forall i | 0 <= i < |letters| :: letters[i] as int == 0x61 + i;
    assert 0x61 <= b <= 0x7a ==> letters[b - 0x61] == b as char;
  }

  lemma OtherClasses(b: Byte)
    ensures IsDigit(b) <==> b as char in "0123456789"
    ensures IsSpace(b) <==> b as char in " \t\n\r" || b in {0x0b, 0x0c}
    ensures IsNewline(b) <==> b as char in "\r\n"
  {
    var digits, spaces, lines := "0123456789", " \t\n\r", "\r\n";
    assert forall i | 0 <= i < |digits| :: digits[i] as int == 0x30 + i;
    assert 0x30 <= b <= 0x39 ==> digits[b - 0x30] == b as char;
    assert spaces[0] as int == 0x20 && spaces[1] as int == 9 && spaces[2] as int == 10 && spaces[3] as int == 13;
    assert lines[0] as int == 13 && lines[1] as int == 10;
  }

  // ---- the expression and its meaning ----

  datatype Class =
    | One(b: Byte)
    | AnyCase(letter: Byte)    // an upper-case letter, standing for both cases
    | Letter                   // \p{L}
    | Digit                    // \p{N}
    | Space                    // \s
    | NonSpace                 // \S
    | Newline                  // [\r\n]
    | NotLineLetterDigit       // [^\r\n\p{L}\p{N}]
    | Other                    // [^\s\p{L}\p{N}]

  predicate In(c: Class, b: Byte) {
    match c
    case One(x) => b == x
    case AnyCase(letter) => b == letter || b == letter + 0x20
    case Letter => IsLetter(b)
    case Digit => IsDigit(b)
    case Space => IsSpace(b)
    case NonSpace => !IsSpace(b)
    case Newline => IsNewline(b)
    case NotLineLetterDigit => !IsNewline(b) && !IsLetter(b) && !IsDigit(b)
    case Other => IsPunctuation(b)
  }

  /** The building blocks: c, c?, c*, c+ and the lookahead (?!c). */
  datatype Atom = Exactly(c: Class) | Optionally(c: Class) | Star(c: Class) | Plus(c: Class) | NotBefore(c: Class)

  predicate InAt(c: Class, text: seq<Byte>, at: nat) {
    at < |text| && In(c, text[at])
  }

  /** Where the preferred match of a sequence of atoms from `at` ends: greedy, with backtracking. */
  function Match(atoms: seq<Atom>, text: seq<Byte>, at: nat): (end: Option<nat>)
    requires at <= |text|
    ensures end.Some? ==> at <= end.value <= |text|
    decreases |text| - at, |atoms|
  {
    if atoms == [] then Some(at)
    else
      var next := atoms[1..];
      match atoms[0]
      case Exactly(c) => if InAt(c, text, at) then Match(next, text, at + 1) else None
      case Optionally(c) =>
        if InAt(c, text, at) && Match(next, text, at + 1).Some? then Match(next, text, at + 1) else Match(next, text, at)
      case Star(c) =>
        if InAt(c, text, at) && Match(atoms, text, at + 1).Some? then Match(atoms, text, at + 1)
        else Match(next, text, at)
      case Plus(c) => if InAt(c, text, at) then Match([Star(c)] + next, text, at + 1) else None
      case NotBefore(c) => if InAt(c, text, at) then None else Match(next, text, at)
  }

  /** The first alternative that matches at the beginning of the text decides. */
  function FirstMatch(alternatives: seq<seq<Atom>>, text: seq<Byte>): Option<nat> {
    if alternatives == [] then None
    else
      var end := Match(alternatives[0], text, 0);
      if end.Some? then end else FirstMatch(alternatives[1..], text)
  }

  function Contraction(letters: seq<Atom>): seq<Atom> {
    [Exactly(One(APOSTROPHE))] + letters
  }

  function ExactlyAnyCase(letter: Byte): Atom {
    Exactly(AnyCase(letter))
  }

  /** The contraction alternatives, 's 't 're 've 'm 'll 'd in either case. */
  function Contractions(): seq<seq<Atom>> {
    [Contraction([ExactlyAnyCase(0x53)]),
     Contraction([ExactlyAnyCase(0x54)]),
     Contraction([ExactlyAnyCase(0x52), ExactlyAnyCase(0x45)]),
     Contraction([ExactlyAnyCase(0x56), ExactlyAnyCase(0x45)]),
     Contraction([ExactlyAnyCase(0x4d)]),
     Contraction([ExactlyAnyCase(0x4c), ExactlyAnyCase(0x4c)]),
     Contraction([ExactlyAnyCase(0x44)])]
  }

  /** The alternatives after the contractions. */
  function Words(): seq<seq<Atom>> {
    [[Optionally(NotLineLetterDigit), Plus(Letter)],
     [Exactly(Digit)],
     [Optionally(One(BLANK_BYTE)), Plus(Other), Star(Newline)],
     [Star(Space), Plus(Newline)],
     [Plus(Space), NotBefore(NonSpace)],
     [Plus(Space)]]
  }

  /** Length of the pre-token at the beginning of `text`, as the expression defines it. */
  function PretokenEnd(text: seq<Byte>): Option<nat> {
    FirstMatch(Contractions() + Words(), text)
  }

  // ---- runs ----

  /** End of the maximal run of a class. */
  function RunEnd(c: Class, text: seq<Byte>, at: nat): (end: nat)
    requires at <= |text|
    ensures at <= end <= |text|
    ensures forall i | at <= i < end :: In(c, text[i])
    ensures end < |text| ==> !In(c, text[end])
    decreases |text| - at
  {
    if InAt(c, text, at) then RunEnd(c, text, at + 1) else at
  }

  /** A star takes the whole run when the rest still matches there. */
  lemma {:induction false} StarTakesRun(c: Class, next: seq<Atom>, text: seq<Byte>, at: nat)
    requires at <= |text| && Match(next, text, RunEnd(c, text, at)).Some?
    ensures Match([Star(c)] + next, text, at) == Match(next, text, RunEnd(c, text, at))
    decreases |text| - at
  {
    assert ([Star(c)] + next)[1..] == next;
    if InAt(c, text, at) {
      StarTakesRun(c, next, text, at + 1);
    }
  }

  lemma StarAlone(c: Class, text: seq<Byte>, at: nat)
    requires at <= |text|
    ensures Match([Star(c)], text, at) == Some(RunEnd(c, text, at))
  {
    StarTakesRun(c, [], text, at);
    assert [Star(c)] + [] == [Star(c)];
  }

  lemma PlusAlone(c: Class, text: seq<Byte>, at: nat)
    requires at <= |text|
    ensures Match([Plus(c)], text, at) == if InAt(c, text, at) then Some(RunEnd(c, text, at)) else None
  {
    assert [Plus(c)][1..] == [];
    if InAt(c, text, at) {
      StarAlone(c, text, at + 1);
      assert [Star(c)] + [] == [Star(c)];
    }
  }

  /** End of the last newline in `from..to`, if there is one. */
  function LastNewlineEnd(text: seq<Byte>, from: nat, to: nat): (last: Option<nat>)
    requires from <= to <= |text|
    ensures last.Some? ==> from < last.value <= to
  {
    if from == to then None
    else if IsNewline(text[to - 1]) then Some(to)
    else LastNewlineEnd(text, from, to - 1)
  }

  lemma {:induction false} LastNewlineFront(text: seq<Byte>, from: nat, to: nat)
    requires from < to <= |text|
    ensures LastNewlineEnd(text, from, to) ==
      if LastNewlineEnd(text, from + 1, to).Some? then LastNewlineEnd(text, from + 1, to)
      else if IsNewline(text[from]) then Some(from + 1) else None
  {
    if from + 1 < to && !IsNewline(text[to - 1]) {
      LastNewlineFront(text, from, to - 1);
    }
  }

  lemma NoNewlineRun(text: seq<Byte>, at: nat, to: nat)
    requires at <= to <= |text| && LastNewlineEnd(text, at, to).None?
    ensures forall i | at <= i < to :: !IsNewline(text[i])
  {
  }

  /** Spaces, then newlines: up to the last newline of the run of spaces. */
  lemma {:induction false} SpacesNewlines(text: seq<Byte>, at: nat)
    requires at <= |text|
    ensures Match([Star(Space), Plus(Newline)], text, at) == LastNewlineEnd(text, at, RunEnd(Space, text, at))
    decreases |text| - at
  {
    var atoms := [Star(Space), Plus(Newline)];
    assert atoms[1..] == [Plus(Newline)];
    PlusAlone(Newline, text, at);
    if InAt(Space, text, at) {
      var end := RunEnd(Space, text, at);
      SpacesNewlines(text, at + 1);
      LastNewlineFront(text, at, end);
      if LastNewlineEnd(text, at + 1, end).None? {
        NoNewlineRun(text, at + 1, end);
      }
    }
  }

  /** Spaces not followed by a non-space: the whole run at the end of the text, else all but its last space. */
  lemma {:induction false} SpacesLookahead(text: seq<Byte>, at: nat)
    requires at <= |text|
    ensures var end := RunEnd(Space, text, at);
      Match([Star(Space), NotBefore(NonSpace)], text, at) ==
        if end == |text| then Some(end) else if at < end then Some(end - 1) else None
    decreases |text| - at
  {
    var atoms := [Star(Space), NotBefore(NonSpace)];
    assert atoms[1..] == [NotBefore(NonSpace)] && [NotBefore(NonSpace)][1..] == [];
    assert Match([], text, at) == Some(at);
    assert Match([NotBefore(NonSpace)], text, at) == if InAt(NonSpace, text, at) then None else Some(at);
    if InAt(Space, text, at) {
      SpacesLookahead(text, at + 1);
    }
  }

  // ---- the scanner ----

  /** Ends a run in the text. */
  method SkipRun(c: Class, text: seq<Byte>, at: nat) returns (end: nat)
    requires at <= |text|
    ensures end == RunEnd(c, text, at)
  {
    end := at;
    while end < |text| && In(c, text[end])
      invariant at <= end <= |text| && RunEnd(c, text, end) == RunEnd(c, text, at)
    {
      end := end + 1;
    }
  }

  predicate Cased(b: Byte, letter: Byte) {
    In(AnyCase(letter), b)
  }

  /** `contraction_matches` on a whole slice. */
  predicate ContractionMatches(s: seq<Byte>) {
    || (|s| == 2 && s[0] == APOSTROPHE
        && (Cased(s[1], 0x53) || Cased(s[1], 0x54) || Cased(s[1], 0x4d) || Cased(s[1], 0x44)))
    || (|s| == 3 && s[0] == APOSTROPHE
        && (|| (Cased(s[1], 0x52) && Cased(s[2], 0x45))
            || (Cased(s[1], 0x56) && Cased(s[2], 0x45))
            || (Cased(s[1], 0x4c) && Cased(s[2], 0x4c))))
  }

  function ContractionLength(text: seq<Byte>): nat {
    if |text| >= 2 && ContractionMatches(text[..2]) then 2
    else if |text| >= 3 && ContractionMatches(text[..3]) then 3
    else 0
  }

  lemma ExactlyStep(c: Class, next: seq<Atom>, text: seq<Byte>, at: nat)
    requires at <= |text|
    ensures Match([Exactly(c)] + next, text, at) == if InAt(c, text, at) then Match(next, text, at + 1) else None
  {
    assert ([Exactly(c)] + next)[1..] == next;
  }

  lemma ExactlyLast(c: Class, text: seq<Byte>, at: nat)
    requires at <= |text|
    ensures Match([Exactly(c)], text, at) == if InAt(c, text, at) then Some(at + 1) else None
  {
    assert [Exactly(c)][1..] == [];
  }

  lemma MatchTwo(text: seq<Byte>, a: Byte)
    ensures Match(Contraction([ExactlyAnyCase(a)]), text, 0) ==
      if |text| >= 2 && text[0] == APOSTROPHE && Cased(text[1], a) then Some(2) else None
  {
    ExactlyStep(One(APOSTROPHE), [ExactlyAnyCase(a)], text, 0);
    if |text| >= 1 {
      ExactlyLast(AnyCase(a), text, 1);
    }
  }

  lemma MatchThree(text: seq<Byte>, a: Byte, b: Byte)
    ensures Match(Contraction([ExactlyAnyCase(a), ExactlyAnyCase(b)]), text, 0) ==
      if |text| >= 3 && text[0] == APOSTROPHE && Cased(text[1], a) && Cased(text[2], b) then Some(3) else None
  {
    ExactlyStep(One(APOSTROPHE), [ExactlyAnyCase(a), ExactlyAnyCase(b)], text, 0);
    assert [ExactlyAnyCase(a)] + [ExactlyAnyCase(b)] == [ExactlyAnyCase(a), ExactlyAnyCase(b)];
    if |text| >= 1 {
      ExactlyStep(AnyCase(a), [ExactlyAnyCase(b)], text, 1);
    }
    if |text| >= 2 {
      ExactlyLast(AnyCase(b), text, 2);
    }
  }

  lemma {:induction false} FirstMatchConcat(a: seq<seq<Atom>>, b: seq<seq<Atom>>, text: seq<Byte>)
    ensures FirstMatch(a + b, text) == if FirstMatch(a, text).Some? then FirstMatch(a, text) else FirstMatch(b, text)
  {
    if a == [] {
      assert a + b == b;
    } else {
      assert (a + b)[1..] == a[1..] + b;
      FirstMatchConcat(a[1..], b, text);
    }
  }

  lemma FirstMatchOne(a: seq<Atom>, rest: seq<seq<Atom>>, text: seq<Byte>)
    ensures FirstMatch([a] + rest, text) ==
      if Match(a, text, 0).Some? then Match(a, text, 0) else FirstMatch(rest, text)
  {
    assert ([a] + rest)[1..] == rest;
  }

  /** The contraction loop of the scanner is the contraction alternatives. */
  lemma ContractionsMatch(text: seq<Byte>)
    ensures FirstMatch(Contractions(), text)
         == if ContractionLength(text) == 0 then None else Some(ContractionLength(text))
  {
    MatchTwo(text, 0x53);
    MatchTwo(text, 0x54);
    MatchThree(text, 0x52, 0x45);
    MatchThree(text, 0x56, 0x45);
    MatchTwo(text, 0x4d);
    MatchThree(text, 0x4c, 0x4c);
    MatchTwo(text, 0x44);
    var all := Contractions();
    FirstMatchOne(all[0], all[1..], text);
    FirstMatchOne(all[1], all[2..], text);
    FirstMatchOne(all[2], all[3..], text);
    FirstMatchOne(all[3], all[4..], text);
    FirstMatchOne(all[4], all[5..], text);
    FirstMatchOne(all[5], all[6..], text);
    FirstMatchOne(all[6], all[7..], text);
    forall i: nat | i < 7 ensures all[i..] == [all[i]] + all[i + 1..] {
    }
  }

  /** Small letters for capital ones. */
  function Lower(b: Byte): Byte {
    if 0x41 <= b <= 0x5a then b + 0x20 else b
  }

  /** The text begins with the word, in either case. */
  predicate Spells(text: seq<Byte>, word: string) {
    |word| <= |text| && forall i | 0 <= i < |word| :: Lower(text[i]) == word[i] as int
  }

  lemma SpellsTwo(text: seq<Byte>, word: string, a: Byte)
    requires 0x41 <= a <= 0x5a && |word| == 2 && word[0] == '\'' && word[1] as int == a + 0x20
    ensures Spells(text, word) <==> |text| >= 2 && text[0] == APOSTROPHE && Cased(text[1], a)
  {
  }

  lemma SpellsThree(text: seq<Byte>, word: string, a: Byte, b: Byte)
    requires 0x41 <= a <= 0x5a && 0x41 <= b <= 0x5a
    requires |word| == 3 && word[0] == '\'' && word[1] as int == a + 0x20 && word[2] as int == b + 0x20
    ensures Spells(text, word) <==> |text| >= 3 && text[0] == APOSTROPHE && Cased(text[1], a) && Cased(text[2], b)
  {
  }

  /** The contractions, written out; those of two characters come first. */
  lemma ContractionWords(text: seq<Byte>)
    ensures ContractionLength(text) ==
      if Spells(text, "'s") || Spells(text, "'t") || Spells(text, "'m") || Spells(text, "'d") then 2
      else if Spells(text, "'re") || Spells(text, "'ve") || Spells(text, "'ll") then 3
      else 0
  {
    hide Spells;
    SpellsTwo(text, "'s", 0x53);
    SpellsTwo(text, "'t", 0x54);
    SpellsTwo(text, "'m", 0x4d);
    SpellsTwo(text, "'d", 0x44);
    SpellsThree(text, "'re", 0x52, 0x45);
    SpellsThree(text, "'ve", 0x56, 0x45);
    SpellsThree(text, "'ll", 0x4c, 0x4c);
  }

  // ---- what each word alternative matches ----

  /** Start of the letters of a word: one character may precede them. */
  function LettersStart(text: seq<Byte>): nat {
    if InAt(NotLineLetterDigit, text, 0) then 1 else 0
  }

  lemma WordMatch(text: seq<Byte>)
    requires text != []
    ensures Match([Optionally(NotLineLetterDigit), Plus(Letter)], text, 0) ==
      if InAt(Letter, text, LettersStart(text)) then Some(RunEnd(Letter, text, LettersStart(text))) else None
  {
    var atoms := [Optionally(NotLineLetterDigit), Plus(Letter)];
    assert atoms[1..] == [Plus(Letter)];
    PlusAlone(Letter, text, 0);
    PlusAlone(Letter, text, 1);
  }

  function OthersStart(text: seq<Byte>): nat {
    if InAt(One(BLANK_BYTE), text, 0) then 1 else 0
  }

  lemma OthersMatchFrom(text: seq<Byte>, at: nat)
    requires at <= |text|
    ensures Match([Plus(Other), Star(Newline)], text, at) ==
      if InAt(Other, text, at) then Some(RunEnd(Newline, text, RunEnd(Other, text, at))) else None
  {
    var atoms := [Plus(Other), Star(Newline)];
    assert atoms[1..] == [Star(Newline)];
    StarAlone(Newline, text, RunEnd(Other, text, at));
    if InAt(Other, text, at) {
      StarTakesRun(Other, [Star(Newline)], text, at + 1);
    }
  }

  lemma OthersMatch(text: seq<Byte>)
    requires text != []
    ensures Match([Optionally(One(BLANK_BYTE)), Plus(Other), Star(Newline)], text, 0) ==
      if InAt(Other, text, OthersStart(text)) then Some(RunEnd(Newline, text, RunEnd(Other, text, OthersStart(text))))
      else None
  {
    var atoms := [Optionally(One(BLANK_BYTE)), Plus(Other), Star(Newline)];
    assert atoms[1..] == [Plus(Other), Star(Newline)];
    OthersMatchFrom(text, 0);
    OthersMatchFrom(text, 1);
  }

  lemma LookaheadMatch(text: seq<Byte>)
    requires text != []
    ensures Match([Plus(Space), NotBefore(NonSpace)], text, 0) ==
      var end := RunEnd(Space, text, 0);
      if end == 0 then None
      else if end == |text| then Some(end)
      else if end > 1 then Some(end - 1)
      else None
  {
    var atoms := [Plus(Space), NotBefore(NonSpace)];
    assert atoms[1..] == [NotBefore(NonSpace)];
    if InAt(Space, text, 0) {
      SpacesLookahead(text, 1);
      assert [Star(Space)] + [NotBefore(NonSpace)] == [Star(Space), NotBefore(NonSpace)];
    }
  }

  /** What the word alternatives find, case by case. */
  function WordsEnd(text: seq<Byte>): Option<nat>
    requires text != []
  {
    if InAt(Letter, text, LettersStart(text)) then Some(RunEnd(Letter, text, LettersStart(text)))
    else if InAt(Digit, text, 0) then Some(1)
    else if InAt(Other, text, OthersStart(text)) then
      Some(RunEnd(Newline, text, RunEnd(Other, text, OthersStart(text))))
    else
      var run := RunEnd(Space, text, 0);
      if LastNewlineEnd(text, 0, run).Some? then LastNewlineEnd(text, 0, run)
      else if run == 0 then None
      else if run == |text| || run == 1 then Some(run)
      else Some(run - 1)
  }

  lemma WordsMatch(text: seq<Byte>)
    requires text != []
    ensures FirstMatch(Words(), text) == WordsEnd(text)
  {
    var all := Words();
    WordMatch(text);
    ExactlyLast(Digit, text, 0);
    OthersMatch(text);
    SpacesNewlines(text, 0);
    LookaheadMatch(text);
    PlusAlone(Space, text, 0);
    FirstMatchOne(all[0], all[1..], text);
    FirstMatchOne(all[1], all[2..], text);
    FirstMatchOne(all[2], all[3..], text);
    FirstMatchOne(all[3], all[4..], text);
    FirstMatchOne(all[4], all[5..], text);
    FirstMatchOne(all[5], all[6..], text);
    forall i: nat | i < 6 ensures all[i..] == [all[i]] + all[i + 1..] {
    }
  }

  /** The expression always matches something at the beginning of a text, and never the empty string. */
  lemma PretokenExists(text: seq<Byte>)
    requires text != []
    ensures PretokenEnd(text) == Some(PretokenSize(text))
  {
    FirstMatchConcat(Contractions(), Words(), text);
    ContractionsMatch(text);
    WordsMatch(text);
  }

  function PretokenSize(text: seq<Byte>): (length: nat)
    requires text != []
    ensures 0 < length <= |text|
  {
    if ContractionLength(text) != 0 then ContractionLength(text) else WordsEnd(text).value
  }

  /** `pretoken_length`: the scanner finds what the expression finds. */
  method PretokenLength(text: seq<Byte>) returns (length: nat)
    requires text != []
    ensures PretokenEnd(text) == Some(length) && 0 < length <= |text|
  {
    PretokenExists(text);
    length := 1;
    var contraction := ContractionLoop(text);
    if contraction != 0 {
      return contraction;
    }
    var optional := if !IsNewline(text[0]) && !IsLetter(text[0]) && !IsDigit(text[0]) then 1 else 0;
    if optional < |text| && IsLetter(text[optional]) {
      length := SkipRun(Letter, text, optional + 1);
      return;
    }
    if IsDigit(text[0]) {
      return 1;
    }
    var optionalSpace := if text[0] == BLANK_BYTE then 1 else 0;
    if optionalSpace < |text| && IsPunctuation(text[optionalSpace]) {
      var end := SkipRun(Other, text, optionalSpace + 1);
      length := SkipRun(Newline, text, end);
      return;
    }
    if IsSpace(text[0]) {
      var run := SkipRun(Space, text, 1);
      var lastNewlineEnd := FindLastNewline(text, run);
      if lastNewlineEnd != 0 {
        return lastNewlineEnd;
      }
      if run == |text| {
        return run;
      }
      return if run > 1 then run - 1 else run;
    }
    assert false;  // every byte is a letter, a digit, a space or something else
  }

  /** The loop over the seven contraction lengths. */
  method ContractionLoop(text: seq<Byte>) returns (length: nat)
    ensures length == ContractionLength(text)
  {
    var lengths := [2, 2, 3, 3, 2, 3, 2];
    var i := 0;
    while i < |lengths|
      invariant i <= |lengths|
      invariant i > 0 ==> !(|text| >= 2 && ContractionMatches(text[..2]))
      invariant i > 2 ==> !(|text| >= 3 && ContractionMatches(text[..3]))
    {
      length := lengths[i];
      if |text| >= length && ContractionMatches(text[..length]) {
        return;
      }
      i := i + 1;
    }
    length := 0;
  }

  method FindLastNewline(text: seq<Byte>, run: nat) returns (last: nat)
    requires run <= |text|
    ensures LastNewlineEnd(text, 0, run) == if last == 0 then None else Some(last)
  {
    last := 0;
    var at := 0;
    while at < run
      invariant at <= run && LastNewlineEnd(text, 0, at) == if last == 0 then None else Some(last)
    {
      if IsNewline(text[at]) {
        last := at + 1;
      }
      at := at + 1;
    }
  }
}
