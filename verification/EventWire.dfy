/**
 Finding the items of a serial capture: event records by line, display boundaries by search, both sorted by place.
 */
module EventWire {
  import opened Wrappers
  import opened Utf8

  const NUL: Byte := 0
  const LF: Byte := 10
  const CR: Byte := 13

  /** "PROMPTBOOT_EVENT v=1 " */
  const PREFIX: seq<Byte> :=
    [0x50, 0x52, 0x4f, 0x4d, 0x50, 0x54, 0x42, 0x4f, 0x4f, 0x54, 0x5f, 0x45, 0x56, 0x45, 0x4e, 0x54, 0x20, 0x76, 0x3d,
     0x31, 0x20]
  /** "\0PROMPTBOOT_EVENTS_ON\0" */
  const ON_FRAME: seq<Byte> :=
    [0, 0x50, 0x52, 0x4f, 0x4d, 0x50, 0x54, 0x42, 0x4f, 0x4f, 0x54, 0x5f, 0x45, 0x56, 0x45, 0x4e, 0x54, 0x53, 0x5f,
     0x4f, 0x4e, 0]
  /** "\0PROMPTBOOT_EVENTS_OFF\0" */
  const OFF_FRAME: seq<Byte> :=
    [0, 0x50, 0x52, 0x4f, 0x4d, 0x50, 0x54, 0x42, 0x4f, 0x4f, 0x54, 0x5f, 0x45, 0x56, 0x45, 0x4e, 0x54, 0x53, 0x5f,
     0x4f, 0x46, 0x46, 0]

  datatype Kind = RECORD | ON | OFF | TEXT

  datatype Item = Item(kind: Kind, value: seq<Byte>, start: nat, end: nat)

  datatype ScanError = IncompleteRecord

  // ---- searching ----

  predicate HasAt(s: seq<Byte>, word: seq<Byte>, at: nat) {
    at + |word| <= |s| && s[at..at + |word|] == word
  }

  /** The first place of `word` in `s`. */
  function Find(s: seq<Byte>, word: seq<Byte>): (at: Option<nat>)
    ensures at.Some? ==> HasAt(s, word, at.value)
  {
    if HasAt(s, word, 0) then Some(0)
    else if s == [] then None
    else
      match Find(s[1..], word)
      case None => None
      case Some(at) =>
        assert s[at + 1..at + 1 + |word|] == s[1..][at..at + |word|];
        Some(at + 1)
  }

  /** No occurrence of `word` in `a + b` starts inside `a`. */
  ghost predicate NoStart(a: seq<Byte>, b: seq<Byte>, word: seq<Byte>) {
    forall i: nat | i < |a| :: !HasAt(a + b, word, i)
  }

  function Shifted(at: Option<nat>, offset: nat): Option<nat> {
    if at.Some? then Some(at.value + offset) else None
  }

  lemma HasAtTail(s: seq<Byte>, word: seq<Byte>, at: nat)
    requires s != []
    ensures HasAt(s, word, at + 1) <==> HasAt(s[1..], word, at)
  {
    if at + 1 + |word| <= |s| {
      DropSlice(s, at, at + |word|);
    }
  }

  lemma DropSlice(s: seq<Byte>, a: nat, b: nat)
    requires s != [] && a <= b < |s|
    ensures s[a + 1..b + 1] == s[1..][a..b]
  {
    SliceSlice(s, 1, |s|, a, b);
    assert s[1..|s|] == s[1..];
  }

  lemma TailOfJoin(a: seq<Byte>, b: seq<Byte>)
    requires a != []
    ensures (a + b)[1..] == a[1..] + b
  {
  }

  lemma NoStartTail(a: seq<Byte>, b: seq<Byte>, word: seq<Byte>)
    requires NoStart(a, b, word) && a != []
    ensures NoStart(a[1..], b, word)
  {
    assert (a + b)[1..] == a[1..] + b;
    forall i: nat | i < |a| - 1 ensures !HasAt(a[1..] + b, word, i) {
      HasAtTail(a + b, word, i);
    }
  }

  lemma {:induction false} FindSkips(s: seq<Byte>, a: seq<Byte>, b: seq<Byte>, word: seq<Byte>)
    requires NoStart(a, b, word) && s == a + b
    ensures Find(s, word) == Shifted(Find(b, word), |a|)
  {
    if a == [] {
      assert s == b;
    } else {
      NoStartTail(a, b, word);
      TailOfJoin(a, b);
      FindSkips(s[1..], a[1..], b, word);
      assert !HasAt(s, word, 0);
      FindStep(s, word);
      ShiftTwice(Find(b, word), |a| - 1);
    }
  }

  lemma ShiftTwice(at: Option<nat>, n: nat)
    ensures Shifted(Shifted(at, n), 1) == Shifted(at, n + 1)
  {
  }

  lemma FindStep(s: seq<Byte>, word: seq<Byte>)
    requires s != [] && !HasAt(s, word, 0)
    ensures Find(s, word) == Shifted(Find(s[1..], word), 1)
  {
  }

  // ---- lines ----

  /** Length of the first line, its end included: LF, CR LF or a lone CR. */
  function FirstLine(s: seq<Byte>): (n: nat)
    requires s != []
    ensures 0 < n <= |s|
  {
    if s[0] == LF then 1
    else if s[0] == CR then if |s| > 1 && s[1] == LF then 2 else 1
    else if |s| == 1 then 1
    else 1 + FirstLine(s[1..])
  }

  predicate EndsCrlf(s: seq<Byte>) {
    |s| >= 2 && s[|s| - 2] == CR && s[|s| - 1] == LF
  }

  /** The records of a capture, line by line; `allow` tolerates an unfinished one at the very end. */
  function Records(s: seq<Byte>, base: nat, allow: bool, prefix: seq<Byte>): Result<seq<Item>, ScanError>
    decreases |s|
  {
    if s == [] then Ok([])
    else
      var n := FirstLine(s);
      LineItem(s[..n], s[n..] == [] && allow, base, prefix, Records(s[n..], base + n, allow, prefix))
  }

  /** What one line adds in front of the items of the lines after it. */
  function LineItem(line: seq<Byte>, tolerated: bool, base: nat, prefix: seq<Byte>,
                    later: Result<seq<Item>, ScanError>): Result<seq<Item>, ScanError>
  {
    match Find(line, prefix)
    case None => later
    case Some(at) =>
      if EndsCrlf(line[at..]) then PrependItem(Item(RECORD, line[at..], base + at, base + |line|), later)
      else if tolerated then later
      else Err(IncompleteRecord)
  }

  function PrependItem(item: Item, later: Result<seq<Item>, ScanError>): Result<seq<Item>, ScanError> {
    match later
    case Ok(items) => Ok([item] + items)
    case Err(error) => Err(error)
  }

  function FrameOf(kind: Kind): (frame: seq<Byte>)
    ensures |frame| >= 22
  {
    if kind == OFF then OFF_FRAME else ON_FRAME
  }

  /** The occurrences of one frame, from left to right. */
  function Frames(s: seq<Byte>, base: nat, kind: Kind, frame: seq<Byte>): seq<Item>
    requires frame != []
    decreases |s|
  {
    if s == [] then []
    else if HasAt(s, frame, 0) then
      [Item(kind, frame, base, base + |frame|)] + Frames(s[|frame|..], base + |frame|, kind, frame)
    else Frames(s[1..], base + 1, kind, frame)
  }

  // ---- sorting by place ----

  function InsertItem(x: Item, sorted: seq<Item>): seq<Item> {
    if sorted == [] || x.start < sorted[0].start then [x] + sorted else [sorted[0]] + InsertItem(x, sorted[1..])
  }

  function SortItems(items: seq<Item>): seq<Item> {
    if items == [] then [] else InsertItem(items[|items| - 1], SortItems(items[..|items| - 1]))
  }

  ghost predicate Increasing(items: seq<Item>) {
    forall i, j | 0 <= i < j < |items| :: items[i].start < items[j].start
  }

  ghost predicate NonDecreasing(items: seq<Item>) {
    forall i, j | 0 <= i < j < |items| :: items[i].start <= items[j].start
  }

  lemma {:induction false} InsertKeepsItems(x: Item, sorted: seq<Item>)
    ensures multiset(InsertItem(x, sorted)) == multiset{x} + multiset(sorted)
  {
    if sorted != [] && !(x.start < sorted[0].start) {
      InsertKeepsItems(x, sorted[1..]);
      SplitHead(sorted);
    }
  }

  lemma SplitLast(items: seq<Item>)
    requires items != []
    ensures multiset(items) == multiset{items[|items| - 1]} + multiset(items[..|items| - 1])
  {
    assert items == items[..|items| - 1] + [items[|items| - 1]];
  }

  lemma SplitHead(items: seq<Item>)
    requires items != []
    ensures items == [items[0]] + items[1..] && multiset(items) == multiset{items[0]} + multiset(items[1..])
  {
    assert items == [items[0]] + items[1..];
  }

  /** Every item starts at or after `n`. */
  predicate From(items: seq<Item>, n: nat) {
    forall i | 0 <= i < |items| :: n <= items[i].start
  }

  lemma {:induction false} InsertSorted(x: Item, sorted: seq<Item>, n: nat)
    requires NonDecreasing(sorted) && From(sorted, n) && n <= x.start
    ensures NonDecreasing(InsertItem(x, sorted)) && From(InsertItem(x, sorted), n)
  {
    if sorted != [] && !(x.start < sorted[0].start) {
      InsertSorted(x, sorted[1..], sorted[0].start);
    }
  }

  lemma {:induction false} SortSorted(items: seq<Item>)
    ensures NonDecreasing(SortItems(items)) && multiset(SortItems(items)) == multiset(items)
  {
    if items != [] {
      var n := |items| - 1;
      SortSorted(items[..n]);
      InsertSorted(items[n], SortItems(items[..n]), 0);
      InsertKeepsItems(items[n], SortItems(items[..n]));
      SplitLast(items);
    }
  }

  lemma SameHead(a: seq<Item>, b: seq<Item>)
    requires Increasing(a) && NonDecreasing(b) && multiset(a) == multiset(b) && a != [] && b != []
    ensures a[0] == b[0]
  {
    assert a[0] in multiset(a) && b[0] in multiset(b);
    assert a[0] in multiset(b) && b[0] in multiset(a);
    var i :| 0 <= i < |a| && a[i] == b[0];
    var j :| 0 <= j < |b| && b[j] == a[0];
    assert b[0].start <= b[j].start;
  }

  /** A list of increasing places is the only sorted arrangement of its items. */
  lemma {:induction false} SortedUnique(a: seq<Item>, b: seq<Item>)
    requires Increasing(a) && NonDecreasing(b) && multiset(a) == multiset(b)
    ensures a == b
    decreases |a|
  {
    assert |a| == |multiset(a)| == |multiset(b)| == |b|;
    if a != [] {
      SameHead(a, b);
      SplitHead(a);
      SplitHead(b);
      assert multiset(a[1..]) == multiset(a) - multiset{a[0]};
      assert multiset(b[1..]) == multiset(b) - multiset{b[0]};
      SortedUnique(a[1..], b[1..]);
    }
  }

  /** The items of a capture: records, then boundaries of either kind, then sorted by place. */
  function Items(payload: seq<Byte>, allow: bool): Result<seq<Item>, ScanError> {
    match Records(payload, 0, allow, PREFIX)
    case Err(error) => Err(error)
    case Ok(records) =>
      Ok(SortItems(records + Frames(payload, 0, ON, ON_FRAME) + Frames(payload, 0, OFF, OFF_FRAME)))
  }

  // ---- occurrences of a word ----

  function Single(mine: bool, kind: Kind, bytes: seq<Byte>, base: nat): seq<Item> {
    if mine then [Item(kind, bytes, base, base + |bytes|)] else []
  }

  function OfKind(items: seq<Item>, kind: Kind): seq<Item> {
    if items == [] then []
    else (if items[0].kind == kind then [items[0]] else []) + OfKind(items[1..], kind)
  }

  /** Skipping bytes without an occurrence leaves the occurrences of the rest. */
  lemma {:induction false} FramesSkip(a: seq<Byte>, rest: seq<Byte>, base: nat, kind: Kind, frame: seq<Byte>)
    requires frame != [] && NoStart(a, rest, frame)
    ensures Frames(a + rest, base, kind, frame) == Frames(rest, base + |a|, kind, frame)
  {
    if a == [] {
      assert a + rest == rest;
    } else {
      NoStartTail(a, rest, frame);
      FramesSkip(a[1..], rest, base + 1, kind, frame);
      FramesStep(a + rest, a[1..] + rest, base, kind, frame);
    }
  }

  lemma FramesStep(s: seq<Byte>, tail: seq<Byte>, base: nat, kind: Kind, frame: seq<Byte>)
    requires frame != [] && s != [] && s[1..] == tail && !HasAt(s, frame, 0)
    ensures Frames(s, base, kind, frame) == Frames(tail, base + 1, kind, frame)
  {
  }

  /** An occurrence at the very beginning. */
  lemma FramesFirst(frame: seq<Byte>, rest: seq<Byte>, base: nat, kind: Kind)
    requires frame != []
    ensures Frames(frame + rest, base, kind, frame)
         == [Item(kind, frame, base, base + |frame|)] + Frames(rest, base + |frame|, kind, frame)
  {
    assert (frame + rest)[0..|frame|] == frame && (frame + rest)[|frame|..] == rest;
  }

  lemma NoFrames(s: seq<Byte>, base: nat, kind: Kind, frame: seq<Byte>)
    requires frame != [] && NoStart(s, [], frame)
    ensures Frames(s, base, kind, frame) == []
  {
    FramesSkip(s, [], base, kind, frame);
    assert s + [] == s;
  }

  lemma FramesOfOne(bytes: seq<Byte>, mine: bool, rest: seq<Byte>, base: nat, kind: Kind, frame: seq<Byte>)
    requires frame != [] && if mine then bytes == frame else NoStart(bytes, rest, frame)
    ensures var next := base + |bytes|;
      Frames(bytes + rest, base, kind, frame) == Single(mine, kind, bytes, base) + Frames(rest, next, kind, frame)
  {
    if mine {
      FramesFirst(frame, rest, base, kind);
    } else {
      FramesSkip(bytes, rest, base, kind, frame);
    }
  }

  lemma NoStartConcat(a: seq<Byte>, b: seq<Byte>, rest: seq<Byte>, word: seq<Byte>)
    requires NoStart(a, b + rest, word) && NoStart(b, rest, word)
    ensures NoStart(a + b, rest, word)
  {
    var s := a + b + rest;
    assert s == a + (b + rest);
    forall i: nat | i < |a + b| ensures !HasAt(s, word, i) {
      if i < |a| {
        assert !HasAt(a + (b + rest), word, i);
      } else {
        assert !HasAt(b + rest, word, i - |a|);
        if i + |word| <= |s| {
          assert s[i..i + |word|] == (b + rest)[i - |a|..i - |a| + |word|];
        }
      }
    }
  }

  /** A place inside the first part. */
  lemma WithinFirst(a: seq<Byte>, b: seq<Byte>, word: seq<Byte>, i: nat)
    requires i + |word| <= |a|
    ensures HasAt(a + b, word, i) <==> HasAt(a, word, i)
  {
    assert (a + b)[i..i + |word|] == a[i..i + |word|];
  }

  /** What does not start before a longer rest does not start before the beginning of that rest. */
  lemma NoStartShorter(a: seq<Byte>, b: seq<Byte>, rest: seq<Byte>, word: seq<Byte>)
    requires NoStart(a, b + rest, word)
    ensures NoStart(a, b, word)
  {
    assert a + (b + rest) == a + b + rest;
    forall i: nat | i < |a| ensures !HasAt(a + b, word, i) {
      if i + |word| <= |a + b| {
        WithinFirst(a + b, rest, word, i);
      }
    }
  }

  lemma NoStartSplit(a: seq<Byte>, b: seq<Byte>, rest: seq<Byte>, word: seq<Byte>)
    requires NoStart(a + b, rest, word)
    ensures NoStart(a, b + rest, word) && NoStart(b, rest, word)
  {
    var s := a + b + rest;
    assert s == a + (b + rest);
    forall i: nat | i < |b| ensures !HasAt(b + rest, word, i) {
      assert !HasAt(s, word, |a| + i);
      if i + |word| <= |b + rest| {
        assert s[|a| + i..|a| + i + |word|] == (b + rest)[i..i + |word|];
      }
    }
  }

  lemma NotFound(s: seq<Byte>, rest: seq<Byte>, word: seq<Byte>)
    requires NoStart(s, rest, word) && word != []
    ensures Find(s, word) == None
  {
    assert s + [] == s && [] + rest == rest;
    NoStartShorter(s, [], rest, word);
    FindSkips(s, s, [], word);
  }

  // ---- records behind other text ----

  predicate NoLineEnd(s: seq<Byte>) {
    forall i | 0 <= i < |s| :: s[i] != CR && s[i] != LF
  }

  lemma {:induction false} LineOf(body: seq<Byte>, rest: seq<Byte>)
    requires NoLineEnd(body)
    ensures FirstLine(body + [CR, LF] + rest) == |body| + 2
  {
    var s := body + [CR, LF] + rest;
    if body != [] {
      LineOf(body[1..], rest);
      assert s[1..] == body[1..] + [CR, LF] + rest;
    }
  }

  /** The last line may lack its end. */
  lemma {:induction false} LastLineOf(s: seq<Byte>)
    requires s != [] && NoLineEnd(s[..|s| - 1]) && s[|s| - 1] != LF
    ensures FirstLine(s) == |s|
  {
    if |s| > 1 {
      assert s[0] == s[..|s| - 1][0];
      assert s[1..][..|s| - 2] == s[..|s| - 1][1..];
      LastLineOf(s[1..]);
    }
  }

  lemma RecordsOfLine(line: seq<Byte>, rest: seq<Byte>, base: nat, allow: bool, prefix: seq<Byte>,
                      later: Result<seq<Item>, ScanError>)
    requires line != [] && FirstLine(line + rest) == |line|
    requires later == Records(rest, base + |line|, allow, prefix)
    ensures Records(line + rest, base, allow, prefix) == LineItem(line, rest == [] && allow, base, prefix, later)
  {
    assert (line + rest)[..|line|] == line && (line + rest)[|line|..] == rest;
  }

  lemma RecordLine(junk: seq<Byte>, v: seq<Byte>, rest: seq<Byte>)
    requires NoLineEnd(junk) && EndsCrlf(v) && NoLineEnd(v[..|v| - 2])
    ensures FirstLine(junk + v + rest) == |junk + v|
  {
    var body := junk + v[..|v| - 2];
    assert junk + v + rest == body + [CR, LF] + rest;
    LineOf(body, rest);
  }

  lemma ItemOfLine(junk: seq<Byte>, v: seq<Byte>, tolerated: bool, base: nat, prefix: seq<Byte>,
                   later: Result<seq<Item>, ScanError>)
    requires EndsCrlf(v) && prefix <= v && NoStart(junk, v, prefix)
    ensures LineItem(junk + v, tolerated, base, prefix, later)
         == PrependItem(Item(RECORD, v, base + |junk|, base + |junk + v|), later)
  {
    assert v[0..|prefix|] == prefix;
    FindSkips(junk + v, junk, v, prefix);
    assert (junk + v)[|junk|..] == v;
  }

  /** A line that ends with a record is read as that record. */
  lemma RecordFirst(junk: seq<Byte>, v: seq<Byte>, rest: seq<Byte>, base: nat, start: nat, allow: bool,
                    prefix: seq<Byte>, later: Result<seq<Item>, ScanError>)
    requires NoLineEnd(junk) && EndsCrlf(v) && NoLineEnd(v[..|v| - 2])
    requires prefix <= v && NoStart(junk, v, prefix)
    requires start == base + |junk| && later == Records(rest, start + |v|, allow, prefix)
    ensures Records(junk + v + rest, base, allow, prefix)
         == PrependItem(Item(RECORD, v, start, start + |v|), later)
  {
    assert start + |v| == base + |junk + v|;
    RecordLine(junk, v, rest);
    RecordsOfLine(junk + v, rest, base, allow, prefix, later);
    ItemOfLine(junk, v, rest == [] && allow, base, prefix, later);
  }

  /** An unfinished last line gives nothing. */
  lemma LastLine(s: seq<Byte>, base: nat, allow: bool, prefix: seq<Byte>)
    requires s != [] && NoLineEnd(s[..|s| - 1]) && s[|s| - 1] != LF
    requires allow || Find(s, prefix) == None
    ensures Records(s, base, allow, prefix) == Ok([])
  {
    LastLineOf(s);
    assert s[..|s|] == s && s[|s|..] == [];
    assert Records([], base + |s|, allow, prefix) == Ok([]);
    var found := Find(s, prefix);
    if found.Some? {
      assert !EndsCrlf(s[found.value..]);
    }
  }

  /** What follows does not change the first line, unless it is the LF of a CR LF. */
  lemma {:induction false} FirstLineWithin(a: seq<Byte>, more: seq<Byte>)
    requires a != [] && !NoLineEnd(a) && (more == [] || more[0] != LF)
    ensures FirstLine(a + more) == FirstLine(a)
  {
    var s := a + more;
    if a[0] != CR && a[0] != LF {
      assert s[1..] == a[1..] + more;
      assert forall i | 0 < i < |a| :: a[i] == a[1..][i - 1];
      FirstLineWithin(a[1..], more);
    }
  }

  /** A whole line without the prefix adds nothing. */
  lemma PlainLine(s: seq<Byte>, line: seq<Byte>, rest: seq<Byte>, base: nat, next: nat, allow: bool, prefix: seq<Byte>)
    requires line != [] && prefix != [] && s == line + rest && FirstLine(s) == |line| && next == base + |line|
    requires NoStart(line, rest, prefix)
    ensures Records(s, base, allow, prefix) == Records(rest, next, allow, prefix)
  {
    NotFound(line, rest, prefix);
    RecordsOfLine(line, rest, base, allow, prefix, Records(rest, next, allow, prefix));
  }

  /** The first of several lines of text is skipped. */
  lemma SkipLine(s: seq<Byte>, text: seq<Byte>, body: seq<Byte>, base: nat, allow: bool, prefix: seq<Byte>)
      returns (more: seq<Byte>, next: nat)
    requires prefix != [] && s == text + body && NoStart(text, body, prefix)
    requires !NoLineEnd(text) && (body == [] || body[0] != LF)
    ensures |more| < |text| && next + |more| == base + |text| && NoStart(more, body, prefix)
    ensures Records(s, base, allow, prefix) == Records(more + body, next, allow, prefix)
  {
    var n := FirstLine(text);
    var line := text[..n];
    more, next := text[n..], base + n;
    SplitLine(text, n, body);
    FirstLineWithin(text, body);
    NoStartSplit(line, more, body, prefix);
    PlainLine(s, line, more + body, base, next, allow, prefix);
  }

  /** Text without the prefix, whatever lines it has, and then a record: the record is found. */
  lemma {:induction false} TextThenRecord(s: seq<Byte>, text: seq<Byte>, v: seq<Byte>, rest: seq<Byte>, body: seq<Byte>,
                                          base: nat, start: nat, next: nat, allow: bool, prefix: seq<Byte>,
                                          later: Result<seq<Item>, ScanError>)
    requires prefix != [] && prefix <= v && EndsCrlf(v) && NoLineEnd(v[..|v| - 2]) && body == v + rest && body[0] != LF
    requires s == text + body && NoStart(text, body, prefix)
    requires start == base + |text| && next == start + |v| && later == Records(rest, next, allow, prefix)
    ensures Records(s, base, allow, prefix) == PrependItem(Item(RECORD, v, start, next), later)
    decreases |text|
  {
    if NoLineEnd(text) {
      NoStartShorter(text, v, rest, prefix);
      assert s == text + v + rest;
      RecordFirst(text, v, rest, base, start, allow, prefix, later);
    } else {
      var more, line := SkipLine(s, text, body, base, allow, prefix);
      TextThenRecord(more + body, more, v, rest, body, line, start, next, allow, prefix, later);
    }
  }

  lemma SplitLine(text: seq<Byte>, n: nat, body: seq<Byte>)
    requires n <= |text|
    ensures text == text[..n] + text[n..] && text + body == text[..n] + (text[n..] + body)
  {
  }

  /** What a capture may end with: no line end inside it, and nothing that makes a line complete. */
  predicate OpenEnd(tail: seq<Byte>) {
    tail == [] || (NoLineEnd(tail[..|tail| - 1]) && tail[|tail| - 1] != LF && tail[0] != LF)
  }

  /** Text without the prefix to the end of the capture, with an open end that is tolerated. */
  lemma {:induction false} TextToTheEnd(s: seq<Byte>, text: seq<Byte>, tail: seq<Byte>, base: nat, allow: bool,
                                        prefix: seq<Byte>)
    requires prefix != [] && s == text + tail && NoStart(text, tail, prefix)
    requires OpenEnd(tail) && (allow || tail == [])
    ensures Records(s, base, allow, prefix) == Ok([])
    decreases |text|
  {
    if NoLineEnd(text) {
      if tail == [] {
        assert s == text;
        NotFound(text, [], prefix);
      } else {
        DropLast(text, tail);
      }
      if s != [] {
        LastLine(s, base, allow, prefix);
      }
    } else {
      var more, line := SkipLine(s, text, tail, base, allow, prefix);
      TextToTheEnd(more + tail, more, tail, line, allow, prefix);
    }
  }

  lemma DropLast(a: seq<Byte>, b: seq<Byte>)
    requires b != []
    ensures (a + b)[..|a + b| - 1] == a + b[..|b| - 1]
  {
  }
}
