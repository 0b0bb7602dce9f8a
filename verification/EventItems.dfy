/**
 What the serial port carries: records, display boundaries, and console text that the firmware mirrors there. On such
 writes, cut off anywhere, the scan finds exactly the complete records and boundaries, in order.
 */
module EventItems {
  import opened Wrappers
  import opened Utf8
  import opened EventWire

  /** A write to the serial port. */
  datatype Write = Write(kind: Kind, bytes: seq<Byte>)

  /** A record: the prefix, no control bytes that matter, CR LF at the end. */
  predicate GoodRecord(v: seq<Byte>) {
    && |v| >= |PREFIX| + 2 && PREFIX <= v && EndsCrlf(v)
    && forall i | 0 <= i < |v| - 2 :: v[i] != CR && v[i] != LF && v[i] != NUL
  }

  /** "PROMPTBOOT_EVENTS_", which both boundaries have behind their first NUL */
  const BOUNDARY_WORD: seq<Byte> :=
    [0x50, 0x52, 0x4f, 0x4d, 0x50, 0x54, 0x42, 0x4f, 0x4f, 0x54, 0x5f, 0x45, 0x56, 0x45, 0x4e, 0x54, 0x53, 0x5f]

  /** Console text: no NUL, no record prefix anywhere, and not what a boundary says. */
  ghost predicate GoodText(text: seq<Byte>) {
    && (forall i | 0 <= i < |text| :: text[i] != NUL)
    && NoStart(text, [], PREFIX)
    && !(BOUNDARY_WORD <= text)
  }

  /** The beginning of a boundary and console text behind it: no NUL but the first byte, and no record prefix. */
  ghost predicate TornBoundary(part: seq<Byte>) {
    && part != [] && part[0] == NUL && (forall i | 0 < i < |part| :: part[i] != NUL)
    && NoStart(part, [], PREFIX)
  }

  ghost predicate GoodWrite(w: Write) {
    match w.kind
    case RECORD => GoodRecord(w.bytes)
    case TEXT => GoodText(w.bytes) || TornBoundary(w.bytes)
    case _ => w.bytes == FrameOf(w.kind)
  }

  ghost predicate Torn(w: Write) {
    w.kind == TEXT && TornBoundary(w.bytes)
  }

  /** A torn boundary is followed by a record; text is not followed by more text. */
  ghost predicate GoodNext(w: Write, next: Write) {
    && (Torn(w) ==> next.kind == RECORD)
    && (w.kind == TEXT && next.kind == TEXT ==> Torn(next))
  }

  ghost predicate GoodWrites(writes: seq<Write>) {
    && (forall i | 0 <= i < |writes| :: GoodWrite(writes[i]))
    && (forall i | 0 <= i < |writes| - 1 :: GoodNext(writes[i], writes[i + 1]))
  }

  /** What a capture may end with: the beginning of a record or a boundary, but not all of it. */
  ghost predicate UnfinishedWrite(tail: seq<Byte>) {
    tail == [] || exists w :: GoodWrite(w) && w.kind != TEXT && tail < w.bytes
  }

  /** Writes, and the beginning of one more. */
  ghost predicate Capture(writes: seq<Write>, tail: seq<Byte>) {
    && GoodWrites(writes) && UnfinishedWrite(tail)
    && (writes != [] && Torn(writes[|writes| - 1]) ==> tail == [])
  }

  function Wire(writes: seq<Write>): seq<Byte> {
    if writes == [] then [] else writes[0].bytes + Wire(writes[1..])
  }

  function ItemOf(w: Write, base: nat): seq<Item> {
    if w.kind == TEXT then [] else [Item(w.kind, w.bytes, base, base + |w.bytes|)]
  }

  /** The items that a parser should find in the writes. */
  function Layout(writes: seq<Write>, base: nat): seq<Item> {
    if writes == [] then [] else ItemOf(writes[0], base) + Layout(writes[1..], base + |writes[0].bytes|)
  }

  lemma CaptureTail(writes: seq<Write>, tail: seq<Byte>)
    requires Capture(writes, tail) && writes != []
    ensures Capture(writes[1..], tail) && GoodWrite(writes[0])
    ensures |writes| > 1 ==> GoodNext(writes[0], writes[1])
  {
    forall i | 0 <= i < |writes| - 1 ensures writes[1..][i] == writes[i + 1] {
    }
  }

  lemma WireSplit(writes: seq<Write>, tail: seq<Byte>)
    requires writes != []
    ensures Wire(writes) + tail == writes[0].bytes + (Wire(writes[1..]) + tail)
  {
  }

  lemma WireOne(w: Write)
    ensures Wire([w]) == w.bytes
  {
    assert [w][1..] == [];
  }

  lemma {:induction false} WireConcat(a: seq<Write>, b: seq<Write>)
    ensures Wire(a + b) == Wire(a) + Wire(b)
  {
    if a == [] {
      assert a + b == b;
    } else {
      assert (a + b)[1..] == a[1..] + b;
      WireConcat(a[1..], b);
      assert a[0].bytes + (Wire(a[1..]) + Wire(b)) == a[0].bytes + Wire(a[1..]) + Wire(b);
    }
  }

  // ---- what can follow ----

  /** Nothing, a NUL, or something that starts like a record. */
  predicate Begins(rest: seq<Byte>) {
    rest == [] || rest[0] == NUL || StartsRecord(rest)
  }

  predicate StartsRecord(rest: seq<Byte>) {
    rest != [] && forall i | 0 <= i < |rest| && i < |PREFIX| :: rest[i] == PREFIX[i]
  }

  lemma RecordStarts(v: seq<Byte>, rest: seq<Byte>)
    requires GoodRecord(v)
    ensures StartsRecord(v + rest)
  {
    forall i | 0 <= i < |PREFIX| ensures (v + rest)[i] == PREFIX[i] {
      assert (v + rest)[i] == v[i];
    }
  }

  lemma TailBegins(tail: seq<Byte>)
    requires UnfinishedWrite(tail)
    ensures Begins(tail)
  {
    if tail != [] {
      var w :| GoodWrite(w) && w.kind != TEXT && tail < w.bytes;
      if w.kind == RECORD {
        forall i | 0 <= i < |tail| && i < |PREFIX| ensures tail[i] == PREFIX[i] {
          assert tail[i] == w.bytes[i];
        }
      }
    }
  }

  /** Unless console text comes next. */
  lemma WireBegins(writes: seq<Write>, tail: seq<Byte>)
    requires Capture(writes, tail)
    requires writes == [] || writes[0].kind != TEXT || Torn(writes[0])
    ensures Begins(Wire(writes) + tail)
  {
    if writes == [] {
      assert Wire(writes) + tail == tail;
      TailBegins(tail);
    } else {
      var rest := Wire(writes[1..]) + tail;
      assert GoodWrite(writes[0]);
      WireSplit(writes, tail);
      if writes[0].kind == RECORD {
        RecordStarts(writes[0].bytes, rest);
      }
    }
  }

  /** Behind a torn boundary: a record, or nothing. */
  lemma AfterTorn(writes: seq<Write>, tail: seq<Byte>)
    requires Capture(writes, tail) && writes != [] && Torn(writes[0])
    ensures var rest := Wire(writes[1..]) + tail; rest == [] || (|rest| >= |PREFIX| && StartsRecord(rest))
  {
    CaptureTail(writes, tail);
    if |writes| > 1 {
      CaptureTail(writes[1..], tail);
      WireSplit(writes[1..], tail);
      RecordStarts(writes[1].bytes, Wire(writes[1..][1..]) + tail);
    } else {
      assert Wire(writes[1..]) + tail == [];
    }
  }

  // ---- boundaries ----

  lemma BoundaryShape(kind: Kind, k: nat)
    requires 0 < k < |FrameOf(kind)| - 1
    ensures FrameOf(kind)[k] != NUL
    ensures k <= 18 ==> FrameOf(kind)[k] == BOUNDARY_WORD[k - 1]
    ensures FrameOf(kind)[k] == 0x50 ==> k == 1 || k == 5
  {
  }

  /** One byte that differs, or is missing, is enough. */
  lemma Differs(s: seq<Byte>, word: seq<Byte>, i: nat, k: nat)
    requires k < |word| && (i + k < |s| ==> s[i + k] != word[k])
    ensures !HasAt(s, word, i)
  {
    if i + |word| <= |s| {
      assert s[i..i + |word|][k] == s[i + k];
    }
  }

  /** No boundary starts inside a record or inside console text. */
  lemma NoNulNoBoundary(part: seq<Byte>, rest: seq<Byte>, kind: Kind)
    requires forall i | 0 <= i < |part| :: part[i] != NUL
    ensures NoStart(part, rest, FrameOf(kind))
  {
    forall i: nat | i < |part| ensures !HasAt(part + rest, FrameOf(kind), i) {
      Differs(part + rest, FrameOf(kind), i, 0);
    }
  }

  /** A NUL and the beginning of a record are no boundary. */
  lemma NotBeforeRecord(rest: seq<Byte>, kind: Kind)
    requires Begins(rest)
    ensures !HasAt([NUL] + rest, FrameOf(kind), 0)
  {
    BoundaryShape(kind, 1);
    BoundaryShape(kind, 17);
    Differs([NUL] + rest, FrameOf(kind), 0, if rest == [] || rest[0] == NUL then 1 else 17);
  }

  /** Nor are a NUL and console text, whatever write comes behind it. */
  lemma NotBeforeText(text: seq<Byte>, rest: seq<Byte>, kind: Kind)
    requires GoodText(text) && Begins(rest)
    ensures !HasAt([NUL] + (text + rest), FrameOf(kind), 0)
  {
    var n := |text|;
    if n >= 18 {
      var k :| 0 <= k < 18 && text[k] != BOUNDARY_WORD[k];
      BoundaryShape(kind, k + 1);
      Differs([NUL] + (text + rest), FrameOf(kind), 0, k + 1);
    } else {
      BoundaryShape(kind, n + 1);
      BoundaryShape(kind, 17);
      Differs([NUL] + (text + rest), FrameOf(kind), 0,
              if rest == [] then 20 else if rest[0] == NUL || (n != 0 && n != 4) then n + 1 else if n == 0 then 17 else 6);
    }
  }

  /** The NUL that closes a boundary does not open another. */
  lemma AfterClose(writes: seq<Write>, tail: seq<Byte>, kind: Kind)
    requires Capture(writes, tail)
    ensures !HasAt([NUL] + (Wire(writes) + tail), FrameOf(kind), 0)
  {
    if writes != [] && writes[0].kind == TEXT && !Torn(writes[0]) {
      CaptureTail(writes, tail);
      WireSplit(writes, tail);
      WireBegins(writes[1..], tail);
      NotBeforeText(writes[0].bytes, Wire(writes[1..]) + tail, kind);
    } else {
      WireBegins(writes, tail);
      NotBeforeRecord(Wire(writes) + tail, kind);
    }
  }

  /** No boundary of another kind starts inside a boundary. */
  lemma BoundaryHoldsNoOther(mark: Kind, rest: seq<Byte>, kind: Kind)
    requires mark in {ON, OFF} && kind in {ON, OFF} && mark != kind
    requires !HasAt([NUL] + rest, FrameOf(kind), 0)
    ensures NoStart(FrameOf(mark), rest, FrameOf(kind))
  {
    var f := FrameOf(mark);
    forall i: nat | i < |f| ensures !HasAt(f + rest, FrameOf(kind), i) {
      if i == |f| - 1 {
        LastByte(f, rest, FrameOf(kind));
      } else {
        if i > 0 {
          BoundaryShape(mark, i);
        }
        Differs(f + rest, FrameOf(kind), i, if i == 0 then 20 else 0);
      }
    }
  }

  lemma LastByte(f: seq<Byte>, rest: seq<Byte>, word: seq<Byte>)
    requires f != [] && f[|f| - 1] == NUL
    ensures HasAt(f + rest, word, |f| - 1) <==> HasAt([NUL] + rest, word, 0)
  {
    if |f| - 1 + |word| <= |f + rest| {
      assert (f + rest)[|f| - 1..|f| - 1 + |word|] == ([NUL] + rest)[..|word|];
    }
  }

  lemma PartIsTorn(part: seq<Byte>, kind: Kind)
    requires kind in {ON, OFF} && part != [] && part < FrameOf(kind)
    ensures TornBoundary(part)
  {
    forall i | 0 < i < |part| ensures part[i] != NUL {
      BoundaryShape(kind, i);
    }
    forall i: nat | i < |part| ensures !HasAt(part + [], PREFIX, i) {
      BoundaryShape(kind, 17);
      Differs(part + [], PREFIX, i, if i == 0 then 0 else if i == 1 then 16 else 20);
    }
  }

  /** Nothing, or a whole record first. */
  predicate RecordOrNothing(rest: seq<Byte>) {
    rest == [] || (|rest| >= |PREFIX| && StartsRecord(rest))
  }

  /** No boundary starts inside a torn one. */
  lemma TornHoldsNoBoundary(part: seq<Byte>, rest: seq<Byte>, kind: Kind)
    requires TornBoundary(part) && RecordOrNothing(rest) && kind in {ON, OFF}
    ensures NoStart(part, rest, FrameOf(kind))
  {
    forall i: nat | i < |part| ensures !HasAt(part + rest, FrameOf(kind), i) {
      if i > 0 {
        Differs(part + rest, FrameOf(kind), i, 0);
      } else {
        TornAtZero(part, rest, kind);
      }
    }
  }

  /** The NUL that would close it is not there. */
  lemma TornAtZero(part: seq<Byte>, rest: seq<Byte>, kind: Kind)
    requires TornBoundary(part) && RecordOrNothing(rest) && kind in {ON, OFF}
    ensures !HasAt(part + rest, FrameOf(kind), 0)
  {
    var n, last := |part|, |FrameOf(kind)| - 1;
    if n == 1 && rest != [] {
      BoundaryShape(kind, 17);
      Differs(part + rest, FrameOf(kind), 0, 17);
    } else {
      if n <= last && rest != [] {
        assert (part + rest)[last] == rest[last - n] == PREFIX[last - n];
        if last > n {
          PrefixShape(last - n);
        }
      }
      Differs(part + rest, FrameOf(kind), 0, last);
    }
  }

  // ---- prefixes ----

  lemma PrefixShape(k: nat)
    requires 0 < k < |PREFIX|
    ensures PREFIX[k] == 0x50 ==> k == 4
    ensures PREFIX[k] != NUL
  {
  }

  /** Where no record starts, none starts with its end outside either. */
  lemma NoPrefixBefore(text: seq<Byte>, rest: seq<Byte>)
    requires NoStart(text, [], PREFIX) && Begins(rest)
    ensures NoStart(text, rest, PREFIX)
  {
    var n := |text|;
    forall i: nat | i < n ensures !HasAt(text + rest, PREFIX, i) {
      if i + |PREFIX| <= n {
        assert text + [] == text;
        WithinFirst(text, rest, PREFIX, i);
      } else {
        PrefixShape(n - i);
        Differs(text + rest, PREFIX, i,
                if rest == [] then 20 else if rest[0] == NUL || n - i != 4 then n - i else 5);
      }
    }
  }

  /** No record starts inside a boundary. */
  lemma BoundaryHoldsNoPrefix(kind: Kind, rest: seq<Byte>)
    ensures NoStart(FrameOf(kind), rest, PREFIX)
  {
    var f := FrameOf(kind);
    forall i: nat | i < |f| ensures !HasAt(f + rest, PREFIX, i) {
      if 0 < i < |f| - 1 {
        BoundaryShape(kind, i);
      }
      Differs(f + rest, PREFIX, i, if i == 1 then 16 else if i == 5 then 1 else 0);
    }
  }

  // ---- boundaries on the wire ----

  /** The writes, and what is left behind each, keep a search word apart from everything that is not it. */
  ghost predicate Apart(writes: seq<Write>, tail: seq<Byte>, kind: Kind, frame: seq<Byte>) {
    && frame != [] && NoStart(tail, [], frame)
    && forall i | 0 <= i < |writes| ::
         if writes[i].kind == kind then writes[i].bytes == frame
         else NoStart(writes[i].bytes, Wire(writes[i + 1..]) + tail, frame)
  }

  lemma ApartTail(writes: seq<Write>, tail: seq<Byte>, kind: Kind, frame: seq<Byte>)
    requires Apart(writes, tail, kind, frame) && writes != []
    ensures Apart(writes[1..], tail, kind, frame)
  {
    forall i | 0 <= i < |writes| - 1 ensures writes[1..][i] == writes[i + 1] && writes[1..][i + 1..] == writes[i + 2..] {
    }
  }

  /** The search finds exactly the writes that are the word, each in its place. */
  lemma {:induction false} FramesOnWire(s: seq<Byte>, writes: seq<Write>, tail: seq<Byte>, base: nat, kind: Kind,
                                        frame: seq<Byte>)
    requires Apart(writes, tail, kind, frame) && kind != TEXT && s == Wire(writes) + tail
    ensures Frames(s, base, kind, frame) == OfKind(Layout(writes, base), kind)
    decreases |writes|
  {
    if writes == [] {
      assert s == tail;
      NoFrames(tail, base, kind, frame);
    } else {
      var mine, bytes, rest := writes[0].kind == kind, writes[0].bytes, Wire(writes[1..]) + tail;
      var next := base + |bytes|;
      ApartTail(writes, tail, kind, frame);
      FramesOnWire(rest, writes[1..], tail, next, kind, frame);
      WireSplit(writes, tail);
      FramesOfOne(bytes, mine, rest, base, kind, frame);
      LayoutUnfold(writes, base, next, kind);
    }
  }

  lemma LayoutUnfold(writes: seq<Write>, base: nat, next: nat, kind: Kind)
    requires writes != [] && kind != TEXT && next == base + |writes[0].bytes|
    ensures OfKind(Layout(writes, base), kind)
         == Single(writes[0].kind == kind, kind, writes[0].bytes, base) + OfKind(Layout(writes[1..], next), kind)
  {
    var layout, later := Layout(writes, base), Layout(writes[1..], next);
    if writes[0].kind == TEXT {
      assert layout == later;
    } else {
      assert layout[1..] == later;
    }
  }

  lemma NotOfKind(writes: seq<Write>, base: nat, next: nat, kind: Kind)
    requires writes != [] && kind != TEXT && writes[0].kind != kind && next == base + |writes[0].bytes|
    ensures OfKind(Layout(writes, base), kind) == OfKind(Layout(writes[1..], next), kind)
  {
    LayoutUnfold(writes, base, next, kind);
  }

  /** An unfinished write holds no boundary. */
  lemma TailHoldsNoBoundary(tail: seq<Byte>, kind: Kind)
    requires UnfinishedWrite(tail) && kind in {ON, OFF}
    ensures NoStart(tail, [], FrameOf(kind))
  {
    if tail != [] {
      var w :| GoodWrite(w) && w.kind != TEXT && tail < w.bytes;
      if w.kind == RECORD {
        forall i | 0 <= i < |tail| ensures tail[i] != NUL {
          assert tail[i] == w.bytes[i];
        }
        NoNulNoBoundary(tail, [], kind);
      } else {
        PartIsTorn(tail, w.kind);
        TornHoldsNoBoundary(tail, [], kind);
      }
    }
  }

  lemma RecordHasNoNul(v: seq<Byte>)
    requires GoodRecord(v)
    ensures forall i | 0 <= i < |v| :: v[i] != NUL
  {
  }

  lemma WriteApart(writes: seq<Write>, tail: seq<Byte>, kind: Kind)
    requires Capture(writes, tail) && writes != [] && kind in {ON, OFF} && writes[0].kind != kind
    ensures NoStart(writes[0].bytes, Wire(writes[1..]) + tail, FrameOf(kind))
  {
    var w, rest := writes[0], Wire(writes[1..]) + tail;
    CaptureTail(writes, tail);
    if w.kind == RECORD {
      RecordHasNoNul(w.bytes);
      NoNulNoBoundary(w.bytes, rest, kind);
    } else if w.kind != TEXT {
      AfterClose(writes[1..], tail, kind);
      BoundaryHoldsNoOther(w.kind, rest, kind);
    } else if Torn(w) {
      AfterTorn(writes, tail);
      TornHoldsNoBoundary(w.bytes, rest, kind);
    } else {
      NoNulNoBoundary(w.bytes, rest, kind);
    }
  }

  /** On the wire the boundaries are apart from everything else. */
  lemma {:induction false} BoundariesApart(writes: seq<Write>, tail: seq<Byte>, kind: Kind)
    requires Capture(writes, tail) && kind in {ON, OFF}
    ensures Apart(writes, tail, kind, FrameOf(kind))
  {
    TailHoldsNoBoundary(tail, kind);
    if writes != [] {
      CaptureTail(writes, tail);
      BoundariesApart(writes[1..], tail, kind);
      if writes[0].kind != kind {
        WriteApart(writes, tail, kind);
      }
      forall i | 0 < i < |writes| ensures writes[i] == writes[1..][i - 1] && writes[i + 1..] == writes[1..][i..] {
      }
    }
  }

  // ---- records on the wire ----

  /** No record starts inside a write that is none. */
  lemma NoRecordInside(writes: seq<Write>, tail: seq<Byte>)
    requires Capture(writes, tail) && writes != [] && writes[0].kind != RECORD
    ensures NoStart(writes[0].bytes, Wire(writes[1..]) + tail, PREFIX)
  {
    var w, rest := writes[0], Wire(writes[1..]) + tail;
    CaptureTail(writes, tail);
    if w.kind != TEXT {
      BoundaryHoldsNoPrefix(w.kind, rest);
    } else if Torn(w) {
      AfterTorn(writes, tail);
      NoPrefixBefore(w.bytes, rest);
    } else {
      WireBegins(writes[1..], tail);
      NoPrefixBefore(w.bytes, rest);
    }
  }

  lemma TailIsOpen(tail: seq<Byte>)
    requires UnfinishedWrite(tail)
    ensures OpenEnd(tail)
  {
    if tail != [] {
      var w :| GoodWrite(w) && w.kind != TEXT && tail < w.bytes;
      forall i | 0 <= i < |tail| ensures tail[i] == w.bytes[i] && tail[i] != LF && (i < |tail| - 1 ==> tail[i] != CR) {
        if w.kind != RECORD && 0 < i < |w.bytes| - 1 {
          BoundaryHasNoLineEnd(w.kind, i);
        }
      }
    }
  }

  lemma BoundaryHasNoLineEnd(kind: Kind, i: nat)
    requires i < |FrameOf(kind)|
    ensures FrameOf(kind)[i] != CR && FrameOf(kind)[i] != LF
  {
  }

  /**
   The line scan finds exactly the records, each in its place. `text` is what came before them since the last record.
   */
  lemma {:induction false} RecordsOnWire(s: seq<Byte>, text: seq<Byte>, writes: seq<Write>, tail: seq<Byte>, base: nat,
                                         start: nat, allow: bool, items: seq<Item>)
    requires Capture(writes, tail) && (allow || tail == []) && NoStart(text, Wire(writes) + tail, PREFIX)
    requires s == text + (Wire(writes) + tail) && start == base + |text|
    requires items == OfKind(Layout(writes, start), RECORD)
    ensures Records(s, base, allow, PREFIX) == Ok(items)
    decreases |writes|, 1
  {
    if writes == [] {
      assert Wire(writes) + tail == tail;
      TailIsOpen(tail);
      TextToTheEnd(s, text, tail, base, allow, PREFIX);
    } else {
      var bytes, rest := writes[0].bytes, Wire(writes[1..]) + tail;
      CaptureTail(writes, tail);
      WireSplit(writes, tail);
      if writes[0].kind == RECORD {
        RecordAhead(s, text, writes, tail, bytes, rest, base, start, allow, items);
      } else {
        NoRecordInside(writes, tail);
        NoStartConcat(text, bytes, rest, PREFIX);
        Associate(text, bytes, rest);
        NotOfKind(writes, start, start + |bytes|, RECORD);
        RecordsOnWire(s, text + bytes, writes[1..], tail, base, start + |bytes|, allow, items);
      }
    }
  }

  lemma {:induction false} RecordAhead(s: seq<Byte>, text: seq<Byte>, writes: seq<Write>, tail: seq<Byte>, v: seq<Byte>,
                                       rest: seq<Byte>, base: nat, start: nat, allow: bool, items: seq<Item>)
    requires writes != [] && Capture(writes[1..], tail) && (allow || tail == [])
    requires writes[0] == Write(RECORD, v) && GoodRecord(v) && rest == Wire(writes[1..]) + tail
    requires NoStart(text, v + rest, PREFIX) && s == text + (v + rest) && start == base + |text|
    requires items == OfKind(Layout(writes, start), RECORD)
    ensures Records(s, base, allow, PREFIX) == Ok(items)
    decreases |writes|, 0
  {
    var next := start + |v|;
    var later := OfKind(Layout(writes[1..], next), RECORD);
    LayoutUnfold(writes, start, next, RECORD);
    NothingBefore(rest);
    RecordsOnWire(rest, [], writes[1..], tail, next, next, allow, later);
    RecordFound(s, text, v, rest, base, start, next, allow, later);
  }

  lemma NothingBefore(s: seq<Byte>)
    ensures [] + s == s && NoStart([], s, PREFIX)
  {
  }

  lemma RecordFound(s: seq<Byte>, text: seq<Byte>, v: seq<Byte>, rest: seq<Byte>, base: nat, start: nat, next: nat,
                    allow: bool, later: seq<Item>)
    requires GoodRecord(v) && s == text + (v + rest) && NoStart(text, v + rest, PREFIX)
    requires start == base + |text| && next == start + |v| && Records(rest, next, allow, PREFIX) == Ok(later)
    ensures Records(s, base, allow, PREFIX) == Ok(Single(true, RECORD, v, start) + later)
  {
    TextThenRecord(s, text, v, rest, v + rest, base, start, next, allow, PREFIX, Ok(later));
  }

  // ---- all items ----

  lemma {:induction false} LayoutIncreasing(writes: seq<Write>, base: nat)
    requires forall i | 0 <= i < |writes| :: GoodWrite(writes[i])
    ensures Increasing(Layout(writes, base)) && From(Layout(writes, base), base)
    ensures forall i | 0 <= i < |Layout(writes, base)| :: Layout(writes, base)[i].kind != TEXT
  {
    if writes != [] {
      var bytes := writes[0].bytes;
      LayoutIncreasing(writes[1..], base + |bytes|);
      assert GoodWrite(writes[0]);
    }
  }

  lemma {:induction false} KindsPartition(items: seq<Item>)
    requires forall i | 0 <= i < |items| :: items[i].kind != TEXT
    ensures multiset(OfKind(items, RECORD)) + multiset(OfKind(items, ON)) + multiset(OfKind(items, OFF)) == multiset(items)
  {
    if items != [] {
      KindsPartition(items[1..]);
      SplitHead(items);
    }
  }

  /** On any writes, cut off anywhere, the parser finds the complete ones, in order and in place. */
  lemma ItemsOnWire(writes: seq<Write>, tail: seq<Byte>, allow: bool)
    requires Capture(writes, tail) && (allow || tail == [])
    ensures Items(Wire(writes) + tail, allow) == Ok(Layout(writes, 0))
  {
    var payload, layout := Wire(writes) + tail, Layout(writes, 0);
    NothingBefore(payload);
    RecordsOnWire(payload, [], writes, tail, 0, 0, allow, OfKind(layout, RECORD));
    BoundariesApart(writes, tail, ON);
    BoundariesApart(writes, tail, OFF);
    FramesOnWire(payload, writes, tail, 0, ON, ON_FRAME);
    FramesOnWire(payload, writes, tail, 0, OFF, OFF_FRAME);
    LayoutIncreasing(writes, 0);
    SortOfKinds(layout);
  }

  lemma SortOfKinds(layout: seq<Item>)
    requires Increasing(layout) && forall i | 0 <= i < |layout| :: layout[i].kind != TEXT
    ensures SortItems(OfKind(layout, RECORD) + OfKind(layout, ON) + OfKind(layout, OFF)) == layout
  {
    var all := OfKind(layout, RECORD) + OfKind(layout, ON) + OfKind(layout, OFF);
    KindsPartition(layout);
    SortSorted(all);
    SortedUnique(layout, SortItems(all));
  }
}
