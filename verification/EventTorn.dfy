/**
 `/events` flips the display flag before the boundary is on the wire. This module says exactly when a capture can be
 read after the boundary was written in part, and what an emitter's wire can be read as in every state.
 */
module EventTorn {
  import opened Wrappers
  import opened Utf8
  import opened EventWire
  import opened EventItems
  import opened EventStream
  import opened EventParse
  import opened EventRuns

  lemma ConcatGood(a: seq<Write>, b: seq<Write>)
    requires GoodWrites(a) && GoodWrites(b) && (a != [] && b != [] ==> GoodNext(a[|a| - 1], b[0]))
    ensures GoodWrites(a + b)
  {
    var writes, n := a + b, |a|;
    forall i | 0 <= i < |writes| - 1 ensures GoodNext(writes[i], writes[i + 1]) {
      if i >= n {
        assert GoodNext(b[i - n], b[i - n + 1]);
      } else if i + 1 < n {
        assert GoodNext(a[i], a[i + 1]);
      }
    }
  }

  /** What a half-failed toggle leaves behind a run: nothing, or a part of the boundary and the text behind it. */
  ghost predicate Noise(bytes: seq<Byte>) {
    bytes == [] || TornBoundary(bytes)
  }

  function TornWrites(noise: seq<Byte>): seq<Write> {
    if noise == [] then [] else [Write(TEXT, noise)]
  }

  lemma TornBytesOf(noise: seq<Byte>)
    ensures Wire(TornWrites(noise)) == noise
  {
    if noise != [] {
      WireOne(Write(TEXT, noise));
    }
  }

  /** All the writes of a run with a torn toggle. */
  function AllWrites(events: seq<Event>, noise: seq<Byte>, copies: seq<Write>): seq<Write> {
    Physical(events, false) + (TornWrites(noise) + copies)
  }

  ghost predicate GoodCopies(copies: seq<Write>) {
    GoodWrites(copies) && forall i | 0 <= i < |copies| :: copies[i].kind == RECORD
  }

  lemma TornGood(events: seq<Event>, noise: seq<Byte>, copies: seq<Write>)
    requires GoodEvents(events) && Noise(noise) && GoodCopies(copies)
    ensures Capture(AllWrites(events, noise, copies), [])
  {
    PhysicalGood(events, false);
    ConcatGood(TornWrites(noise), copies);
    ConcatGood(Physical(events, false), TornWrites(noise) + copies);
  }

  lemma TornWire(events: seq<Event>, noise: seq<Byte>, copies: seq<Write>, extra: seq<Byte>)
    requires extra == Wire(copies)
    ensures Wire(AllWrites(events, noise, copies)) == RunBytes(events) + noise + extra
  {
    TornBytesOf(noise);
    WireConcat(TornWrites(noise), copies);
    WireConcat(Physical(events, false), TornWrites(noise) + copies);
    assert RunBytes(events) + (noise + extra) == RunBytes(events) + noise + extra;
  }

  lemma TornLayouts(events: seq<Event>, noise: seq<Byte>, copies: seq<Write>, mid: nat, end: nat)
    requires mid == |RunBytes(events)| && end == mid + |noise|
    ensures Layout(AllWrites(events, noise, copies), 0) == RunItems(events, false, 0, Layout(copies, end))
  {
    TornBytesOf(noise);
    LayoutConcat(Physical(events, false), TornWrites(noise) + copies, 0, mid);
    LayoutConcat(TornWrites(noise), copies, mid, end);
    TornLayout(noise, mid);
    assert [] + Layout(copies, end) == Layout(copies, end);
  }

  /** A run, a torn boundary, and records behind it: all that the scan can find is the run and those records. */
  lemma TornItems(events: seq<Event>, noise: seq<Byte>, copies: seq<Write>, payload: seq<Byte>, end: nat, allow: bool)
    requires GoodEvents(events) && Noise(noise) && GoodCopies(copies)
    requires payload == RunBytes(events) + noise + Wire(copies) && end == |RunBytes(events)| + |noise|
    ensures Items(payload, allow) == Ok(RunItems(events, false, 0, Layout(copies, end)))
  {
    TornGood(events, noise, copies);
    TornWire(events, noise, copies, Wire(copies));
    ItemsOnWire(AllWrites(events, noise, copies), [], allow);
    assert payload + [] == payload;
    TornLayouts(events, noise, copies, |RunBytes(events)|, end);
  }

  lemma TornLayout(noise: seq<Byte>, base: nat)
    ensures Layout(TornWrites(noise), base) == []
  {
    if noise != [] {
      assert TornWrites(noise)[1..] == [];
      assert Layout([], base + |noise|) == [];
    }
  }

  /** The items of a record that the emitter wrote. */
  lemma CopiesLayout(record: seq<Byte>, display: bool, base: nat)
    ensures var mid := base + |record|;
      Layout(Copies(record, display), base)
      == [Item(RECORD, record, base, mid)]
         + if display then [Item(RECORD, record, mid, mid + |record|)] else []
  {
    var w := Write(RECORD, record);
    LayoutHead(w, [], base, base + |record|);
    assert [w] + [] == [w];
    if display {
      LayoutHead(w, [w], base, base + |record|);
      LayoutHead(w, [], base + |record|, base + |record| + |record|);
      assert Copies(record, true) == [w] + [w];
    }
  }

  /** The error of a torn capture: the parser expects a pair where one copy is, or one copy where a pair is. */
  function TornError(events: seq<Event>): ParseError {
    if Shown(events, false) && DistinctWhileOff(events, false) then Dangling else DisabledPair
  }

  lemma TornRead(events: seq<Event>, record: seq<Byte>, base: nat)
    ensures Read(RunItems(events, false, 0, Layout(Copies(record, !Shown(events, false)), base)), STRICT_FINAL, false)
         == Err(TornError(events))
  {
    var shown := Shown(events, false);
    var ahead := Layout(Copies(record, !shown), base);
    CopiesLayout(record, !shown, base);
    ReadRun(events, false, 0, |RunBytes(events)|, STRICT_FINAL, ahead);
    if shown {
      FlowsAlone(events, false, ahead);
    }
  }

  /**
   What may stand between the first `n` bytes of a boundary and the record: console text that does not make a record
   prefix with them. Text before any of these bytes belongs to the run.
   */
  ghost predicate GoodBetween(boundary: seq<Byte>, n: nat, text: seq<Byte>)
    requires n <= |boundary|
  {
    if n == |boundary| then GoodText(text) else Noise(boundary[..n] + text) && (n == 0 ==> text == [])
  }

  /** Without text this is so for every number of bytes. */
  lemma NothingBetween(display: bool, n: nat)
    requires n <= |Boundary(display).bytes|
    ensures GoodBetween(Boundary(display).bytes, n, [])
  {
    var w := Boundary(display);
    assert w.bytes[..n] + [] == w.bytes[..n];
    if 0 < n < |w.bytes| {
      PartIsTorn(w.bytes[..n], w.kind);
    }
  }

  /** A run that goes on with a toggle, console text and a record. */
  function Toggled(events: seq<Event>, text: seq<Byte>, record: seq<Byte>): seq<Event> {
    events + [Toggle, Mirrored(text), Logged(record)]
  }

  /**
   A run, the first `n` bytes of the boundary of a toggle, console text, and a record under the flipped flag: a strict
   parse succeeds exactly if the boundary is complete and the run with the toggle and the record repeats no record while
   the display is off; and then it gives the records of that run.
   */
  lemma TornToggleExactly(events: seq<Event>, n: nat, text: seq<Byte>, record: seq<Byte>)
    requires GoodEvents(events) && GoodRecord(record) && n <= |Boundary(!Shown(events, false)).bytes|
    requires GoodBetween(Boundary(!Shown(events, false)).bytes, n, text)
    ensures var d, run := !Shown(events, false), Toggled(events, text, record);
      var boundary := Boundary(d).bytes;
      Parsed(RunBytes(events) + (boundary[..n] + text) + OnWire(record, d), STRICT_FINAL)
      == if n < |boundary| then Err(TornError(events))
         else if DistinctWhileOff(run, false) then Ok(Told(run)) else Err(DisabledPair)
  {
    var d := !Shown(events, false);
    var boundary := Boundary(d).bytes;
    if n < |boundary| {
      TornRecordRead(events, boundary[..n] + text, record);
    } else {
      assert boundary[..n] == boundary;
      WholeToggle(events, text, record);
    }
  }

  lemma TornRecordRead(events: seq<Event>, noise: seq<Byte>, record: seq<Byte>)
    requires GoodEvents(events) && GoodRecord(record) && Noise(noise)
    ensures Parsed(RunBytes(events) + noise + OnWire(record, !Shown(events, false)), STRICT_FINAL) == Err(TornError(events))
  {
    var d, end := !Shown(events, false), |RunBytes(events)| + |noise|;
    var payload := RunBytes(events) + noise + OnWire(record, d);
    GoodCopy(record, d);
    CopiesBytes(record, d);
    TornItems(events, noise, Copies(record, d), payload, end, false);
    TornRead(events, record, end);
    NotRead(payload, RunItems(events, false, 0, Layout(Copies(record, d), end)), TornError(events));
  }

  lemma GoodCopy(record: seq<Byte>, display: bool)
    requires GoodRecord(record)
    ensures GoodCopies(Copies(record, display))
  {
  }

  lemma NotRead(payload: seq<Byte>, items: seq<Item>, error: ParseError)
    requires Items(payload, false) == Ok(items) && Read(items, STRICT_FINAL, false) == Err(error)
    ensures Parsed(payload, STRICT_FINAL) == Err(error)
  {
  }

  lemma ToggledBytes(events: seq<Event>, text: seq<Byte>, record: seq<Byte>)
    ensures var d := !Shown(events, false);
      RunBytes(Toggled(events, text, record)) == RunBytes(events) + (Boundary(d).bytes + text) + OnWire(record, d)
  {
    hide RunBytes, Boundary, Shown, OnWire;
    var d := !Shown(events, false);
    assert Toggled(events, text, record) == events + [Toggle] + [Mirrored(text)] + [Logged(record)];
    AfterEvent(events, Toggle, !d);
    AfterEvent(events + [Toggle], Mirrored(text), d);
    AfterEvent(events + [Toggle] + [Mirrored(text)], Logged(record), d);
    assert RunBytes(events) + (Boundary(d).bytes + text) == RunBytes(events) + Boundary(d).bytes + text;
  }

  lemma ToggledGood(events: seq<Event>, text: seq<Byte>, record: seq<Byte>)
    requires GoodEvents(events) && GoodRecord(record) && GoodText(text)
    ensures GoodEvents(Toggled(events, text, record))
  {
    hide GoodRecord, GoodText;
    var run := Toggled(events, text, record);
    forall i | 0 <= i < |run| ensures GoodEvent(run[i]) {
      assert i < |events| ==> run[i] == events[i];
    }
    forall i | 0 <= i < |run| - 1 ensures !(run[i].Mirrored? && run[i + 1].Mirrored?) {
      assert i + 1 < |events| ==> run[i] == events[i] && run[i + 1] == events[i + 1];
    }
  }

  lemma WholeToggle(events: seq<Event>, text: seq<Byte>, record: seq<Byte>)
    requires GoodEvents(events) && GoodRecord(record) && GoodText(text)
    ensures var d, run := !Shown(events, false), Toggled(events, text, record);
      Parsed(RunBytes(events) + (Boundary(d).bytes + text) + OnWire(record, d), STRICT_FINAL)
      == if DistinctWhileOff(run, false) then Ok(Told(run)) else Err(DisabledPair)
  {
    ToggledBytes(events, text, record);
    ToggledGood(events, text, record);
    StrictExactly(Toggled(events, text, record));
  }

  /** Before such a record the capture reads as the run, in either mode. */
  lemma TornReads(events: seq<Event>, noise: seq<Byte>, mode: Mode)
    requires GoodEvents(events) && Noise(noise)
    ensures Parsed(RunBytes(events) + noise, mode) == Parsed(RunBytes(events), mode)
  {
    assert RunBytes(events) + noise + Wire([]) == RunBytes(events) + noise;
    assert RunBytes(events) + [] + Wire([]) == RunBytes(events);
    var base := |RunBytes(events)|;
    TornItems(events, noise, [], RunBytes(events) + noise, base + |noise|, mode == POLLING_PREFIX);
    TornItems(events, [], [], RunBytes(events), base, mode == POLLING_PREFIX);
  }

  lemma TornAlone(events: seq<Event>, noise: seq<Byte>)
    requires GoodEvents(events) && Noise(noise)
    ensures Parsed(RunBytes(events) + noise, STRICT_FINAL)
         == if DistinctWhileOff(events, false) then Ok(Told(events)) else Err(DisabledPair)
  {
    TornReads(events, noise, STRICT_FINAL);
    StrictExactly(events);
  }

  // ---- an emitter's wire ----

  lemma NoisePrefix(noise: seq<Byte>, k: nat)
    requires Noise(noise) && k <= |noise|
    ensures Noise(noise[..k])
  {
    forall i: nat | i < k ensures !HasAt(noise[..k] + [], PREFIX, i) {
      assert noise[..k] + [] == noise[..k] && noise + [] == noise && !HasAt(noise + [], PREFIX, i);
      assert i + |PREFIX| <= k ==> noise[..k][i..i + |PREFIX|] == noise[i..i + |PREFIX|];
    }
  }

  /** Any beginning of a run with a torn toggle can be polled. */
  lemma TornPolls(events: seq<Event>, noise: seq<Byte>, j: nat)
    requires GoodEvents(events) && DistinctWhileOff(events, false) && Noise(noise)
    requires j <= |RunBytes(events) + noise|
    ensures var seen := Parsed((RunBytes(events) + noise)[..j], POLLING_PREFIX);
      seen.Ok? && Known(seen.value) <= Emitted(events)
  {
    var all := RunBytes(events);
    if j <= |all| {
      PollingCaptures(events, j, j);
      assert (all + noise)[..j] == all[..j];
    } else {
      var k := j - |all|;
      NoisePrefix(noise, k);
      TornReads(events, noise[..k], POLLING_PREFIX);
      PollingCaptures(events, |all|, |all|);
      assert (all + noise)[..j] == all + noise[..k];
      assert all[..|all|] == all;
    }
  }

  /** The console text that an emitter has mirrored behind a part of a boundary makes no record prefix with it. */
  ghost predicate GoodSoFar(e: Emitter)
    reads e
  {
    GoodEvents(e.events) && (e.torn ==> Noise(e.part + e.text))
  }

  ghost function NoiseOf(e: Emitter): seq<Byte>
    reads e
  {
    if e.torn then e.part + e.text else []
  }

  lemma EmitterWire(e: Emitter)
    requires e.Valid() && (e.torn ==> e.last.None?)
    ensures e.wire <= RunBytes(e.events) + NoiseOf(e)
    ensures e.serial && !e.cut ==> e.wire == RunBytes(e.events) + NoiseOf(e)
  {
    hide RunBytes, Shown, Boundary, OnWire;
    if e.torn {
      TornRecord(e.events, e.part, e.text, [], e.display);
    } else {
      assert RunBytes(e.events) + [] == RunBytes(e.events);
    }
  }

  /**
   What an emitter put on the wire can be polled at any moment, and is read completely when every record got out; also
   after a torn toggle, as long as no record follows it.
   */
  lemma EmitterReadable(e: Emitter, j: nat)
    requires e.Valid() && (e.torn ==> e.last.None?) && j <= |e.wire|
    requires GoodSoFar(e) && DistinctWhileOff(e.events, false)
    ensures var seen := Parsed(e.wire[..j], POLLING_PREFIX); seen.Ok? && Known(seen.value) <= Emitted(e.events)
    ensures e.serial && !e.cut ==> Parsed(e.wire, STRICT_FINAL) == Ok(Told(e.events))
  {
    hide RunBytes, Parsed, GoodEvents, TornBoundary, DistinctWhileOff, Emitted;
    EmitterWire(e);
    TornPolls(e.events, NoiseOf(e), j);
    assert e.wire[..j] == (RunBytes(e.events) + NoiseOf(e))[..j];
    TornAlone(e.events, NoiseOf(e));
  }

  /** A record behind a torn toggle makes the capture unreadable. */
  lemma EmitterUnreadable(e: Emitter)
    requires e.Valid() && e.torn && e.last.Some? && e.serial && !e.cut
    requires GoodSoFar(e) && GoodRecord(e.last.value)
    ensures Parsed(e.wire, STRICT_FINAL) == Err(TornError(e.events))
  {
    hide RunBytes, Parsed, TornBoundary, GoodRecord, GoodEvents;
    TornRecordRead(e.events, e.part + e.text, e.last.value);
  }
}
