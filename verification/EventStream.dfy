/**
 The event stream as the firmware writes it to the serial port: records, each twice while the display is on, and a
 boundary wherever the user toggled the display. Whatever fails, the wire holds the beginning of what the run says.
 */
module EventStream {
  import opened Wrappers
  import opened Utf8
  import opened EventWire
  import opened EventItems

  /** What happens at the firmware: a record is emitted, the user types `/events`, console text is mirrored. */
  datatype Event = Logged(record: seq<Byte>) | Toggle | Mirrored(text: seq<Byte>)

  const RECORD_LIMIT := 1023

  function Boundary(enabled: bool): Write {
    if enabled then Write(ON, ON_FRAME) else Write(OFF, OFF_FRAME)
  }

  /** A record is written twice while the display is on. */
  function Copies(record: seq<Byte>, display: bool): seq<Write> {
    if display then [Write(RECORD, record), Write(RECORD, record)] else [Write(RECORD, record)]
  }

  /** The writes of one event. */
  function EventWrites(event: Event, display: bool): seq<Write> {
    match event
    case Toggle => [Boundary(!display)]
    case Logged(record) => Copies(record, display)
    case Mirrored(text) => [Write(TEXT, text)]
  }

  /** The display flag after one event. */
  function After(event: Event, display: bool): bool {
    if event.Toggle? then !display else display
  }

  /** The writes of a run that begins with the given display flag. */
  function Physical(events: seq<Event>, display: bool): seq<Write> {
    if events == [] then []
    else EventWrites(events[0], display) + Physical(events[1..], After(events[0], display))
  }

  /** The display flag after a run. */
  function Shown(events: seq<Event>, display: bool): bool {
    if events == [] then display else Shown(events[1..], After(events[0], display))
  }

  /** The records of a run. */
  function Emitted(events: seq<Event>): seq<seq<Byte>> {
    if events == [] then []
    else (if events[0].Logged? then [events[0].record] else []) + Emitted(events[1..])
  }

  ghost predicate GoodEvent(event: Event) {
    match event
    case Logged(record) => GoodRecord(record)
    case Toggle => true
    case Mirrored(text) => GoodText(text)
  }

  /** All console text between two writes is one event. */
  ghost predicate GoodEvents(events: seq<Event>) {
    && (forall i | 0 <= i < |events| :: GoodEvent(events[i]))
    && (forall i | 0 <= i < |events| - 1 :: !(events[i].Mirrored? && events[i + 1].Mirrored?))
  }

  /** The next event that is not console text. */
  function NextWritten(events: seq<Event>): Option<Event> {
    if events == [] then None else if events[0].Mirrored? then NextWritten(events[1..]) else Some(events[0])
  }

  /** Two records in a row, text aside, differ while the display is off. */
  predicate DistinctWhileOff(events: seq<Event>, display: bool) {
    if events == [] then true
    else match events[0]
      case Toggle => DistinctWhileOff(events[1..], !display)
      case Logged(_) =>
        (display || NextWritten(events[1..]) != Some(events[0])) && DistinctWhileOff(events[1..], display)
      case Mirrored(_) => DistinctWhileOff(events[1..], display)
  }

  lemma {:induction false} PhysicalAppend(events: seq<Event>, event: Event, display: bool)
    ensures Physical(events + [event], display)
         == Physical(events, display) + Physical([event], Shown(events, display))
    ensures Shown(events + [event], display) == Shown([event], Shown(events, display))
  {
    if events == [] {
      assert events + [event] == [event];
    } else {
      assert (events + [event])[1..] == events[1..] + [event];
      PhysicalAppend(events[1..], event, After(events[0], display));
    }
  }

  /** Nothing is torn. */
  ghost predicate Whole(writes: seq<Write>) {
    forall i | 0 <= i < |writes| :: !Torn(writes[i])
  }

  lemma ConsGood(w: Write, later: seq<Write>)
    requires GoodWrite(w) && GoodWrites(later) && (later != [] ==> GoodNext(w, later[0]))
    ensures GoodWrites([w] + later)
    ensures !Torn(w) && Whole(later) ==> Whole([w] + later)
  {
    var writes := [w] + later;
    forall i | 0 <= i < |writes| ensures GoodWrite(writes[i]) {
      assert i > 0 ==> writes[i] == later[i - 1];
    }
    forall i | 0 <= i < |writes| - 1 ensures GoodNext(writes[i], writes[i + 1]) {
      assert writes[i + 1] == later[i] && (i > 0 ==> writes[i] == later[i - 1]);
    }
  }

  lemma GoodTextWhole(text: seq<Byte>)
    requires GoodText(text)
    ensures !TornBoundary(text)
  {
    if text != [] {
      assert text[0] != NUL;
    }
  }

  lemma {:induction false} PhysicalGood(events: seq<Event>, display: bool)
    requires GoodEvents(events)
    ensures GoodWrites(Physical(events, display)) && Whole(Physical(events, display))
    ensures events != [] && !events[0].Mirrored? ==> Physical(events, display)[0].kind != TEXT
  {
    if events != [] {
      var after := After(events[0], display);
      var later := Physical(events[1..], after);
      assert GoodEvent(events[0]);
      PhysicalGood(events[1..], after);
      match events[0]
      case Toggle => ConsGood(Boundary(!display), later);
      case Logged(record) =>
        var w := Write(RECORD, record);
        ConsGood(w, later);
        if display {
          ConsGood(w, [w] + later);
          assert Copies(record, true) + later == [w] + ([w] + later);
        }
      case Mirrored(text) =>
        GoodTextWhole(text);
        ConsGood(Write(TEXT, text), later);
    }
  }

  /** The bytes of one event. */
  function EventBytes(event: Event, display: bool): seq<Byte> {
    match event
    case Toggle => Boundary(!display).bytes
    case Logged(record) => OnWire(record, display)
    case Mirrored(text) => text
  }

  lemma EventOnWire(event: Event, display: bool)
    ensures Wire(EventWrites(event, display)) == EventBytes(event, display)
  {
    match event
    case Toggle => WireOne(Boundary(!display));
    case Logged(record) => CopiesBytes(record, display);
    case Mirrored(text) => WireOne(Write(TEXT, text));
  }

  lemma PhysicalOne(event: Event, display: bool)
    ensures Wire(Physical([event], display)) == EventBytes(event, display)
    ensures Shown([event], display) == After(event, display)
  {
    assert [event][1..] == [];
    assert Physical([event], display) == EventWrites(event, display);
    EventOnWire(event, display);
  }

  lemma CopiesBytes(record: seq<Byte>, display: bool)
    ensures Wire(Copies(record, display)) == OnWire(record, display)
  {
    var w := Write(RECORD, record);
    assert Copies(record, true) == [w] + [w];
    WireOne(w);
    WireConcat([w], [w]);
  }

  lemma WireAppend(events: seq<Event>, event: Event)
    ensures Wire(Physical(events + [event], false))
         == Wire(Physical(events, false)) + Wire(Physical([event], Shown(events, false)))
    ensures Shown(events + [event], false) == Shown([event], Shown(events, false))
  {
    PhysicalAppend(events, event, false);
    WireConcat(Physical(events, false), Physical([event], Shown(events, false)));
  }

  /** The bytes of an emitted record. */
  function OnWire(record: seq<Byte>, display: bool): seq<Byte> {
    if display then record + record else record
  }

  lemma AfterEvent(events: seq<Event>, event: Event, display: bool)
    requires display == Shown(events, false)
    ensures RunBytes(events + [event]) == RunBytes(events) + EventBytes(event, display)
    ensures Shown(events + [event], false) == After(event, display)
  {
    WireAppend(events, event);
    PhysicalOne(event, display);
  }

  /** The bytes of a run. */
  function RunBytes(events: seq<Event>): seq<Byte> {
    Wire(Physical(events, false))
  }

  /** The bytes of a run, a part of a boundary, console text behind it, and a record that was emitted after that. */
  function TornBytes(events: seq<Event>, part: seq<Byte>, text: seq<Byte>, last: Option<seq<Byte>>, display: bool)
      : seq<Byte> {
    RunBytes(events) + (part + text) + if last.Some? then OnWire(last.value, display) else []
  }

  lemma TornRecord(events: seq<Event>, part: seq<Byte>, text: seq<Byte>, record: seq<Byte>, display: bool)
    ensures TornBytes(events, part, text, Some(record), display)
         == TornBytes(events, part, text, None, display) + OnWire(record, display)
    ensures TornBytes(events, part, text, None, display) == RunBytes(events) + (part + text)
  {
  }

  lemma TornText(events: seq<Event>, part: seq<Byte>, text: seq<Byte>, more: seq<Byte>, display: bool)
    ensures TornBytes(events, part, text + more, None, display) == TornBytes(events, part, text, None, display) + more
    ensures TornBytes(events, part, [], None, display) == RunBytes(events) + part
  {
    assert RunBytes(events) + (part + (text + more)) + [] == RunBytes(events) + (part + text) + [] + more;
    assert RunBytes(events) + (part + []) + [] == RunBytes(events) + part;
  }

  /** How one write to a sink went: its status, and how many bytes it says it took. */
  datatype Outcome = Outcome(success: bool, length: nat)

  predicate Complete(outcome: Outcome, bytes: seq<Byte>) {
    outcome.success && outcome.length == |bytes|
  }

  /** The record that reports that a record could not be built. */
  function Fallback(): seq<Byte> {
    Text("PROMPTBOOT_EVENT v=1 event=FATAL code=MODEL_RECORD phase=record efi_status=none "
         + "model_error=none inference_error=none region=none cleanup_attempted=00000000 cleanup_ok=00000000\r\n")
  }

  function Text(s: string): seq<Byte> {
    seq(|s|, i requires 0 <= i < |s| => s[i] as int % 0x100)
  }

  /** The bytes that emitter and parser agree on, as text. */
  lemma PrefixWord()
    ensures PREFIX == Text("PROMPTBOOT_EVENT v=1 ") && [CR, LF] == Text("\r\n")
  {
  }

  lemma OnWord()
    ensures ON_FRAME[1..] == Text("PROMPTBOOT_EVENTS_ON") + [0] && ON_FRAME[0] == 0
  {
  }

  lemma OffWord()
    ensures OFF_FRAME[1..] == Text("PROMPTBOOT_EVENTS_OFF") + [0] && OFF_FRAME[0] == 0
  {
  }

  /** A record as it goes out; one that has overflowed its buffer is replaced. */
  function FatalBytes(record: Option<seq<Byte>>): seq<Byte> {
    if record.Some? then record.value else Fallback()
  }

  class Emitter {
    const serial: bool
    const console: bool
    /** EVENT_DISPLAY_ENABLED */
    var display: bool
    /** RECORD_FAILED */
    var failed: bool
    /** the controller has a failure to report */
    var terminal: bool
    /** everything the serial port took */
    var wire: seq<Byte>

    /** what the firmware did, the last of it possibly in part */
    ghost var events: seq<Event>
    /** the flag was flipped, but the boundary was not written completely, only `part` of it */
    ghost var torn: bool
    ghost var part: seq<Byte>
    /** console text behind such a part */
    ghost var text: seq<Byte>
    /** the record emitted after that */
    ghost var last: Option<seq<Byte>>
    /** a record did not get out completely */
    ghost var cut: bool

    /** What the run says should be on the wire. */
    ghost function Meant(): seq<Byte>
      reads `events, `torn, `part, `text, `last, `display
    {
      if torn then TornBytes(events, part, text, last, display) else RunBytes(events)
    }

    /** Nothing but the run's own writes is on the wire, and all of them unless one of them failed. */
    ghost predicate Valid()
      reads this
    {
      && (cut ==> failed) && (failed || torn ==> terminal)
      && display == (if torn then !Shown(events, false) else Shown(events, false))
      && (torn ==> part < Boundary(display).bytes && (part == [] ==> text == []))
      && wire <= Meant()
      && (serial && !cut ==> wire == Meant())
    }

    constructor (serial: bool, console: bool)
      ensures Valid() && !terminal && events == [] && this.serial == serial && this.console == console
    {
      this.serial := serial;
      this.console := console;
      display := false;
      failed := false;
      terminal := false;
      wire := [];
      events := [];
      torn, part, text, last, cut := false, [], [], None, false;
    }

    method WriteSerial(bytes: seq<Byte>, outcome: Outcome) returns (ok: bool)
      requires outcome.length <= |bytes|
      modifies `wire
      ensures wire == old(wire) + if serial then bytes[..outcome.length] else []
      ensures ok == (serial ==> Complete(outcome, bytes))
    {
      if !serial {
        return true;
      }
      wire := wire + bytes[..outcome.length];
      ok := outcome.success && outcome.length == |bytes|;
    }

    /** Emit a record: once, or twice in a row while the display is on. */
    method Emit(bytes: seq<Byte>, echo: bool, first: Outcome, second: Outcome) returns (ok: bool)
      requires first.length <= |bytes| && second.length <= |bytes|
      modifies `wire, `failed
      ensures failed == !ok
      ensures old(wire) <= wire <= old(wire) + if serial && !old(failed) then OnWire(bytes, display) else []
      ensures ok && serial ==> wire == old(wire) + OnWire(bytes, display)
      ensures ok ==> !old(failed) && |bytes| <= RECORD_LIMIT && EndsCrlf(bytes) && forall b | b in bytes :: b < 0x80
    {
      if failed {
        return false;
      }
      if |bytes| > RECORD_LIMIT || !EndsCrlf(bytes) || (display && !console) {
        failed := true;
        return false;
      }
      for at := 0 to |bytes|
        invariant forall i | 0 <= i < at :: bytes[i] < 0x80
        invariant !failed && wire == old(wire)
      {
        if bytes[at] >= 0x80 {
          failed := true;
          return false;
        }
      }
      if display && !echo {
        failed := true;
        return false;
      }
      if serial {
        ok := WriteSerial(bytes, first);
        if !ok {
          failed := true;
          return;
        }
        if display {
          ok := WriteSerial(bytes, second);
          if !ok {
            failed := true;
            return;
          }
        }
      }
      ok := true;
    }

    /** A record of the session; a failure ends the session. */
    method Log(bytes: seq<Byte>, echo: bool, first: Outcome, second: Outcome)
      requires Valid() && first.length <= |bytes| && second.length <= |bytes|
      modifies `wire, `failed, `terminal, `events, `cut
      ensures Valid()
      ensures old(terminal) ==> wire == old(wire) && events == old(events) && terminal
      ensures !old(terminal) ==> events == old(events) + [Logged(bytes)] && terminal == failed
    {
      if terminal {
        return;
      }
      var ok := Emit(bytes, echo, first, second);
      terminal, cut := !ok, !ok;
      AfterEvent(events, Logged(bytes), display);
      events := events + [Logged(bytes)];
    }

    /** Console text that the firmware mirrors to the serial port, also behind a part of a boundary. */
    method Mirror(bytes: seq<Byte>)
      requires Valid() && !failed && (torn ==> last.None?)
      modifies `wire, `events, `text
      ensures Valid() && wire == old(wire) + if serial then bytes else []
      ensures Emitted(events) == Emitted(old(events))
      ensures if torn && part != [] then events == old(events) && text == old(text) + bytes else text == old(text)
    {
      hide RunBytes, Shown, Boundary, Mirroring, TornBytes, Emitted;
      if serial {
        wire := wire + bytes;
      }
      if torn && part != [] {
        TornText(events, part, text, bytes, display);
        text := text + bytes;
      } else {
        if torn {
          TornText(events, [], [], [], display);
          TornText(Mirroring(events, bytes), [], [], [], display);
        }
        MirroringMeans(events, bytes);
        events := Mirroring(events, bytes);
      }
    }

    /**
     The last record, which reports the failure that ended the session. A record that has overflowed its buffer is
     replaced by the fallback record, and that one counts as a failure even when it gets out.
     */
    method Fatal(record: Option<seq<Byte>>, echo: bool, first: Outcome, second: Outcome)
        returns (ok: bool, ghost bytes: seq<Byte>)
      requires Valid() && terminal && (torn ==> last.None?)
      requires first.length <= |FatalBytes(record)| && second.length <= |FatalBytes(record)|
      modifies `wire, `failed, `events, `last, `cut
      ensures Valid() && bytes == FatalBytes(record)
      ensures old(failed) ==> !ok && wire == old(wire) && events == old(events) && last == old(last) && cut == old(cut)
      ensures !torn && !old(failed) ==> events == old(events) + [Logged(bytes)]
      ensures torn && !old(failed) ==> events == old(events) && last == Some(bytes)
      ensures !old(failed) ==> ok == (!cut && bytes != Fallback()) && failed == !ok
      ensures !old(failed) && !cut && serial ==> wire == old(wire) + OnWire(bytes, display)
    {
      hide Fallback, RunBytes, Shown, Boundary, OnWire, TornBytes;
      ghost var silent := failed;
      var sent := FatalBytes(record);
      bytes := sent;
      ok := Emit(sent, echo, first, second);
      if !silent {
        cut := !ok;
        if torn {
          TornRecord(events, part, text, sent, display);
          last := Some(sent);
        } else {
          AfterEvent(events, Logged(sent), display);
          events := events + [Logged(sent)];
        }
      }
      if ok && sent == Fallback() {
        failed, ok := true, false;
      }
    }

    /** `/events`: a new line, the flipped flag, the message, and the boundary on the serial port. */
    method ToggleDisplay(newline: bool, message: bool, outcome: Outcome)
      requires Valid() && outcome.length <= |Boundary(!display).bytes|
      modifies this
      ensures Valid()
      ensures old(terminal) ==>
        && wire == old(wire) && events == old(events) && display == old(display) && torn == old(torn)
      ensures terminal == (old(terminal) || !newline || !message || (serial && !Complete(outcome, Boundary(display).bytes)))
      ensures !old(terminal) ==>
        var boundary := Boundary(!old(display)).bytes;
        && torn == (newline && !(message && (serial ==> outcome.length == |boundary|)))
        && display == (if newline then !old(display) else old(display))
        && events == (if newline && !torn then old(events) + [Toggle] else old(events))
        && wire == old(wire) + if newline && message && serial then boundary[..outcome.length] else []
    {
      if terminal {
        return;
      }
      if !newline {
        terminal := true;
        return;
      }
      display := !display;
      if !message {
        TornText(events, [], [], [], display);
        terminal, torn, part, text, last := true, true, [], [], None;
        return;
      }
      SendBoundary(outcome);
    }

    /** The boundary behind a flipped flag. */
    method SendBoundary(outcome: Outcome)
      requires !failed && !cut && !torn && !terminal && display == !Shown(events, false)
      requires wire <= RunBytes(events) && (serial ==> wire == RunBytes(events))
      requires outcome.length <= |Boundary(display).bytes|
      modifies `terminal, `wire, `torn, `part, `text, `last, `events
      ensures Valid()
      ensures terminal == (serial && !Complete(outcome, Boundary(display).bytes))
      ensures torn == (serial && outcome.length < |Boundary(display).bytes|)
      ensures events == if torn then old(events) else old(events) + [Toggle]
      ensures wire == old(wire) + if serial then Boundary(display).bytes[..outcome.length] else []
    {
      var boundary := Boundary(display).bytes;
      var ok := WriteSerial(boundary, outcome);
      terminal := !ok;
      if serial && outcome.length < |boundary| {
        torn, part, text, last := true, boundary[..outcome.length], [], None;
        TornText(events, part, [], [], display);
      } else {
        AfterEvent(events, Toggle, !display);
        assert boundary[..|boundary|] == boundary;
        events := events + [Toggle];
      }
    }
  }

  // ---- console text ----

  /** A run with more console text at its end: text in a row is one event. */
  function Mirroring(events: seq<Event>, text: seq<Byte>): seq<Event> {
    var n := |events|;
    if n > 0 && events[n - 1].Mirrored? then events[..n - 1] + [Mirrored(events[n - 1].text + text)]
    else events + [Mirrored(text)]
  }

  lemma {:induction false} EmittedAppend(events: seq<Event>, event: Event)
    ensures Emitted(events + [event]) == Emitted(events) + if event.Logged? then [event.record] else []
  {
    if events == [] {
      assert events + [event] == [event] && [event][1..] == [];
    } else {
      var last := if event.Logged? then [event.record] else [];
      assert (events + [event])[1..] == events[1..] + [event];
      EmittedAppend(events[1..], event);
      if events[0].Logged? {
        assert [events[0].record] + (Emitted(events[1..]) + last) == [events[0].record] + Emitted(events[1..]) + last;
      }
    }
  }

  lemma MirroringMeans(events: seq<Event>, text: seq<Byte>)
    ensures var more := Mirroring(events, text);
      && RunBytes(more) == RunBytes(events) + text
      && Shown(more, false) == Shown(events, false) && Emitted(more) == Emitted(events)
  {
    var n := |events|;
    if n > 0 && events[n - 1].Mirrored? {
      var before, said := events[..n - 1], events[n - 1].text;
      assert events == before + [Mirrored(said)];
      AfterEvent(before, Mirrored(said), Shown(before, false));
      AfterEvent(before, Mirrored(said + text), Shown(before, false));
      EmittedAppend(before, Mirrored(said));
      EmittedAppend(before, Mirrored(said + text));
      assert RunBytes(before) + (said + text) == RunBytes(before) + said + text;
    } else {
      AfterEvent(events, Mirrored(text), Shown(events, false));
      EmittedAppend(events, Mirrored(text));
    }
  }
}
