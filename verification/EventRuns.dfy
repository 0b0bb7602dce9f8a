/**
 Runs of the emitter, read back by the parser. A strict parse of a whole run gives the emitted records, and it fails
 exactly for a run that repeats a record while the display is off; a polling parse of any beginning of a capture never
 fails, and what it gives only grows.
 */
module EventRuns {
  import opened Wrappers
  import opened Utf8
  import opened EventWire
  import opened EventItems
  import opened EventStream
  import opened EventParse

  // ---- a whole run ----

  lemma LayoutHead(w: Write, later: seq<Write>, base: nat, next: nat)
    requires next == base + |w.bytes|
    ensures Layout([w] + later, base) == ItemOf(w, base) + Layout(later, next)
  {
    assert ([w] + later)[1..] == later;
  }

  lemma {:induction false} LayoutConcat(a: seq<Write>, b: seq<Write>, base: nat, next: nat)
    requires next == base + |Wire(a)|
    ensures Layout(a + b, base) == Layout(a, base) + Layout(b, next)
  {
    if a == [] {
      assert a + b == b;
    } else {
      var mid := base + |a[0].bytes|;
      assert (a + b)[1..] == a[1..] + b;
      LayoutConcat(a[1..], b, mid, next);
      AppendItems(ItemOf(a[0], base), Layout(a[1..], mid), Layout(b, next));
    }
  }

  lemma AppendItems(a: seq<Item>, b: seq<Item>, c: seq<Item>)
    ensures a + (b + c) == a + b + c
  {
  }

  lemma ReadBoundary(item: Item, ahead: seq<Item>, mode: Mode, display: bool)
    requires item.kind == if display then OFF else ON
    ensures Read([item] + ahead, mode, display) == Read(ahead, mode, !display)
  {
    assert ([item] + ahead)[1..] == ahead;
  }

  lemma ReadPair(item: Item, copy: Item, ahead: seq<Item>, mode: Mode)
    requires item.kind == copy.kind == RECORD && item.value == copy.value && item.end == copy.start
    ensures Read([item] + ([copy] + ahead), mode, true) == Preceded([item.value], Read(ahead, mode, true))
  {
    assert ([item] + ([copy] + ahead))[2..] == ahead;
  }

  lemma ReadSingle(item: Item, ahead: seq<Item>, mode: Mode)
    requires item.kind == RECORD
    ensures Read([item] + ahead, mode, false)
         == if ahead != [] && ahead[0].kind == RECORD && ahead[0].value == item.value then Err(DisabledPair)
            else Preceded([item.value], Read(ahead, mode, false))
  {
    assert ([item] + ahead)[1..] == ahead;
  }

  /** Behind `events`, the next item is `record`. */
  predicate RepeatedNext(events: seq<Event>, ahead: seq<Item>, record: seq<Byte>) {
    match NextWritten(events)
    case Some(event) => event == Logged(record)
    case None => ahead != [] && ahead[0].kind == RECORD && ahead[0].value == record
  }

  /** As DistinctWhileOff, for a run that other items follow. */
  predicate Flows(events: seq<Event>, display: bool, ahead: seq<Item>) {
    if events == [] then true
    else match events[0]
      case Toggle => Flows(events[1..], !display, ahead)
      case Logged(record) =>
        (display || !RepeatedNext(events[1..], ahead, record)) && Flows(events[1..], display, ahead)
      case Mirrored(_) => Flows(events[1..], display, ahead)
  }

  lemma {:induction false} FlowsAlone(events: seq<Event>, display: bool, ahead: seq<Item>)
    requires ahead == [] || Shown(events, display)
    ensures Flows(events, display, ahead) <==> DistinctWhileOff(events, display)
  {
    if events != [] {
      var after := After(events[0], display);
      FlowsAlone(events[1..], after, ahead);
      if events[0].Logged? && !display && ahead != [] {
        ShownToggles(events[1..], display);
      }
    }
  }

  /** If the display ends up on, something else than text comes before that. */
  lemma {:induction false} ShownToggles(events: seq<Event>, display: bool)
    requires !display && Shown(events, display)
    ensures NextWritten(events).Some?
  {
    if events[0].Mirrored? {
      ShownToggles(events[1..], display);
    }
  }

  /** What the parser sees of a run, and behind it. */
  function RunItems(events: seq<Event>, display: bool, base: nat, ahead: seq<Item>): seq<Item> {
    Layout(Physical(events, display), base) + ahead
  }

  /** The first item behind a record. */
  lemma {:induction false} FirstItem(events: seq<Event>, base: nat, ahead: seq<Item>, record: seq<Byte>)
    ensures var items := RunItems(events, false, base, ahead);
      RepeatedNext(events, ahead, record) <==> (items != [] && items[0].kind == RECORD && items[0].value == record)
  {
    if events == [] {
      assert RunItems(events, false, base, ahead) == ahead;
    } else {
      match events[0]
      case Mirrored(text) =>
        var next := base + |text|;
        RunText(events, false, base, next, ahead);
        FirstItem(events[1..], next, ahead, record);
      case Toggle =>
        var w := Boundary(true);
        LayoutHead(w, Physical(events[1..], true), base, base + |w.bytes|);
      case Logged(value) =>
        var w := Write(RECORD, value);
        LayoutHead(w, Physical(events[1..], false), base, base + |value|);
    }
  }

  lemma RunText(events: seq<Event>, display: bool, base: nat, next: nat, ahead: seq<Item>)
    requires events != [] && events[0].Mirrored? && next == base + |events[0].text|
    ensures RunItems(events, display, base, ahead) == RunItems(events[1..], display, next, ahead)
  {
    var w := Write(TEXT, events[0].text);
    LayoutHead(w, Physical(events[1..], display), base, next);
    assert ItemOf(w, base) + Layout(Physical(events[1..], display), next) == Layout(Physical(events[1..], display), next);
  }

  lemma RunToggle(events: seq<Event>, display: bool, base: nat, next: nat, mode: Mode, ahead: seq<Item>)
    requires events != [] && events[0].Toggle? && next == base + |Boundary(!display).bytes|
    ensures Read(RunItems(events, display, base, ahead), mode, display)
         == Read(RunItems(events[1..], !display, next, ahead), mode, !display)
  {
    var w, later := Boundary(!display), Physical(events[1..], !display);
    var item := Item(w.kind, w.bytes, base, next);
    LayoutHead(w, later, base, next);
    AppendItems([item], Layout(later, next), ahead);
    ReadBoundary(item, RunItems(events[1..], !display, next, ahead), mode, display);
  }

  lemma RunRecord(events: seq<Event>, display: bool, base: nat, next: nat, mode: Mode, ahead: seq<Item>, record: seq<Byte>)
    requires events != [] && events[0] == Logged(record) && next == base + |OnWire(record, display)|
    ensures var later := RunItems(events[1..], display, next, ahead);
      Read(RunItems(events, display, base, ahead), mode, display)
      == if !display && later != [] && later[0].kind == RECORD && later[0].value == record then Err(DisabledPair)
         else Preceded([record], Read(later, mode, display))
  {
    var w, mid, later := Write(RECORD, record), base + |record|, Physical(events[1..], display);
    var items := RunItems(events[1..], display, next, ahead);
    if display {
      var copy := Item(RECORD, record, mid, next);
      TwoCopies(w, later, base, mid, next, ahead);
      ReadPair(Item(RECORD, record, base, mid), copy, items, mode);
    } else {
      LayoutHead(w, later, base, next);
      AppendItems([Item(RECORD, record, base, next)], Layout(later, next), ahead);
      ReadSingle(Item(RECORD, record, base, next), items, mode);
    }
  }

  lemma TwoCopies(w: Write, later: seq<Write>, base: nat, mid: nat, next: nat, ahead: seq<Item>)
    requires w.kind == RECORD && mid == base + |w.bytes| && next == mid + |w.bytes|
    ensures Layout([w, w] + later, base) + ahead
         == [Item(RECORD, w.bytes, base, mid)] + ([Item(RECORD, w.bytes, mid, next)] + (Layout(later, next) + ahead))
  {
    assert [w, w] + later == [w] + ([w] + later);
    LayoutHead(w, [w] + later, base, mid);
    LayoutHead(w, later, mid, next);
  }

  /** Reading a run, and then what is behind it, unless a record is repeated while the display is off. */
  lemma {:induction false} ReadRun(events: seq<Event>, display: bool, base: nat, next: nat, mode: Mode, ahead: seq<Item>)
    requires next == base + |Wire(Physical(events, display))|
    ensures Read(RunItems(events, display, base, ahead), mode, display)
         == if Flows(events, display, ahead) then Preceded(Emitted(events), Read(ahead, mode, Shown(events, display)))
            else Err(DisabledPair)
  {
    if events == [] {
      assert RunItems(events, display, base, ahead) == ahead;
      PrecededByNothing(Read(ahead, mode, display));
    } else {
      var rest, after := events[1..], After(events[0], display);
      var mid := base + |EventBytes(events[0], display)|;
      FirstBytes(events, display);
      ReadRun(rest, after, mid, next, mode, ahead);
      match events[0]
      case Toggle =>
        RunToggle(events, display, base, mid, mode, ahead);
        assert Emitted(events) == Emitted(rest);
      case Logged(record) =>
        RunRecord(events, display, base, mid, mode, ahead, record);
        if !display {
          FirstItem(rest, mid, ahead, record);
        }
        PrecededByRecord(record, Emitted(rest), Read(ahead, mode, Shown(events, display)));
      case Mirrored(_) =>
        RunText(events, display, base, mid, ahead);
        assert Emitted(events) == Emitted(rest);
    }
  }

  lemma PrecededByRecord(record: seq<Byte>, records: seq<seq<Byte>>, later: Result<Reading, ParseError>)
    ensures Preceded([record], Preceded(records, later)) == Preceded([record] + records, later)
  {
    if later.Ok? {
      assert [record] + (records + later.value.logical) == [record] + records + later.value.logical;
    }
  }

  lemma FirstBytes(events: seq<Event>, display: bool)
    requires events != []
    ensures |Wire(Physical(events, display))|
         == |EventBytes(events[0], display)| + |Wire(Physical(events[1..], After(events[0], display)))|
  {
    WireConcat(EventWrites(events[0], display), Physical(events[1..], After(events[0], display)));
    EventOnWire(events[0], display);
  }

  /** The records of one event as they are on the wire: twice while the display is on. */
  function EventRecords(event: Event, display: bool): seq<seq<Byte>> {
    if !event.Logged? then [] else if display then [event.record, event.record] else [event.record]
  }

  function PhysicalRecords(events: seq<Event>, display: bool): seq<seq<Byte>> {
    if events == [] then []
    else EventRecords(events[0], display) + PhysicalRecords(events[1..], After(events[0], display))
  }

  lemma ValuesHead(w: Write, later: seq<Write>, base: nat, next: nat)
    requires next == base + |w.bytes|
    ensures Values(Layout([w] + later, base)) == (if w.kind == RECORD then [w.bytes] else []) + Values(Layout(later, next))
  {
    LayoutHead(w, later, base, next);
    if w.kind != TEXT {
      assert Layout([w] + later, base)[1..] == Layout(later, next);
    } else {
      assert Layout([w] + later, base) == Layout(later, next);
    }
  }

  lemma ValuesPair(w: Write, later: seq<Write>, base: nat, mid: nat, next: nat)
    requires w.kind == RECORD && mid == base + |w.bytes| && next == mid + |w.bytes|
    ensures Values(Layout([w, w] + later, base)) == [w.bytes, w.bytes] + Values(Layout(later, next))
  {
    assert [w, w] + later == [w] + ([w] + later);
    ValuesHead(w, [w] + later, base, mid);
    ValuesHead(w, later, mid, next);
  }

  lemma ValuesFirst(event: Event, display: bool, later: seq<Write>, base: nat, next: nat)
    requires next == base + |EventBytes(event, display)|
    ensures Values(Layout(EventWrites(event, display) + later, base))
         == EventRecords(event, display) + Values(Layout(later, next))
  {
    if event.Logged? && display {
      ValuesPair(Write(RECORD, event.record), later, base, base + |event.record|, next);
    } else {
      ValuesHead(EventWrites(event, display)[0], later, base, next);
    }
  }

  lemma {:induction false} ValuesOfRun(events: seq<Event>, display: bool, base: nat)
    ensures Values(Layout(Physical(events, display), base)) == PhysicalRecords(events, display)
  {
    if events != [] {
      var after, next := After(events[0], display), base + |EventBytes(events[0], display)|;
      ValuesFirst(events[0], display, Physical(events[1..], after), base, next);
      ValuesOfRun(events[1..], after, next);
    }
  }

  lemma ItemsOfRun(events: seq<Event>, allow: bool)
    requires GoodEvents(events)
    ensures Items(RunBytes(events), allow) == Ok(Layout(Physical(events, false), 0))
    ensures Capture(Physical(events, false), [])
  {
    var writes := Physical(events, false);
    PhysicalGood(events, false);
    ItemsOnWire(writes, [], allow);
    assert Wire(writes) + [] == Wire(writes);
  }

  lemma ReadAll(events: seq<Event>, mode: Mode)
    ensures Read(Layout(Physical(events, false), 0), mode, false)
         == if DistinctWhileOff(events, false) then Ok(Reading(Emitted(events), None)) else Err(DisabledPair)
  {
    ReadRun(events, false, 0, |RunBytes(events)|, mode, []);
    FlowsAlone(events, false, []);
    assert RunItems(events, false, 0, []) == Layout(Physical(events, false), 0);
    assert Emitted(events) + [] == Emitted(events);
  }

  /** What a run is to be read as. */
  function Told(events: seq<Event>): Topology {
    Topology(Emitted(events), PhysicalRecords(events, false), None)
  }

  /** The strict parse of a whole capture gives the records of the run, or refuses a repeated one. */
  lemma StrictExactly(events: seq<Event>)
    requires GoodEvents(events)
    ensures Parsed(RunBytes(events), STRICT_FINAL)
         == if DistinctWhileOff(events, false) then Ok(Told(events)) else Err(DisabledPair)
  {
    ItemsOfRun(events, false);
    ReadAll(events, STRICT_FINAL);
    ValuesOfRun(events, false, 0);
  }

  /** A run that says the same thing twice, with the display off, is refused. */
  lemma RepeatedRecord(record: seq<Byte>)
    requires GoodRecord(record)
    ensures Parsed(record + record, STRICT_FINAL) == Err(DisabledPair)
  {
    var once := Logged(record);
    var twice := [once] + [once];
    AfterEvent([once], once, false);
    AfterEvent([], once, false);
    assert [] + [once] == [once] && [] + record == record;
    assert RunBytes([]) == [];
    assert twice[1..] == [once] && NextWritten(twice[1..]) == Some(once);
    StrictExactly(twice);
  }

  // ---- while the run goes on ----

  /** The records known so far, the waiting one included. */
  function Seen(reading: Reading): seq<seq<Byte>> {
    reading.logical + if reading.pending.Some? then [reading.pending.value] else []
  }

  /** What reading the first items gives, compared with reading more of them. */
  ghost predicate Grows(less: Result<Reading, ParseError>, more: Result<Reading, ParseError>) {
    less.Ok? && more.Ok? && less.value.logical <= more.value.logical && Seen(less.value) <= Seen(more.value)
  }

  lemma GrowsBehind(records: seq<seq<Byte>>, less: Result<Reading, ParseError>, more: Result<Reading, ParseError>)
    requires Grows(less, more)
    ensures Grows(Preceded(records, less), Preceded(records, more))
  {
    assert Seen(Preceded(records, less).value) == records + Seen(less.value);
    assert Seen(Preceded(records, more).value) == records + Seen(more.value);
  }

  /** What polling has read stays as the items go on. */
  lemma {:induction false} PollingGrows(less: seq<Item>, more: seq<Item>, display: bool)
    requires less <= more && Read(more, POLLING_PREFIX, display).Ok?
    ensures Grows(Read(less, POLLING_PREFIX, display), Read(more, POLLING_PREFIX, display))
    decreases |more|
  {
    if less != [] {
      if less[0].kind == ON || less[0].kind == OFF {
        PollingGrows(less[1..], more[1..], less[0].kind == ON);
      } else {
        PollingGrowsRecord(less, more, display);
      }
    }
  }

  lemma {:induction false} PollingGrowsRecord(less: seq<Item>, more: seq<Item>, display: bool)
    requires less <= more && Read(more, POLLING_PREFIX, display).Ok?
    requires less != [] && less[0].kind != ON && less[0].kind != OFF
    ensures Grows(Read(less, POLLING_PREFIX, display), Read(more, POLLING_PREFIX, display))
    decreases |more|, 0
  {
    var value := less[0].value;
    if !display {
      PollingGrows(less[1..], more[1..], false);
      GrowsBehind([value], Read(less[1..], POLLING_PREFIX, false), Read(more[1..], POLLING_PREFIX, false));
    } else if |less| > 1 {
      assert less[1] == more[1];
      PollingGrows(less[2..], more[2..], true);
      GrowsBehind([value], Read(less[2..], POLLING_PREFIX, true), Read(more[2..], POLLING_PREFIX, true));
    } else if |more| > 1 {
      assert Seen(Read(less, POLLING_PREFIX, true).value) == [value];
    }
  }

  /** The beginning of console text is console text. */
  lemma CutText(text: seq<Byte>, k: nat)
    requires GoodText(text) && k <= |text|
    ensures GoodText(text[..k]) && !Torn(Write(TEXT, text[..k]))
  {
    assert text == text[..k] + text[k..] && text + [] == text;
    NoStartSplit(text[..k], text[k..], [], PREFIX);
    NoStartShorter(text[..k], [], text[k..] + [], PREFIX);
    assert [] + (text[k..] + []) == text[k..] + [];
    GoodTextWhole(text[..k]);
  }

  /** Where a capture is cut off: behind some whole writes and the beginning of another; text can be cut anywhere. */
  lemma {:induction false} CutWire(writes: seq<Write>, wire: seq<Byte>, k: nat, base: nat)
      returns (part: seq<Write>, tail: seq<Byte>)
    requires Capture(writes, []) && Whole(writes) && wire == Wire(writes) && k <= |wire|
    ensures CutOf(writes, wire[..k], base, part, tail)
    decreases |writes|
  {
    if writes == [] {
      part, tail := [], [];
    } else {
      var w, rest, next := writes[0], Wire(writes[1..]), base + |writes[0].bytes|;
      CaptureTail(writes, []);
      WholeTail(writes);
      assert wire == w.bytes + rest;
      if k < |w.bytes| {
        part, tail := CutFirst(w, k);
        TakeFirst(w.bytes, rest, k);
        assert Layout(part, base) == [];
      } else {
        part, tail := CutWire(writes[1..], rest, k - |w.bytes|, next);
        CutLater(writes, w, writes[1..], part, tail, wire, rest, k, base, next);
        part := [w] + part;
      }
    }
  }

  /** The cut capture consists of `part` and `tail`, and shows the beginning of what the whole shows. */
  ghost predicate CutOf(writes: seq<Write>, capture: seq<Byte>, base: nat, part: seq<Write>, tail: seq<Byte>) {
    && capture == Wire(part) + tail && Capture(part, tail) && Whole(part)
    && Layout(part, base) <= Layout(writes, base)
    && (part != [] ==> writes != [] && part[0].kind == writes[0].kind)
  }

  lemma CutLater(writes: seq<Write>, w: Write, later: seq<Write>, part: seq<Write>, tail: seq<Byte>, wire: seq<Byte>,
                 rest: seq<Byte>, k: nat, base: nat, next: nat)
    requires writes != [] && Capture(writes, []) && Whole(writes) && w == writes[0] && later == writes[1..]
    requires wire == w.bytes + rest && |w.bytes| <= k <= |wire| && next == base + |w.bytes|
    requires CutOf(later, rest[..k - |w.bytes|], next, part, tail)
    ensures CutOf(writes, wire[..k], base, [w] + part, tail)
  {
    FirstOfWhole(writes, w, later);
    ConsCapture(w, part, tail, later);
    CutBehind(w, part, tail, wire, rest, k);
    LongerLayout(writes, w, later, part, base, next);
    assert ([w] + part)[0] == w;
  }

  lemma FirstOfWhole(writes: seq<Write>, w: Write, later: seq<Write>)
    requires writes != [] && Capture(writes, []) && Whole(writes) && w == writes[0] && later == writes[1..]
    ensures GoodWrite(w) && !Torn(w)
    ensures later != [] ==> GoodNext(w, later[0]) && !Torn(later[0])
  {
    CaptureTail(writes, []);
    WholeTail(writes);
  }

  lemma WholeTail(writes: seq<Write>)
    requires Whole(writes) && writes != []
    ensures !Torn(writes[0]) && Whole(writes[1..])
    ensures |writes| > 1 ==> writes[1..][0] == writes[1] && !Torn(writes[1])
  {
  }

  lemma CutBehind(w: Write, part: seq<Write>, tail: seq<Byte>, wire: seq<Byte>, rest: seq<Byte>, k: nat)
    requires wire == w.bytes + rest && |w.bytes| <= k <= |wire| && rest[..k - |w.bytes|] == Wire(part) + tail
    ensures wire[..k] == Wire([w] + part) + tail
  {
    assert ([w] + part)[1..] == part;
    TakeBehind(w.bytes, rest, k);
    Associate(w.bytes, Wire(part), tail);
  }

  lemma LongerLayout(writes: seq<Write>, w: Write, later: seq<Write>, part: seq<Write>, base: nat, next: nat)
    requires writes != [] && w == writes[0] && later == writes[1..] && next == base + |w.bytes|
    requires Layout(part, next) <= Layout(later, next)
    ensures Layout([w] + part, base) <= Layout(writes, base)
  {
    LayoutHead(w, part, base, next);
  }

  lemma CutFirst(w: Write, k: nat) returns (part: seq<Write>, tail: seq<Byte>)
    requires GoodWrite(w) && !Torn(w) && k < |w.bytes|
    ensures Wire(part) + tail == w.bytes[..k] && Capture(part, tail) && Whole(part)
    ensures part == if w.kind == TEXT then [Write(TEXT, w.bytes[..k])] else []
  {
    if w.kind == TEXT {
      part, tail := [Write(TEXT, w.bytes[..k])], [];
      CutText(w.bytes, k);
      WireOne(part[0]);
    } else {
      part, tail := [], w.bytes[..k];
      assert GoodWrite(w) && w.kind != TEXT && tail < w.bytes;
    }
  }

  lemma TakeFirst(a: seq<Byte>, b: seq<Byte>, k: nat)
    requires k <= |a|
    ensures (a + b)[..k] == a[..k]
  {
  }

  lemma ConsCapture(w: Write, part: seq<Write>, tail: seq<Byte>, later: seq<Write>)
    requires GoodWrite(w) && !Torn(w) && Capture(part, tail) && Whole(part)
    requires later != [] ==> GoodNext(w, later[0]) && !Torn(later[0])
    requires part != [] ==> later != [] && part[0].kind == later[0].kind
    ensures Capture([w] + part, tail) && Whole([w] + part)
  {
    ConsGood(w, part);
    var all := [w] + part;
    assert all[|all| - 1] == if part == [] then w else part[|part| - 1];
  }

  lemma TakeBehind(a: seq<Byte>, b: seq<Byte>, k: nat)
    requires |a| <= k <= |a| + |b|
    ensures (a + b)[..k] == a + b[..k - |a|]
  {
  }

  /** Two cuts of one wire: the earlier one shows fewer items. */
  lemma CutTwice(writes: seq<Write>, j: nat, k: nat) returns (less: seq<Write>, tail: seq<Byte>, more: seq<Write>,
                                                              end: seq<Byte>)
    requires Capture(writes, []) && Whole(writes) && j <= k <= |Wire(writes)|
    ensures Capture(less, tail) && Capture(more, end)
    ensures Layout(less, 0) <= Layout(more, 0) <= Layout(writes, 0)
    ensures Wire(writes)[..j] == Wire(less) + tail && Wire(writes)[..k] == Wire(more) + end
  {
    more, end := CutWire(writes, Wire(writes), k, 0);
    var whole := Wire(more);
    assert Wire(writes)[..j] == Wire(writes)[..k][..j];
    if j <= |whole| {
      less, tail := CutWire(more, whole, j, 0);
      assert (whole + end)[..j] == whole[..j];
    } else {
      less, tail := more, end[..j - |whole|];
      TakeBehind(whole, end, j);
      ShorterTail(tail, end);
    }
  }

  lemma ShorterTail(tail: seq<Byte>, end: seq<Byte>)
    requires UnfinishedWrite(end) && tail <= end
    ensures UnfinishedWrite(tail)
  {
    if end != [] {
      var w :| GoodWrite(w) && w.kind != TEXT && end < w.bytes;
      assert tail < w.bytes;
    }
  }

  /** Of two captures of one run, the later shows everything that the earlier showed, and neither fails. */
  lemma PollingCaptures(events: seq<Event>, j: nat, k: nat)
    requires GoodEvents(events) && DistinctWhileOff(events, false)
    requires j <= k <= |RunBytes(events)|
    ensures var wire := RunBytes(events);
      var less, more := Parsed(wire[..j], POLLING_PREFIX), Parsed(wire[..k], POLLING_PREFIX);
      && less.Ok? && more.Ok?
      && less.value.logical <= more.value.logical <= Emitted(events)
      && Known(less.value) <= Known(more.value) <= Emitted(events)
  {
    var writes := Physical(events, false);
    ItemsOfRun(events, true);
    PhysicalGood(events, false);
    var less, tail, more, end := CutTwice(writes, j, k);
    ItemsOnWire(less, tail, true);
    ItemsOnWire(more, end, true);
    PollingLayouts(events, Layout(less, 0), Layout(more, 0));
  }

  lemma PollingLayouts(events: seq<Event>, less: seq<Item>, more: seq<Item>)
    requires less <= more <= Layout(Physical(events, false), 0) && DistinctWhileOff(events, false)
    ensures Grows(Read(less, POLLING_PREFIX, false), Read(more, POLLING_PREFIX, false))
    ensures Grows(Read(more, POLLING_PREFIX, false), Ok(Reading(Emitted(events), None)))
    ensures Seen(Reading(Emitted(events), None)) == Emitted(events)
  {
    ReadAll(events, POLLING_PREFIX);
    PollingGrows(more, Layout(Physical(events, false), 0), false);
    PollingGrows(less, more, false);
  }

  /** The records a polling parse knows of. */
  function Known(topology: Topology): seq<seq<Byte>> {
    topology.logical + if topology.pending.Some? then [topology.pending.value] else []
  }

  /** The whole capture is read the same way by a polling parse. */
  lemma PollingWhole(events: seq<Event>)
    requires GoodEvents(events)
    ensures Parsed(RunBytes(events), POLLING_PREFIX) == Parsed(RunBytes(events), STRICT_FINAL)
  {
    ItemsOfRun(events, false);
    ItemsOfRun(events, true);
    ReadAll(events, STRICT_FINAL);
    ReadAll(events, POLLING_PREFIX);
  }
}
