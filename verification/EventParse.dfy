/**
 The parser of the event stream: the scan for items, and the loop that reads them as logical records.
 */
module EventParse {
  import opened Wrappers
  import opened Utf8
  import opened EventWire

  datatype Mode = STRICT_FINAL | POLLING_PREFIX

  datatype ParseError =
    | IncompleteCapture
    | DuplicateOn
    | OffWhileOff
    | Dangling
    | NotAdjacent
    | Gap
    | CopiesDiffer
    | DisabledPair

  datatype Topology = Topology(logical: seq<seq<Byte>>, physical: seq<seq<Byte>>, pending: Option<seq<Byte>>)

  /** The records that were read, and a first copy that still waits for the second. */
  datatype Reading = Reading(logical: seq<seq<Byte>>, pending: Option<seq<Byte>>)

  // ---- the specification of a parse ----

  function Preceded(records: seq<seq<Byte>>, later: Result<Reading, ParseError>): Result<Reading, ParseError> {
    match later
    case Ok(reading) => Ok(Reading(records + reading.logical, reading.pending))
    case Err(error) => Err(error)
  }

  /** Reading the items from the left with the given display flag. */
  function Read(items: seq<Item>, mode: Mode, display: bool): Result<Reading, ParseError> {
    if items == [] then Ok(Reading([], None))
    else
      var value := items[0].value;
      match items[0].kind
      case ON => if display then Err(DuplicateOn) else Read(items[1..], mode, true)
      case OFF => if display then Read(items[1..], mode, false) else Err(OffWhileOff)
      case _ =>  // a record
        if display then
          if |items| == 1 then if mode == POLLING_PREFIX then Ok(Reading([], Some(value))) else Err(Dangling)
          else if items[1].kind != RECORD then Err(NotAdjacent)
          else if items[0].end != items[1].start then Err(Gap)
          else if items[1].value != value then Err(CopiesDiffer)
          else Preceded([value], Read(items[2..], mode, display))
        else if |items| > 1 && items[1].kind == RECORD && items[1].value == value then Err(DisabledPair)
        else Preceded([value], Read(items[1..], mode, display))
  }

  function Values(items: seq<Item>): seq<seq<Byte>> {
    if items == [] then []
    else (if items[0].kind == RECORD then [items[0].value] else []) + Values(items[1..])
  }

  function WithPhysical(items: seq<Item>, reading: Result<Reading, ParseError>): Result<Topology, ParseError> {
    match reading
    case Ok(reading) => Ok(Topology(reading.logical, Values(items), reading.pending))
    case Err(error) => Err(error)
  }

  function Parsed(payload: seq<Byte>, mode: Mode): Result<Topology, ParseError> {
    match Items(payload, mode == POLLING_PREFIX)
    case Ok(items) => WithPhysical(items, Read(items, mode, false))
    case Err(_) => Err(IncompleteCapture)
  }

  // ---- the loops ----

  function Behind(items: seq<Item>, later: Result<seq<Item>, ScanError>): Result<seq<Item>, ScanError> {
    match later
    case Ok(more) => Ok(items + more)
    case Err(error) => Err(error)
  }

  lemma BehindOne(items: seq<Item>, item: Item, later: Result<seq<Item>, ScanError>)
    ensures Behind(items, PrependItem(item, later)) == Behind(items + [item], later)
  {
    if later.Ok? {
      assert items + ([item] + later.value) == items + [item] + later.value;
    }
  }

  lemma BehindNothing(later: Result<seq<Item>, ScanError>)
    ensures Behind([], later) == later
  {
    if later.Ok? {
      assert [] + later.value == later.value;
    }
  }

  lemma NextLine(payload: seq<Byte>, start: nat, end: nat, allow: bool, prefix: seq<Byte>,
                 later: Result<seq<Item>, ScanError>)
    requires start < |payload| && end == start + FirstLine(payload[start..])
    requires later == Records(payload[end..], end, allow, prefix)
    ensures Records(payload[start..], start, allow, prefix)
         == LineItem(payload[start..end], end == |payload| && allow, start, prefix, later)
  {
    var line, rest := payload[start..end], payload[end..];
    SplitAt(payload, start, end);
    RecordsOfLine(line, rest, start, allow, prefix, later);
  }

  lemma SplitAt(s: seq<Byte>, start: nat, end: nat)
    requires start <= end <= |s|
    ensures s[start..] == s[start..end] + s[end..]
  {
  }

  lemma LineWithRecord(line: seq<Byte>, at: nat, tolerated: bool, base: nat, prefix: seq<Byte>, item: Item,
                       later: Result<seq<Item>, ScanError>)
    requires Find(line, prefix) == Some(at) && EndsCrlf(line[at..])
    requires item == Item(RECORD, line[at..], base + at, base + |line|)
    ensures LineItem(line, tolerated, base, prefix, later) == PrependItem(item, later)
  {
  }

  /** The first loop of the item scan: one line after the other. */
  method ScanRecords(payload: seq<Byte>, allow: bool, prefix: seq<Byte>) returns (r: Result<seq<Item>, ScanError>)
    ensures r == Records(payload, 0, allow, prefix)
  {
    var items, start := [], 0;
    ghost var whole := Records(payload, 0, allow, prefix);
    ghost var ahead := whole;
    BehindNothing(whole);
    assert payload[0..] == payload;
    while start < |payload|
      invariant start <= |payload| && ahead == Records(payload[start..], start, allow, prefix)
      invariant whole == Behind(items, ahead)
    {
      var end := start + FirstLine(payload[start..]);
      var line := payload[start..end];
      ghost var later := Records(payload[end..], end, allow, prefix);
      NextLine(payload, start, end, allow, prefix, later);
      assert start + |line| == end;
      var found := Find(line, prefix);
      if found.None? {
        assert ahead == later;
      } else {
        var record := line[found.value..];
        if EndsCrlf(record) {
          var item := Item(RECORD, record, start + found.value, end);
          LineWithRecord(line, found.value, end == |payload| && allow, start, prefix, item, later);
          BehindOne(items, item, later);
          items := items + [item];
        } else if !(allow && end == |payload|) {
          assert ahead == Err(IncompleteRecord);
          return Err(IncompleteRecord);
        } else {
          assert ahead == later;
        }
      }
      start, ahead := end, later;
    }
    r := Ok(items);
    assert items + [] == items;
  }

  lemma {:induction false} NothingFound(s: seq<Byte>, base: nat, kind: Kind, frame: seq<Byte>)
    requires frame != [] && Find(s, frame) == None
    ensures Frames(s, base, kind, frame) == []
  {
    if s != [] {
      NothingFound(s[1..], base + 1, kind, frame);
    }
  }

  /** What the search finds is what the list of occurrences begins with. */
  lemma {:induction false} FirstFound(s: seq<Byte>, base: nat, kind: Kind, frame: seq<Byte>, at: nat, rest: seq<Byte>,
                                      start: nat, end: nat)
    requires frame != [] && Find(s, frame) == Some(at) && rest == s[at + |frame|..]
    requires start == base + at && end == start + |frame|
    ensures Frames(s, base, kind, frame) == [Item(kind, frame, start, end)] + Frames(rest, end, kind, frame)
  {
    if !HasAt(s, frame, 0) {
      DropOne(s, at - 1 + |frame|);
      FirstFound(s[1..], base + 1, kind, frame, at - 1, rest, start, end);
      FramesStep(s, s[1..], base, kind, frame);
    }
  }

  lemma DropOne(s: seq<Byte>, n: nat)
    requires n < |s|
    ensures s[1..][n..] == s[n + 1..]
  {
  }

  lemma DropMore(s: seq<Byte>, a: nat, b: nat)
    requires a + b <= |s|
    ensures s[a..][b..] == s[a + b..]
  {
  }

  /** The second loop: every occurrence of one boundary. */
  method ScanFrames(payload: seq<Byte>, kind: Kind, frame: seq<Byte>) returns (items: seq<Item>)
    requires frame != []
    ensures items == Frames(payload, 0, kind, frame)
  {
    items := [];
    var start := 0;
    ghost var whole, ahead := Frames(payload, 0, kind, frame), Frames(payload, 0, kind, frame);
    assert payload[0..] == payload;
    while true
      invariant start <= |payload| && ahead == Frames(payload[start..], start, kind, frame)
      invariant whole == items + ahead
      decreases |payload| - start
    {
      var found := Find(payload[start..], frame);
      if found.None? {
        NothingFound(payload[start..], start, kind, frame);
        break;
      }
      var at := start + found.value;
      var end := at + |frame|;
      var item := Item(kind, frame, at, end);
      DropMore(payload, start, found.value + |frame|);
      FirstFound(payload[start..], start, kind, frame, found.value, payload[end..], at, end);
      ghost var later := Frames(payload[end..], end, kind, frame);
      OneMore(items, item, later);
      items := items + [item];
      start, ahead := end, later;
    }
  }

  lemma OneMore(items: seq<Item>, item: Item, more: seq<Item>)
    ensures items + ([item] + more) == items + [item] + more
  {
  }

  method ScanItems(payload: seq<Byte>, allow: bool) returns (r: Result<seq<Item>, ScanError>)
    ensures r == Items(payload, allow)
  {
    var records := ScanRecords(payload, allow, PREFIX);
    if records.Err? {
      return records;
    }
    var on := ScanFrames(payload, ON, ON_FRAME);
    var off := ScanFrames(payload, OFF, OFF_FRAME);
    r := Ok(SortItems(records.value + on + off));
  }

  lemma PrecededTwice(records: seq<seq<Byte>>, value: seq<Byte>, later: Result<Reading, ParseError>)
    ensures Preceded(records, Preceded([value], later)) == Preceded(records + [value], later)
  {
    if later.Ok? {
      assert records + ([value] + later.value.logical) == records + [value] + later.value.logical;
    }
  }

  lemma PrecededByNothing(later: Result<Reading, ParseError>)
    ensures Preceded([], later) == later
  {
    if later.Ok? {
      assert [] + later.value.logical == later.value.logical;
    }
  }

  /** The parse loop, item by item. */
  method ParseRecords(payload: seq<Byte>, mode: Mode) returns (r: Result<Topology, ParseError>)
    ensures r == Parsed(payload, mode)
  {
    var scanned := ScanItems(payload, mode == POLLING_PREFIX);
    if scanned.Err? {
      return Err(IncompleteCapture);
    }
    var items := scanned.value;
    var logical, display, at := [], false, 0;
    assert items[0..] == items;
    PrecededByNothing(Read(items, mode, false));
    while at < |items|
      invariant at <= |items|
      invariant Read(items, mode, false) == Preceded(logical, Read(items[at..], mode, display))
    {
      var item, ahead := items[at], items[at..];
      assert ahead[1..] == items[at + 1..];
      if item.kind == ON {
        if display {
          return Err(DuplicateOn);
        }
        display := true;
        at := at + 1;
      } else if item.kind == OFF {
        if !display {
          return Err(OffWhileOff);
        }
        display := false;
        at := at + 1;
      } else if display {
        if at + 1 == |items| {
          if mode == POLLING_PREFIX {
            assert logical + [] == logical;
            return Ok(Topology(logical, Values(items), Some(item.value)));
          }
          return Err(Dangling);
        }
        var next := items[at + 1];
        if next.kind != RECORD {
          return Err(NotAdjacent);
        }
        if item.end != next.start {
          return Err(Gap);
        }
        if next.value != item.value {
          return Err(CopiesDiffer);
        }
        assert ahead[2..] == items[at + 2..];
        PrecededTwice(logical, item.value, Read(ahead[2..], mode, display));
        logical := logical + [item.value];
        at := at + 2;
      } else {
        if at + 1 < |items| && items[at + 1].kind == RECORD && items[at + 1].value == item.value {
          return Err(DisabledPair);
        }
        PrecededTwice(logical, item.value, Read(ahead[1..], mode, display));
        logical := logical + [item.value];
        at := at + 1;
      }
    }
    assert logical + [] == logical;
    r := Ok(Topology(logical, Values(items), None));
  }
}
