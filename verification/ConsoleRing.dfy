/**
 The scrollback of the console: a ring of lines, written in place, that always shows the end of the text that was
 written, cut into lines, and a view of it that moves by pages.
 */
module ConsoleRing {
  import opened Utf8

  const MAX_COLUMNS := 256
  const HISTORY_LINES := 2048

  const BACKSPACE: Unit := 8
  const LINE_FEED: Unit := 10
  const RETURN: Unit := 13

  // ---- all the lines there ever were ----

  /** A line, and whether a line feed ended it. */
  datatype Line = Line(cells: seq<Unit>, hard: bool)

  const EMPTY_LINE := Line([], false)

  datatype Text = Text(lines: seq<Line>, column: nat)

  predicate InShape(text: Text, width: nat) {
    && text.lines != [] && text.column < width && text.column <= |Last(text.lines).cells|
    && forall i | 0 <= i < |text.lines| :: |text.lines[i].cells| <= width
  }

  function Last(lines: seq<Line>): Line
    requires lines != []
  {
    lines[|lines| - 1]
  }

  function WithLast(lines: seq<Line>, line: Line): (r: seq<Line>)
    requires lines != []
    ensures |r| == |lines| && Last(r) == line && forall i | 0 <= i < |lines| - 1 :: r[i] == lines[i]
  {
    lines[..|lines| - 1] + [line]
  }

  function Overwrite(cells: seq<Unit>, column: nat, unit: Unit): (r: seq<Unit>)
    requires column <= |cells|
    ensures |r| == if column < |cells| then |cells| else column + 1
    ensures forall c | 0 <= c < |r| :: r[c] == if c == column then unit else cells[c]
  {
    if column < |cells| then cells[column := unit] else cells + [unit]
  }

  /** One code unit on an endless sheet of the given width. */
  function Put(text: Text, unit: Unit, width: nat): (r: Text)
    requires InShape(text, width)
    ensures InShape(r, width)
    ensures |text.lines| <= |r.lines| <= |text.lines| + 1
  {
    var last := Last(text.lines);
    if unit == BACKSPACE then Text(text.lines, if text.column > 0 then text.column - 1 else 0)
    else if unit == RETURN then Text(text.lines, 0)
    else if unit == LINE_FEED then Text(WithLast(text.lines, last.(hard := true)) + [EMPTY_LINE], 0)
    else
      var lines := WithLast(text.lines, last.(cells := Overwrite(last.cells, text.column, unit)));
      if text.column + 1 == width then Text(lines + [EMPTY_LINE], 0) else Text(lines, text.column + 1)
  }

  function Written(text: Text, units: seq<Unit>, width: nat): (r: Text)
    requires InShape(text, width)
    ensures InShape(r, width)
    ensures |text.lines| <= |r.lines|
  {
    if units == [] then text else Put(Written(text, units[..|units| - 1], width), units[|units| - 1], width)
  }

  // ---- nothing is lost ----

  /** Plain text: no backspace, and every line end is CR LF. */
  predicate Plain(units: seq<Unit>) {
    var n := |units|;
    if n == 0 then true
    else if units[n - 1] == LINE_FEED then n >= 2 && units[n - 2] == RETURN && Plain(units[..n - 2])
    else units[n - 1] != RETURN && units[n - 1] != BACKSPACE && Plain(units[..n - 1])
  }

  function LineText(line: Line): seq<Unit> {
    line.cells + if line.hard then [RETURN, LINE_FEED] else []
  }

  function Joined(lines: seq<Line>): seq<Unit> {
    if lines == [] then [] else Joined(lines[..|lines| - 1]) + LineText(Last(lines))
  }

  /** The text can be read off the lines, and the cursor is at the end of the last. */
  ghost predicate Shows(text: Text, units: seq<Unit>) {
    && text.lines != [] && Joined(text.lines) == units
    && !Last(text.lines).hard && text.column == |Last(text.lines).cells|
  }

  lemma JoinedLast(lines: seq<Line>, line: Line)
    requires lines != []
    ensures Joined(WithLast(lines, line)) == Joined(lines[..|lines| - 1]) + LineText(line)
  {
    assert WithLast(lines, line)[..|lines| - 1] == lines[..|lines| - 1];
  }

  lemma JoinedEmpty(lines: seq<Line>)
    ensures Joined(lines + [EMPTY_LINE]) == Joined(lines)
  {
    assert (lines + [EMPTY_LINE])[..|lines|] == lines;
  }

  lemma ShowsUnit(text: Text, units: seq<Unit>, unit: Unit, width: nat)
    requires InShape(text, width) && Shows(text, units)
    requires unit != BACKSPACE && unit != RETURN && unit != LINE_FEED
    ensures Shows(Put(text, unit, width), units + [unit])
  {
    var last := Last(text.lines);
    var longer := last.(cells := last.cells + [unit]);
    var lines := WithLast(text.lines, longer);
    JoinedLast(text.lines, longer);
    assert Joined(lines) == units + [unit];
    JoinedEmpty(lines);
  }

  lemma ShowsLineEnd(text: Text, units: seq<Unit>, width: nat)
    requires InShape(text, width) && Shows(text, units)
    ensures Shows(Put(Put(text, RETURN, width), LINE_FEED, width), units + [RETURN, LINE_FEED])
  {
    var last := Last(text.lines);
    var ended := last.(hard := true);
    var lines := WithLast(text.lines, ended);
    JoinedLast(text.lines, ended);
    assert Joined(lines) == units + [RETURN, LINE_FEED];
    JoinedEmpty(lines);
  }

  lemma WrittenTwo(text: Text, units: seq<Unit>, a: Unit, b: Unit, width: nat)
    requires InShape(text, width)
    ensures Written(text, units + [a, b], width) == Put(Put(Written(text, units, width), a, width), b, width)
  {
    hide Put;
    var all, n := units + [a, b], |units|;
    assert all[..n + 1] == units + [a] && (units + [a])[..n] == units;
  }

  lemma WrittenLineEnd(text: Text, units: seq<Unit>, before: seq<Unit>, width: nat)
    requires InShape(text, width) && units == before + [RETURN, LINE_FEED]
    requires Shows(Written(text, before, width), before)
    ensures Shows(Written(text, units, width), units)
  {
    hide Put, Shows;
    WrittenTwo(text, before, RETURN, LINE_FEED, width);
    ShowsLineEnd(Written(text, before, width), before, width);
  }

  lemma WrittenUnit(text: Text, units: seq<Unit>, before: seq<Unit>, unit: Unit, width: nat)
    requires InShape(text, width) && units == before + [unit]
    requires unit != BACKSPACE && unit != RETURN && unit != LINE_FEED
    requires Shows(Written(text, before, width), before)
    ensures Shows(Written(text, units, width), units)
  {
    hide Put, Shows;
    ShowsUnit(Written(text, before, width), before, unit, width);
    assert units[..|before|] == before;
  }

  lemma ShowsNothing()
    ensures Shows(Text([EMPTY_LINE], 0), [])
  {
    JoinedEmpty([]);
    assert [] + [EMPTY_LINE] == [EMPTY_LINE];
  }

  /** However wide the sheet, the lines hold exactly the text that was written. */
  lemma {:induction false} LinesGiveText(units: seq<Unit>, width: nat)
    requires width >= 1 && Plain(units)
    ensures Shows(Written(Text([EMPTY_LINE], 0), units, width), units)
  {
    hide Put, Shows;
    var n, start := |units|, Text([EMPTY_LINE], 0);
    if n == 0 {
      ShowsNothing();
    } else if units[n - 1] == LINE_FEED {
      LinesGiveText(units[..n - 2], width);
      WrittenLineEnd(start, units, units[..n - 2], width);
    } else {
      LinesGiveText(units[..n - 1], width);
      WrittenUnit(start, units, units[..n - 1], units[n - 1], width);
    }
  }

  // ---- views of the end of a list ----

  function Min(a: int, b: int): int {
    if a < b then a else b
  }

  function Less(a: nat, b: nat): nat {
    if a < b then 0 else a - b
  }

  /** The lines that are still kept. */
  function Kept(lines: seq<Line>): (r: seq<Line>)
    ensures |r| == Min(|lines|, HISTORY_LINES)
  {
    lines[Less(|lines|, HISTORY_LINES)..]
  }

  /** The lines on the screen when the view is `offset` lines above the bottom. */
  function Window(lines: seq<Line>, offset: nat, rows: nat): seq<Line> {
    var end := Less(|lines|, offset);
    lines[Less(end, rows)..end]
  }

  /** Where a line that is `age` lines above the head is kept. */
  function Slot(head: nat, age: nat): (slot: nat)
    requires head < HISTORY_LINES && age < HISTORY_LINES
    ensures slot < HISTORY_LINES
  {
    if age <= head then head - age else head + HISTORY_LINES - age
  }

  class ConsoleHistory {
    const cells: array<Unit>
    const lengths: array<nat>
    const hardBreaks: array<bool>
    var width: nat
    var rows: nat
    var head: nat
    var count: nat
    var column: nat
    var viewOffset: nat

    ghost var all: seq<Line>

    ghost predicate Shape() {
      && cells.Length == MAX_COLUMNS * HISTORY_LINES && lengths.Length == HISTORY_LINES
      && hardBreaks.Length == HISTORY_LINES && (cells as object) != (lengths as object)
    }

    ghost predicate LineAt(slot: nat, line: Line)
      requires Shape() && slot < HISTORY_LINES && |line.cells| <= MAX_COLUMNS
      reads cells, lengths, hardBreaks
    {
      && lengths[slot] == |line.cells| && hardBreaks[slot] == line.hard
      && forall c | 0 <= c < |line.cells| :: cells[slot * MAX_COLUMNS + c] == line.cells[c]
    }

    /** The slots hold the newest lines, the newest of all at the head. */
    ghost predicate Holds(lines: seq<Line>, head: nat, count: nat)
      requires Shape() && head < HISTORY_LINES && count <= HISTORY_LINES && count <= |lines|
      requires forall i | 0 <= i < |lines| :: |lines[i].cells| <= MAX_COLUMNS
      reads cells, lengths, hardBreaks
    {
      forall age | 0 <= age < count :: LineAt(Slot(head, age), lines[|lines| - 1 - age])
    }

    ghost predicate Valid()
      reads this, cells, lengths, hardBreaks
    {
      && Shape() && 1 <= width <= MAX_COLUMNS && rows >= 1 && head < HISTORY_LINES
      && InShape(Text(all, column), width)
      && count == Min(|all|, HISTORY_LINES)
      && viewOffset <= Less(count, rows)
      && Holds(all, head, count)
    }

    ghost function Content(): Text
      reads this
    {
      Text(all, column)
    }

    constructor ()
      ensures Valid() && fresh(cells) && fresh(lengths) && fresh(hardBreaks)
      ensures width == 80 && rows == 25 && viewOffset == 0 && Content() == Text([EMPTY_LINE], 0)
    {
      cells := new Unit[MAX_COLUMNS * HISTORY_LINES](_ => 0);
      lengths := new nat[HISTORY_LINES](_ => 0);
      hardBreaks := new bool[HISTORY_LINES](_ => false);
      width, rows, head, count, column, viewOffset := 80, 25, 0, 1, 0, 0;
      all := [EMPTY_LINE];
    }

    method Configure(columns: nat, rows: nat)
      requires Valid()
      modifies this, cells, lengths, hardBreaks
      ensures Valid() && Content() == Text([EMPTY_LINE], 0) && viewOffset == 0
      ensures width == (if columns == 0 then 1 else Min(columns, MAX_COLUMNS)) && this.rows == (if rows == 0 then 1 else rows)
    {
      width := if columns < 1 then 1 else if columns > MAX_COLUMNS then MAX_COLUMNS else columns;
      this.rows := if rows < 1 then 1 else rows;
      Reset();
    }

    method Reset()
      requires Shape() && 1 <= width <= MAX_COLUMNS && rows >= 1
      modifies this, cells, lengths, hardBreaks
      ensures Valid() && Content() == Text([EMPTY_LINE], 0) && viewOffset == 0
      ensures width == old(width) && rows == old(rows)
    {
      forall i | 0 <= i < cells.Length {
        cells[i] := 0;
      }
      forall i | 0 <= i < HISTORY_LINES {
        lengths[i] := 0;
      }
      forall i | 0 <= i < HISTORY_LINES {
        hardBreaks[i] := false;
      }
      head, count, column, viewOffset := 0, 1, 0, 0;
      all := [EMPTY_LINE];
    }

    /** As Valid, but the head's line may be full. */
    ghost predicate ValidButColumn()
      reads this, cells, lengths, hardBreaks
    {
      && Shape() && 1 <= width <= MAX_COLUMNS && rows >= 1 && head < HISTORY_LINES
      && all != [] && (forall i | 0 <= i < |all| :: |all[i].cells| <= width)
      && count == Min(|all|, HISTORY_LINES)
      && viewOffset <= Less(count, rows)
      && Holds(all, head, count)
    }

    /** One slot is emptied, and the others keep what they hold. */
    method Clear(slot: nat)
      requires Shape() && slot < HISTORY_LINES
      modifies cells, lengths, hardBreaks
      ensures LineAt(slot, EMPTY_LINE)
      ensures forall i: nat, line: Line | i < HISTORY_LINES && i != slot && |line.cells| <= MAX_COLUMNS ::
                old(LineAt(i, line)) ==> LineAt(i, line)
    {
      var start := slot * MAX_COLUMNS;
      forall i | start <= i < start + MAX_COLUMNS {
        cells[i] := 0;
      }
      lengths[slot] := 0;
      hardBreaks[slot] := false;
    }

    /** As Holds, but nothing is known of the head. */
    ghost predicate HoldsBehind(lines: seq<Line>, head: nat, count: nat)
      requires Shape() && head < HISTORY_LINES && count <= HISTORY_LINES && count <= |lines|
      requires forall i | 0 <= i < |lines| :: |lines[i].cells| <= MAX_COLUMNS
      reads cells, lengths, hardBreaks
    {
      forall age | 0 < age < count :: LineAt(Slot(head, age), lines[|lines| - 1 - age])
    }

    /** With the head moved on, every line is one older. */
    lemma OneOlder(lines: seq<Line>, head: nat, next: nat, count: nat, more: nat)
      requires Shape() && head < HISTORY_LINES && count <= HISTORY_LINES && count <= |lines|
      requires forall i | 0 <= i < |lines| :: |lines[i].cells| <= MAX_COLUMNS
      requires Holds(lines, head, count)
      requires next == (head + 1) % HISTORY_LINES && more <= count + 1 && more <= HISTORY_LINES
      ensures HoldsBehind(lines + [EMPTY_LINE], next, more)
    {
      var longer := lines + [EMPTY_LINE];
      forall age | 0 < age < more ensures LineAt(Slot(next, age), longer[|longer| - 1 - age]) {
        SlotMoves(head, age - 1);
        assert LineAt(Slot(head, age - 1), lines[|lines| - age]);
      }
    }

    method ClearHead(slot: nat, ghost lines: seq<Line>, ghost count: nat)
      requires Shape() && slot < HISTORY_LINES && count <= HISTORY_LINES && count <= |lines|
      requires forall i | 0 <= i < |lines| :: |lines[i].cells| <= MAX_COLUMNS
      requires lines != [] && Last(lines) == EMPTY_LINE && HoldsBehind(lines, slot, count)
      modifies cells, lengths, hardBreaks
      ensures Holds(lines, slot, count)
    {
      Clear(slot);
      forall age | 0 < age < count ensures LineAt(Slot(slot, age), lines[|lines| - 1 - age]) {
        SlotApart(slot, age);
        assert old(LineAt(Slot(slot, age), lines[|lines| - 1 - age]));
      }
    }

    /** The head moves on to a cleared line; the oldest line is dropped when the ring is full. */
    method AdvanceLine()
      requires ValidButColumn()
      modifies `head, `count, `column, `all, cells, lengths, hardBreaks
      ensures Valid() && all == old(all) + [EMPTY_LINE] && column == 0
    {
      ghost var more := Min(count + 1, HISTORY_LINES);
      OneOlder(all, head, (head + 1) % HISTORY_LINES, count, more);
      head := (head + 1) % HISTORY_LINES;
      if count < HISTORY_LINES {
        count := count + 1;
      }
      ClearHead(head, all + [EMPTY_LINE], more);
      column := 0;
      all := all + [EMPTY_LINE];
    }

    method Mark()
      requires ValidButColumn()
      modifies hardBreaks, `all
      ensures ValidButColumn() && all == WithLast(old(all), Last(old(all)).(hard := true))
    {
      hardBreaks[head] := true;
      all := WithLast(all, Last(all).(hard := true));
      forall age | 0 <= age < count ensures LineAt(Slot(head, age), all[|all| - 1 - age]) {
        assert old(LineAt(Slot(head, age), all[|all| - 1 - age]));
      }
    }

    /** One unit of the line in one slot, and the others keep what they hold. */
    method PutUnit(slot: nat, column: nat, value: Unit, ghost line: Line)
      requires Shape() && slot < HISTORY_LINES && |line.cells| <= MAX_COLUMNS && LineAt(slot, line)
      requires column <= |line.cells| && column < MAX_COLUMNS
      modifies cells, lengths
      ensures LineAt(slot, line.(cells := Overwrite(line.cells, column, value)))
      ensures forall i: nat, other: Line | i < HISTORY_LINES && i != slot && |other.cells| <= MAX_COLUMNS ::
                old(LineAt(i, other)) ==> LineAt(i, other)
    {
      cells[slot * MAX_COLUMNS + column] := value;
      lengths[slot] := if lengths[slot] < column + 1 then column + 1 else lengths[slot];
    }

    method Store(value: Unit)
      requires Valid()
      modifies cells, lengths, `column, `all
      ensures ValidButColumn() && column == old(column) + 1
      ensures var last := Last(old(all));
        all == WithLast(old(all), last.(cells := Overwrite(last.cells, old(column), value)))
    {
      hide LineAt, Slot, Overwrite;
      ghost var last := Last(all);
      SlotOfHead(head);
      assert LineAt(Slot(head, 0), last);
      PutUnit(head, column, value, last);
      column := column + 1;
      all := WithLast(all, last.(cells := Overwrite(last.cells, column - 1, value)));
      forall age | 0 < age < count ensures LineAt(Slot(head, age), all[|all| - 1 - age]) {
        SlotApart(head, age);
        assert old(LineAt(Slot(head, age), all[|all| - 1 - age]));
      }
    }

    /** Writing appends to the endless text, whatever the ring has dropped of it. */
    method Write(units: seq<Unit>)
      requires Valid()
      modifies `head, `count, `column, `all, cells, lengths, hardBreaks
      ensures Valid() && Content() == Written(old(Content()), units, width)
    {
      for i := 0 to |units|
        invariant Valid() && Content() == Written(old(Content()), units[..i], width)
      {
        var unit := units[i];
        assert units[..i + 1][..i] == units[..i];
        if unit == BACKSPACE {
          column := if column > 0 then column - 1 else 0;
        } else if unit == RETURN {
          column := 0;
        } else if unit == LINE_FEED {
          Mark();
          AdvanceLine();
        } else {
          Store(unit);
          if column == width {
            AdvanceLine();
          }
        }
      }
      assert units[..|units|] == units;
    }

    // ---- the view ----

    /** The lines that the screen shows. */
    ghost function View(): seq<Line>
      reads this
    {
      Window(Kept(all), viewOffset, rows)
    }

    method ReturnToBottom() returns (changed: bool)
      requires Valid()
      modifies `viewOffset
      ensures Valid() && viewOffset == 0 && changed == (old(viewOffset) != 0)
    {
      changed := viewOffset != 0;
      viewOffset := 0;
    }

    method PageUp() returns (changed: bool)
      requires Valid()
      modifies `viewOffset
      ensures Valid() && viewOffset == Higher(|Kept(all)|, old(viewOffset), rows)
      ensures changed == (viewOffset != old(viewOffset))
    {
      var maximum := if count < rows then 0 else count - rows;
      var next := if viewOffset + rows < maximum then viewOffset + rows else maximum;
      changed := next != viewOffset;
      viewOffset := next;
    }

    method PageDown() returns (changed: bool)
      requires Valid()
      modifies `viewOffset
      ensures Valid() && viewOffset == Less(old(viewOffset), rows)
      ensures changed == (viewOffset != old(viewOffset))
    {
      var next := if viewOffset < rows then 0 else viewOffset - rows;
      changed := next != viewOffset;
      viewOffset := next;
    }

    method ViewportLen() returns (n: nat)
      requires Valid()
      ensures n == |View()|
      ensures n == Min(count, rows)
    {
      var end := Less(count, viewOffset);
      n := end - Less(end, rows);
    }

    method ViewportLine(row: nat) returns (line: seq<Unit>, hard: bool)
      requires Valid() && row < |View()|
      ensures Line(line, hard) == View()[row]
    {
      var end := Less(count, viewOffset);
      var start := Less(end, rows);
      var logical := start + row;
      var oldest := (head + HISTORY_LINES + 1 - count) % HISTORY_LINES;
      var physical := (oldest + logical) % HISTORY_LINES;
      PhysicalSlot(head, count, logical);
      ghost var shown := View()[row];
      ViewAt(all, viewOffset, rows, row);
      assert LineAt(physical, shown);
      var from := physical * MAX_COLUMNS;
      line := cells[from..from + lengths[physical]];
      hard := hardBreaks[physical];
    }

    method ViewportCursor() returns (cursorColumn: nat, cursorRow: nat)
      requires Valid()
      ensures cursorRow == |View()| - 1
      ensures viewOffset == 0 ==> cursorColumn == column
      ensures viewOffset != 0 ==> cursorColumn == Min(|Last(View()).cells|, width - 1)
    {
      var n := ViewportLen();
      if viewOffset != 0 {
        var line, hard := ViewportLine(n - 1);
        cursorColumn := if |line| < width - 1 then |line| else width - 1;
        cursorRow := n - 1;
        return;
      }
      cursorColumn, cursorRow := column, n - 1;
    }
  }

  /** A page further up, but not above the oldest line. */
  function Higher(count: nat, offset: nat, rows: nat): nat {
    Min(Less(count, rows), offset + rows)
  }

  lemma ViewAt(lines: seq<Line>, offset: nat, rows: nat, row: nat)
    requires row < |Window(Kept(lines), offset, rows)|
    ensures var count := |Kept(lines)|;
      var logical := Less(Less(count, offset), rows) + row;
      logical < count && Window(Kept(lines), offset, rows)[row] == lines[|lines| - 1 - (count - 1 - logical)]
  {
  }

  /** The index computed from the oldest line is the slot that the line's age gives. */
  lemma PhysicalSlot(head: nat, count: nat, logical: nat)
    requires head < HISTORY_LINES && 1 <= count <= HISTORY_LINES && logical < count
    ensures ((head + HISTORY_LINES + 1 - count) % HISTORY_LINES + logical) % HISTORY_LINES == Slot(head, count - 1 - logical)
  {
    var from := head + HISTORY_LINES + 1 - count;
    if from >= HISTORY_LINES {
      assert from % HISTORY_LINES == from - HISTORY_LINES;
    } else {
      assert from % HISTORY_LINES == from;
    }
  }

  lemma SlotMoves(head: nat, age: nat)
    requires head < HISTORY_LINES && age + 1 < HISTORY_LINES
    ensures Slot((head + 1) % HISTORY_LINES, age + 1) == Slot(head, age)
  {
  }

  lemma SlotOfHead(head: nat)
    requires head < HISTORY_LINES
    ensures Slot(head, 0) == head
  {
  }

  lemma SlotApart(head: nat, age: nat)
    requires head < HISTORY_LINES && 0 < age < HISTORY_LINES
    ensures Slot(head, age) != head
  {
  }

  // ---- what the screen shows ----

  /** With no more rows than lines kept, the screen is the matching part of all the lines ever written. */
  lemma ViewOfAll(lines: seq<Line>, offset: nat, rows: nat)
    requires rows <= HISTORY_LINES && offset <= Less(|Kept(lines)|, rows)
    ensures Window(Kept(lines), offset, rows) == Window(lines, offset, rows)
  {
    var dropped := Less(|lines|, HISTORY_LINES);
    var end := Less(|Kept(lines)|, offset);
    assert Kept(lines)[Less(end, rows)..end] == lines[dropped + Less(end, rows)..dropped + end];
  }

  /** The offset after some pages up from the bottom. */
  function PagesUp(count: nat, rows: nat, pages: nat): (offset: nat)
    requires rows >= 1
    ensures offset <= Less(count, rows)
  {
    if pages == 0 then 0 else Higher(count, PagesUp(count, rows, pages - 1), rows)
  }

  predicate InWindow(count: nat, offset: nat, rows: nat, i: nat) {
    Less(Less(count, offset), rows) <= i < Less(count, offset)
  }

  lemma {:induction false} SomePages(count: nat, rows: nat, i: nat) returns (pages: nat)
    requires rows >= 1 && i < count
    ensures InWindow(count, PagesUp(count, rows, pages), rows, i)
    decreases count - i
  {
    if i + rows >= count {
      pages := 0;
    } else {
      pages := SomePages(count, rows, i + rows);
      var offset := PagesUp(count, rows, pages);
      if !InWindow(count, offset, rows, i) {
        NextPage(count, offset, rows, i);
        pages := pages + 1;
      }
    }
  }

  lemma NextPage(count: nat, offset: nat, rows: nat, i: nat)
    requires rows >= 1 && offset <= Less(count, rows)
    requires InWindow(count, offset, rows, i + rows) && !InWindow(count, offset, rows, i)
    ensures InWindow(count, Higher(count, offset, rows), rows, i)
  {
  }

  /** Paging up shows every line that is kept. */
  lemma EveryLineShown(lines: seq<Line>, rows: nat, i: nat) returns (pages: nat, row: nat)
    requires rows >= 1 && i < |lines|
    ensures var shown := Window(lines, PagesUp(|lines|, rows, pages), rows);
      row < |shown| && shown[row] == lines[i]
  {
    pages := SomePages(|lines|, rows, i);
    row := i - Less(Less(|lines|, PagesUp(|lines|, rows, pages)), rows);
  }

  /** Two pages that meet show every line between them once. */
  lemma PagesMeet(lines: seq<Line>, offset: nat, rows: nat)
    requires offset + rows <= Less(|lines|, rows)
    ensures Window(lines, offset + rows, rows) + Window(lines, offset, rows) == lines[|lines| - offset - 2 * rows..|lines| - offset]
  {
    var low, middle, high := |lines| - offset - 2 * rows, |lines| - offset - rows, |lines| - offset;
    assert Window(lines, offset + rows, rows) == lines[low..middle];
    assert Window(lines, offset, rows) == lines[middle..high];
    JoinSlices(lines, low, middle, high);
  }

  lemma JoinSlices(lines: seq<Line>, low: nat, middle: nat, high: nat)
    requires low <= middle <= high <= |lines|
    ensures lines[low..middle] + lines[middle..high] == lines[low..high]
  {
  }

  /** A page down undoes a page up exactly when the page up was a whole one, or started from the bottom of one page. */
  lemma PageDownUndoes(count: nat, offset: nat, rows: nat)
    requires offset <= Less(count, rows)
    ensures Less(Higher(count, offset, rows), rows) == offset <==> offset == 0 || offset + rows <= Less(count, rows)
  {
  }

  /** Nine lines on four rows, three lines up: the page up stops at the top, and the page down overshoots. */
  lemma PageDownMisses()
    ensures 3 <= Less(9, 4) && Higher(9, 3, 4) == 5 && Less(Higher(9, 3, 4), 4) == 1
  {
  }
}
