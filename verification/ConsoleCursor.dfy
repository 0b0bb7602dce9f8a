/**
 The other cursor trackers of the console: the one that counts how far the firmware scrolls, and the one that breaks
 lines before the firmware would. They agree with each other and with the firmware's own cursor on every text, and with
 the scrollback ring exactly when no line feed comes away from column 0.
 */
module ConsoleCursor {
  import opened Wrappers
  import opened Utf8
  import opened ConsoleRing
  import ConsoleText

  // ---- the columns ----

  predicate Printed(unit: Unit) {
    unit != BACKSPACE && unit != RETURN && unit != LINE_FEED
  }

  /** The column behind one unit; a line feed keeps the column. */
  function NextColumn(unit: Unit, column: nat, width: nat): nat {
    if unit == BACKSPACE then Less(column, 1)
    else if unit == RETURN then 0
    else if unit == LINE_FEED then column
    else if column + 1 == width then 0
    else column + 1
  }

  function Column(units: seq<Unit>, column: nat, width: nat): (r: nat)
    ensures column < width ==> r < width
  {
    if units == [] then column else Column(units[1..], NextColumn(units[0], column, width), width)
  }

  /** A new row begins: at a line feed, or behind the last column. */
  predicate Breaks(unit: Unit, column: nat, width: nat) {
    unit == LINE_FEED || (Printed(unit) && column + 1 == width)
  }

  function Rows(units: seq<Unit>, column: nat, width: nat): nat {
    if units == [] then 0
    else (if Breaks(units[0], column, width) then 1 else 0) + Rows(units[1..], NextColumn(units[0], column, width), width)
  }

  lemma {:induction false} ColumnAppend(a: seq<Unit>, b: seq<Unit>, column: nat, width: nat)
    ensures Column(a + b, column, width) == Column(b, Column(a, column, width), width)
    ensures Rows(a + b, column, width) == Rows(a, column, width) + Rows(b, Column(a, column, width), width)
  {
    if a == [] {
      assert a + b == b;
    } else {
      assert (a + b)[1..] == a[1..] + b;
      ColumnAppend(a[1..], b, NextColumn(a[0], column, width), width);
    }
  }

  lemma ColumnNext(units: seq<Unit>, i: nat, column: nat, width: nat)
    requires i < |units|
    ensures var before := Column(units[..i], column, width);
      && Column(units[..i + 1], column, width) == NextColumn(units[i], before, width)
      && Rows(units[..i + 1], column, width)
         == Rows(units[..i], column, width) + if Breaks(units[i], before, width) then 1 else 0
  {
    assert units[..i + 1] == units[..i] + [units[i]];
    ColumnAppend(units[..i], [units[i]], column, width);
    var before := Column(units[..i], column, width);
    assert [units[i]][1..] == [];
    assert Column([units[i]], before, width) == NextColumn(units[i], before, width);
  }

  // ---- counting scrolls ----

  /** How often the content scrolls; nothing for a cursor outside the content. */
  method NativeScrolls(units: seq<Unit>, startColumn: nat, startRow: nat, width: nat, contentRows: nat)
    returns (r: Option<nat>)
    ensures r.None? <==> startColumn >= width || startRow >= contentRows
    ensures r.Some? ==> r.value == Less(startRow + Rows(units, startColumn, width), contentRows - 1)
  {
    if width == 0 || contentRows == 0 || startColumn >= width || startRow >= contentRows {
      return None;
    }
    var column, row, scrolls := startColumn, startRow, 0;
    for i := 0 to |units|
      invariant column == Column(units[..i], startColumn, width)
      invariant row < contentRows && row + scrolls == startRow + Rows(units[..i], startColumn, width)
      invariant scrolls > 0 ==> row == contentRows - 1
    {
      ColumnNext(units, i, startColumn, width);
      var unit := units[i];
      if unit == BACKSPACE {
        column := Less(column, 1);
      } else if unit == RETURN {
        column := 0;
      } else if unit == LINE_FEED {
        row := row + 1;
        if row >= contentRows {
          row, scrolls := contentRows - 1, scrolls + 1;
        }
      } else {
        column := column + 1;
        if column == width {
          column, row := 0, row + 1;
          if row >= contentRows {
            row, scrolls := contentRows - 1, scrolls + 1;
          }
        }
      }
    }
    assert units[..|units|] == units;
    r := Some(scrolls);
  }

  // ---- breaking lines before the firmware does ----

  /** The units with CR LF put in behind every full line. */
  function Wrapped(units: seq<Unit>, column: nat, width: nat): seq<Unit> {
    if units == [] then []
    else
      [units[0]] + (if Printed(units[0]) && column + 1 == width then [RETURN, LINE_FEED] else [])
      + Wrapped(units[1..], NextColumn(units[0], column, width), width)
  }

  lemma {:induction false} WrappedAppend(a: seq<Unit>, b: seq<Unit>, column: nat, width: nat)
    ensures Wrapped(a + b, column, width) == Wrapped(a, column, width) + Wrapped(b, Column(a, column, width), width)
  {
    if a == [] {
      assert a + b == b;
    } else {
      assert (a + b)[1..] == a[1..] + b;
      WrappedAppend(a[1..], b, NextColumn(a[0], column, width), width);
    }
  }

  function Joined(calls: seq<seq<Unit>>): seq<Unit> {
    if calls == [] then [] else Joined(calls[..|calls| - 1]) + calls[|calls| - 1]
  }

  lemma JoinedMore(calls: seq<seq<Unit>>, call: seq<Unit>)
    ensures Joined(calls + [call]) == Joined(calls) + call
  {
    assert (calls + [call])[..|calls|] == calls;
  }

  /** The status of the n-th output call. */
  function Status(statuses: seq<nat>, n: nat): nat {
    if n < |statuses| then statuses[n] else 0
  }

  /** The first `n` output calls succeed. */
  predicate WentWell(statuses: seq<nat>, n: nat) {
    forall k | 0 <= k < n :: Status(statuses, k) == 0
  }

  method Output(call: seq<Unit>, statuses: seq<nat>, before: seq<seq<Unit>>)
    returns (status: nat, sent: seq<seq<Unit>>)
    requires WentWell(statuses, |before|)
    ensures WentWell(statuses, |sent|) && status == Status(statuses, |before|)
    ensures sent == if status == 0 then before + [call] else before
    ensures status == 0 ==> Joined(sent) == Joined(before) + call
  {
    status, sent := Status(statuses, |before|), before;
    if status == 0 {
      JoinedMore(before, call);
      sent := before + [call];
    }
  }

  const NO_STATUS := 0xffff_ffff_ffff_ffff

  lemma NothingWrapped(startColumn: nat, width: nat)
    requires startColumn < width
    ensures Wrapped([], startColumn, width) == [] && Joined([]) == []
  {
  }

  /**
   Write the units in calls that never run over the width. `sent` are the calls that went well; a call that fails ends
   the output.
   */
  method WriteContentWithWrap(units: seq<Unit>, startColumn: nat, width: nat, statuses: seq<nat>)
    returns (r: Result<nat, nat>, sent: seq<seq<Unit>>)
    ensures startColumn >= width ==> r == Err(NO_STATUS) && sent == []
    ensures startColumn < width ==> Joined(sent) <= Wrapped(units, startColumn, width)
    ensures WentWell(statuses, |sent|)
    ensures startColumn < width && r.Err? ==> r.error == Status(statuses, |sent|) && r.error != 0
    ensures startColumn < width && r.Ok? ==>
      r.value == Column(units, startColumn, width) && Joined(sent) == Wrapped(units, startColumn, width)
  {
    hide Wrapped, Joined;
    sent := [];
    if width == 0 || startColumn >= width {
      return Err(NO_STATUS), sent;
    }
    var column, start := startColumn, 0;
    ghost var whole, out: seq<Unit> := Wrapped(units, startColumn, width), [];
    assert units[..0] == [] && units[0..0] == [];
    NothingWrapped(startColumn, width);
    for index := 0 to |units|
      invariant start <= index && column == Column(units[..index], startColumn, width)
      invariant out == Joined(sent) && out <= whole
      invariant out + units[start..index] == Wrapped(units[..index], startColumn, width)
      invariant WentWell(statuses, |sent|)
    {
      var unit := units[index];
      ghost var piece, done := units[start..index + 1], Wrapped(units[..index + 1], startColumn, width);
      ghost var seam := if Printed(unit) && column + 1 == width then [RETURN, LINE_FEED] else [];
      ColumnNext(units, index, startColumn, width);
      NextDone(units, start, index, startColumn, width, out, piece, seam);
      WrappedPrefix(units, index + 1, startColumn, width);
      if unit == BACKSPACE {
        column := Less(column, 1);
      } else if unit == RETURN {
        column := 0;
      } else if unit != LINE_FEED {
        column := column + 1;
        if column == width {
          PrefixOf(out, piece, seam, done, whole);
          var status;
          status, sent := Output(units[start..index + 1], statuses, sent);
          if status != 0 {
            return Err(status), sent;
          }
          status, sent := Output([RETURN, LINE_FEED], statuses, sent);
          if status != 0 {
            return Err(status), sent;
          }
          out := out + piece + seam;
          column, start := 0, index + 1;
          assert out + units[index + 1..index + 1] == out;
        }
      }
    }
    assert units[..|units|] == units;
    if start < |units| {
      var status;
      status, sent := Output(units[start..], statuses, sent);
      if status != 0 {
        return Err(status), sent;
      }
      assert units[start..] == units[start..|units|];
    } else {
      assert out + units[start..|units|] == out;
    }
    r := Ok(column);
  }

  lemma NextDone(units: seq<Unit>, start: nat, index: nat, column: nat, width: nat, out: seq<Unit>, piece: seq<Unit>,
                 seam: seq<Unit>)
    requires start <= index < |units| && piece == units[start..index + 1]
    requires seam == if Printed(units[index]) && Column(units[..index], column, width) + 1 == width
                     then [RETURN, LINE_FEED] else []
    requires out + units[start..index] == Wrapped(units[..index], column, width)
    ensures Wrapped(units[..index + 1], column, width) == out + piece + seam
  {
    WrappedNext(units, index, column, width);
    MoreOf(units, start, index);
    assert out + units[start..index] + [units[index]] + seam == out + (units[start..index] + [units[index]]) + seam;
  }

  lemma WrappedNext(units: seq<Unit>, i: nat, column: nat, width: nat)
    requires i < |units|
    ensures Wrapped(units[..i + 1], column, width) == Wrapped(units[..i], column, width) + [units[i]]
            + if Printed(units[i]) && Column(units[..i], column, width) + 1 == width then [RETURN, LINE_FEED] else []
  {
    assert units[..i + 1] == units[..i] + [units[i]];
    WrappedAppend(units[..i], [units[i]], column, width);
    assert [units[i]][1..] == [];
  }

  lemma WrappedPrefix(units: seq<Unit>, i: nat, column: nat, width: nat)
    requires i <= |units|
    ensures Wrapped(units[..i], column, width) <= Wrapped(units, column, width)
  {
    assert units == units[..i] + units[i..];
    WrappedAppend(units[..i], units[i..], column, width);
  }

  lemma MoreOf(units: seq<Unit>, start: nat, index: nat)
    requires start <= index < |units|
    ensures units[start..index + 1] == units[start..index] + [units[index]]
  {
  }

  lemma PrefixOf(a: seq<Unit>, b: seq<Unit>, c: seq<Unit>, done: seq<Unit>, whole: seq<Unit>)
    requires done == a + b + c && done <= whole
    ensures a <= whole && a + b <= whole
  {
  }

  // ---- the firmware's cursor ----

  /** The firmware's column behind one unit, on a screen that is wider than the content: no line is ever full. */
  function Step(unit: Unit, column: nat): nat {
    if unit == BACKSPACE then Less(column, 1)
    else if unit == RETURN then 0
    else if unit == LINE_FEED then column
    else column + 1
  }

  /** The firmware's own cursor. */
  function Firmware(units: seq<Unit>, column: nat, row: nat): (nat, nat) {
    if units == [] then (column, row)
    else Firmware(units[1..], Step(units[0], column), if units[0] == LINE_FEED then row + 1 else row)
  }

  /** Every unit is printed inside the width. */
  predicate Inside(units: seq<Unit>, column: nat, width: nat) {
    units == []
    || ((Printed(units[0]) ==> column < width) && Inside(units[1..], Step(units[0], column), width))
  }

  /** After broken lines the firmware's cursor is where the trackers say, and it never printed outside the width. */
  lemma {:induction false} FirmwareFollows(units: seq<Unit>, column: nat, row: nat, width: nat)
    requires column < width
    ensures Firmware(Wrapped(units, column, width), column, row)
         == (Column(units, column, width), row + Rows(units, column, width))
    ensures Inside(Wrapped(units, column, width), column, width)
  {
    if units != [] {
      var next := NextColumn(units[0], column, width);
      var rest := Wrapped(units[1..], next, width);
      FirmwareFollows(units[1..], next, if Breaks(units[0], column, width) then row + 1 else row, width);
      if Printed(units[0]) && column + 1 == width {
        assert Wrapped(units, column, width) == [units[0], RETURN, LINE_FEED] + rest;
        FirmwareBreaks(units[0], rest, column, row, width);
      } else {
        assert Wrapped(units, column, width) == [units[0]] + rest;
        assert ([units[0]] + rest)[1..] == rest;
      }
    }
  }

  lemma FirmwareBreaks(unit: Unit, rest: seq<Unit>, column: nat, row: nat, width: nat)
    requires Printed(unit) && column < width
    ensures Firmware([unit, RETURN, LINE_FEED] + rest, column, row) == Firmware(rest, 0, row + 1)
    ensures Inside(rest, 0, width) ==> Inside([unit, RETURN, LINE_FEED] + rest, column, width)
  {
    var out, feed := [unit, RETURN, LINE_FEED] + rest, [LINE_FEED] + rest;
    assert out[1..] == [RETURN, LINE_FEED] + rest;
    assert out[1..][1..] == feed && feed[1..] == rest;
    assert Firmware(feed, 0, row) == Firmware(rest, 0, row + 1);
    assert Inside(feed, 0, width) == Inside(rest, 0, width);
  }

  // ---- the ring ----

  /** Every line feed comes at column 0. */
  predicate FeedsAtZero(units: seq<Unit>, column: nat, width: nat) {
    units == [] || ((units[0] == LINE_FEED ==> column == 0)
                    && FeedsAtZero(units[1..], NextColumn(units[0], column, width), width))
  }

  /** After every beginning of the text, ring and trackers have the same column. */
  ghost predicate Together(text: Text, units: seq<Unit>, width: nat)
    requires InShape(text, width)
  {
    forall k | 0 <= k <= |units| :: Written(text, units[..k], width).column == Column(units[..k], text.column, width)
  }

  lemma {:induction false} WrittenAppend(text: Text, a: seq<Unit>, b: seq<Unit>, width: nat)
    requires InShape(text, width)
    ensures Written(text, a + b, width) == Written(Written(text, a, width), b, width)
  {
    if b == [] {
      assert a + b == a;
    } else {
      assert (a + b)[..|a + b| - 1] == a + b[..|b| - 1];
      WrittenAppend(text, a, b[..|b| - 1], width);
    }
  }

  lemma WrittenHead(text: Text, units: seq<Unit>, width: nat)
    requires InShape(text, width) && units != []
    ensures Written(text, units, width) == Written(Put(text, units[0], width), units[1..], width)
  {
    assert units == [units[0]] + units[1..];
    WrittenAppend(text, [units[0]], units[1..], width);
    assert [units[0]][..0] == [];
  }

  /** With line feeds at column 0 only, the ring follows: same column, and as many new lines as new rows. */
  lemma {:induction false} RingFollows(text: Text, units: seq<Unit>, width: nat)
    requires InShape(text, width) && FeedsAtZero(units, text.column, width)
    ensures var after := Written(text, units, width);
      && after.column == Column(units, text.column, width)
      && |after.lines| == |text.lines| + Rows(units, text.column, width)
    decreases |units|
  {
    if units != [] {
      WrittenHead(text, units, width);
      RingFollows(Put(text, units[0], width), units[1..], width);
    }
  }

  lemma {:induction false} FeedsOfPrefix(units: seq<Unit>, k: nat, column: nat, width: nat)
    requires FeedsAtZero(units, column, width) && k <= |units|
    ensures FeedsAtZero(units[..k], column, width)
  {
    if k > 0 {
      assert units[..k][1..] == units[1..][..k - 1];
      FeedsOfPrefix(units[1..], k - 1, NextColumn(units[0], column, width), width);
    }
  }

  /** Ring and trackers stay together exactly when no line feed comes away from column 0. */
  lemma {:induction false} TogetherExactly(text: Text, units: seq<Unit>, width: nat)
    requires InShape(text, width)
    ensures Together(text, units, width) <==> FeedsAtZero(units, text.column, width)
  {
    if FeedsAtZero(units, text.column, width) {
      forall k | 0 <= k <= |units|
        ensures Written(text, units[..k], width).column == Column(units[..k], text.column, width)
      {
        FeedsOfPrefix(units, k, text.column, width);
        RingFollows(text, units[..k], width);
      }
    } else {
      FeedAway(text, units, width);
    }
  }

  lemma {:induction false} FeedAway(text: Text, units: seq<Unit>, width: nat)
    requires InShape(text, width) && !FeedsAtZero(units, text.column, width)
    ensures !Together(text, units, width)
    decreases |units|
  {
    var next := Put(text, units[0], width);
    var first := units[..1];
    WrittenHead(text, first, width);
    assert first[1..] == [];
    assert Written(text, first, width).column == next.column;
    assert Column(first, text.column, width) == NextColumn(units[0], text.column, width);
    if !(units[0] == LINE_FEED && text.column != 0) {
      FeedAway(next, units[1..], width);
      var k :| 0 <= k <= |units| - 1
               && Written(next, units[1..][..k], width).column != Column(units[1..][..k], next.column, width);
      var longer := units[..k + 1];
      assert longer[1..] == units[1..][..k];
      WrittenHead(text, longer, width);
    }
  }

  /** "A", then a line feed alone: the ring is at column 0, the trackers are at column 1. */
  lemma FeedAlone(width: nat)
    requires width >= 2
    ensures Written(Text([EMPTY_LINE], 0), [65, LINE_FEED], width).column == 0
    ensures Column([65, LINE_FEED], 0, width) == 1
  {
    var units: seq<Unit> := [65, LINE_FEED];
    ColumnNext(units, 0, 0, width);
    ColumnNext(units, 1, 0, width);
    assert units[..0] == [] && units[..2] == units;
    assert Column([], 0, width) == 0;
  }

  // ---- what the console is given ----

  /** Text whose line feeds all follow a carriage return feeds at column 0 only, whatever the width. */
  lemma {:induction false} CrlfFeedsAtZero(units: seq<Unit>, afterCr: bool, column: nat, width: nat)
    requires ConsoleText.CrlfOnly(units, afterCr) && (afterCr ==> column == 0)
    ensures FeedsAtZero(units, column, width)
  {
    if units != [] {
      CrlfFeedsAtZero(units[1..], units[0] == RETURN, NextColumn(units[0], column, width), width);
    }
  }

  /** The row of the cursor at the bottom. */
  function BottomRow(text: Text, rows: nat): nat
    requires text.lines != [] && rows >= 1
  {
    Min(|text.lines|, rows) - 1
  }

  /** With no more rows than the ring has lines, or while it drops none, the cursor row of the view is that row. */
  lemma BottomOfRing(history: ConsoleHistory)
    requires history.Valid() && history.viewOffset == 0
    ensures |history.View()| - 1 == BottomRow(history.Content(), history.rows)
      <==> history.rows <= HISTORY_LINES || |history.all| <= HISTORY_LINES
  {
  }

  /**
   Text with CR LF line ends, as rendering produces it, at the bottom of the view: the firmware's cursor ends where the
   ring says that the cursor is, and the content scrolls by as many lines as leave the view.
   */
  lemma CursorsAgree(text: Text, units: seq<Unit>, afterCr: bool, width: nat, rows: nat, row: nat, scrolls: nat)
    requires InShape(text, width) && rows >= 1 && row == BottomRow(text, rows)
    requires ConsoleText.CrlfOnly(units, afterCr) && (afterCr ==> text.column == 0)
    requires scrolls == Less(row + Rows(units, text.column, width), rows - 1)
    ensures var (column, end) := Firmware(Wrapped(units, text.column, width), text.column, row);
      var after := Written(text, units, width);
      && column == after.column && end == BottomRow(after, rows) + scrolls
      && scrolls == Less(|after.lines|, rows) - Less(|text.lines|, rows)
  {
    var more := Rows(units, text.column, width);
    RingAndFirmware(text, units, afterCr, Written(text, units, width), width, row, more);
    ScrolledBy(|text.lines|, more, rows, row, scrolls);
  }

  lemma RingAndFirmware(text: Text, units: seq<Unit>, afterCr: bool, after: Text, width: nat, row: nat, more: nat)
    requires InShape(text, width) && (afterCr ==> text.column == 0) && ConsoleText.CrlfOnly(units, afterCr)
    requires after == Written(text, units, width) && more == Rows(units, text.column, width)
    ensures |after.lines| == |text.lines| + more
    ensures var (column, end) := Firmware(Wrapped(units, text.column, width), text.column, row);
      column == after.column && end == row + more
  {
    CrlfFeedsAtZero(units, afterCr, text.column, width);
    RingFollows(text, units, width);
    FirmwareFollows(units, text.column, row, width);
  }

  lemma ScrolledBy(lines: nat, more: nat, rows: nat, bottom: nat, scrolls: nat)
    requires lines >= 1 && rows >= 1 && bottom == Min(lines, rows) - 1 && scrolls == Less(bottom + more, rows - 1)
    ensures bottom + more == Min(lines + more, rows) - 1 + scrolls
    ensures scrolls == Less(lines + more, rows) - Less(lines, rows)
  {
  }
}
