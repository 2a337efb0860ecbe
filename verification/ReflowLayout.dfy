/** Which reflows leave the cursor on its character. The source moves the cursor with the screen when a character or a
    line end scrolls it, but not when an inserted blank row does. How far down the inserted blank rows reach can be told
    from the old rows and the new number of columns alone. */
module ReflowLayout {
  import opened Common
  import opened WcWidth
  import opened Utf16
  import opened Row
  import RowCopy
  import P = Page
  import opened Reflow
  import opened ReflowText
  import opened ReflowCursor
  import FastResize

  // ----- The layout of the output -----

  /** The row and column that the output has reached, with rows counted from the first one ever output; whether the
      cursor has been placed, and on which row; and the lowest row reached by a blank row inserted after that. */
  datatype Spot = Spot(row: nat, col: nat, placed: bool, home: nat, deepest: nat)

  const TOP := Spot(0, 0, false, 0, 0)

  /** `w` columns on this row or, if they do not fit any more, on the next. */
  function LayPoint(at: Spot, w: nat, columns: nat): Spot {
    if at.col + w > columns then at.(row := at.row + 1, col := w) else at.(col := at.col + w)
  }

  function LayPoints(at: Spot, s: seq<CodePoint>, col: nat, cursor: Option<nat>, columns: nat): Spot
    decreases s
  {
    if s == [] then at
    else
      var next := LayPoint(at, Width(s[0]), columns);
      if Width(s[0]) > 0 && cursor == Some(col) then next.(placed := true, home := next.row, deepest := 0)
      else LayPoints(next, s[1..], col + Width(s[0]), cursor, columns)
  }

  function NextLine(at: Spot): Spot {
    at.(row := at.row + 1, col := 0)
  }

  function LayRow(at: Spot, r: RowValue, cursor: Option<nat>, last: bool, columns: nat): Spot {
    var next := LayPoints(at, Taken(r, cursor), 0, cursor, columns);
    if !last && !r.wrap then NextLine(next) else next
  }

  /** `n` blank rows are inserted. */
  function LayBlanks(at: Spot, n: nat): Spot {
    if n == 0 then at
    else at.(row := at.row + n, col := 0, deepest := if at.placed then at.row + n else at.deepest)
  }

  /** A blank row is inserted only when a row that is not blank follows it; the cursor's own row is never skipped. */
  function LayRows(at: Spot, rows: seq<RowValue>, i: nat, skipped: nat, c: Cursor, columns: nat): Spot
    requires i <= |rows|
    decreases |rows| - i
  {
    if i == |rows| then at
    else if (at.placed || i != c.row) && IsBlankText(Points(rows[i].grid)) then
      LayRows(at, rows, i + 1, skipped + 1, c, columns)
    else
      LayRows(LayRow(LayBlanks(at, skipped), rows[i], CursorIn(c, i), i == |rows| - 1, columns),
              rows, i + 1, 0, c, columns)
  }

  function Layout(rows: seq<RowValue>, c: Cursor, columns: nat): Spot {
    LayRows(TOP, rows, 0, 0, c, columns)
  }

  /** The lowest row that a blank row inserted after the cursor is output on, or 0. */
  function DeepestBlank(rows: seq<RowValue>, c: Cursor, columns: nat): nat {
    Layout(rows, c, columns).deepest
  }

  // ----- The reflow follows the layout -----

  predicate Agrees(o: Output, at: Spot) {
    && RowsBefore(o) == at.row && o.at.col == at.col && o.at.placed == at.placed
    && (at.placed ==> o.home == at.home)
    && at.deepest <= at.row && (o.lag == 0 <==> at.deepest < |o.page.screen|)
    && (|o.evicted| + |o.page.history| > 0 ==> o.at.row == |o.page.screen| - 1)
  }

  lemma FreshAgrees(columns: nat, rows: nat, total: nat, st: Style)
    requires 2 <= columns && 0 < rows <= total
    ensures Agrees(Fresh(columns, rows, total, st), TOP)
  {
  }

  lemma FollowedAgrees(o: Output, at: Spot, st: Style)
    requires Ready(o) && Agrees(o, at)
    ensures Agrees(LineFeed(o, st, true), NextLine(at))
  {
    hide P.Good;
  }

  lemma BlankAgrees(o: Output, at: Spot, st: Style)
    requires Ready(o) && Agrees(o, at)
    ensures Agrees(LineFeed(o, st, false), LayBlanks(at, 1))
  {
    hide P.Good;
  }

  lemma {:induction false} BlanksAgree(o: Output, at: Spot, n: nat, st: Style)
    requires Ready(o) && Agrees(o, at)
    ensures Agrees(LineFeeds(o, n, st), LayBlanks(at, n))
    decreases n
  {
    hide LineFeed, Agrees, Ready;
    if n > 0 {
      BlankAgrees(o, at, st);
      BlanksAgree(LineFeed(o, st, false), LayBlanks(at, 1), n - 1, st);
      assert LayBlanks(LayBlanks(at, 1), n - 1) == LayBlanks(at, n);
    }
  }

  lemma StepAgrees(o: Output, at: Spot, c: CodePoint, from: Source, st: Style)
    requires Ready(o) && Agrees(o, at)
    ensures var next := LayPoint(at, Width(c), o.page.columns);
      Agrees(Step(o, c, from, st),
             if Here(from, c) then next.(placed := true, home := next.row, deepest := 0) else next)
  {
    hide P.Good, LineFeed, Width, Put;
    WrapAgrees(o, at, Width(c), st);
    var o1 := WrapFor(o, Width(c), st);
    assert PutPoint(o, c, from.sty, st) == Emit(o1, c, from.sty);
  }

  lemma WrapAgrees(o: Output, at: Spot, w: nat, st: Style)
    requires Ready(o) && Agrees(o, at) && w <= 2
    ensures Agrees(WrapFor(o, w, st), if at.col + w > o.page.columns then NextLine(at) else at)
  {
    hide P.Good, LineFeed;
    if at.col + w > o.page.columns {
      FollowedAgrees(o.(page := P.SetLineWrap(o.page, o.at.row, true)), at, st);
    }
  }

  lemma {:induction false} PointsAgree(o: Output, at: Spot, s: seq<CodePoint>, style: seq<Style>, from: Source,
      st: Style)
    requires Ready(o) && from.col + RowCopy.TotalWidth(s) <= |style| && Agrees(o, at)
    ensures Agrees(CopyPoints(o, s, style, from, st), LayPoints(at, s, from.col, from.cursor, o.page.columns))
    decreases s
  {
    hide P.Good, Step, Ready, CopyPoints, Restyle, Agrees, LayPoint, Width;
    if s != [] {
      var c, src := s[0], Restyle(from, s[0], style);
      CopyUnfold(o, s, style, from, st);
      StepAgrees(o, at, c, src, st);
      if !Here(src, c) {
        PointsAgree(Step(o, c, src, st), LayPoint(at, Width(c), o.page.columns), s[1..], style,
                    src.(col := src.col + Width(c)), st);
      }
    } else {
      NothingCopied(o, style, from, st);
    }
  }

  lemma RowAgrees(o: Output, at: Spot, r: RowValue, cursor: Option<nat>, last: bool, columns: nat, st: Style)
    requires Ready(o) && P.GoodRow(r, columns) && Agrees(o, at)
    ensures Agrees(CopyRow(o, r, cursor, last, columns, st), LayRow(at, r, cursor, last, o.page.columns))
  {
    hide P.Good, CopyPoints, LayPoints, Taken, WellFormed, LineFeed, Agrees, NextLine;
    TakenFits(r, cursor, columns);
    var from := Source(0, 0, cursor);
    PointsAgree(o, at, Taken(r, cursor), r.style, from, st);
    FollowedAgrees(CopyPoints(o, Taken(r, cursor), r.style, from, st),
                   LayPoints(at, Taken(r, cursor), 0, cursor, o.page.columns), st);
  }

  lemma {:induction false} RowsAgree(
    o: Output, at: Spot, rows: seq<RowValue>, i: nat, skipped: nat, c: Cursor, columns: nat, st: Style)
    requires Ready(o) && P.GoodRows(rows, columns) && i <= |rows| && Agrees(o, at)
    ensures Agrees(CopyRows(o, rows, i, skipped, c, columns, st), LayRows(at, rows, i, skipped, c, o.page.columns))
    decreases |rows| - i
  {
    hide P.Good, Ready, CopyRow, LayRow, LineFeeds, LayBlanks, P.GoodRow, IsBlankText, Points, Agrees, LineFeed;
    SamePlaced(o, at);
    if i < |rows| {
      assert P.GoodRow(rows[i], columns);
      if Skipped(o, rows[i], c, i) {
        RowsAgree(o, at, rows, i + 1, skipped + 1, c, columns, st);
      } else {
        var o1, at1, cursor, last := LineFeeds(o, skipped, st), LayBlanks(at, skipped), CursorIn(c, i), i == |rows| - 1;
        BlanksAgree(o, at, skipped, st);
        RowAgrees(o1, at1, rows[i], cursor, last, columns, st);
        RowsAgree(CopyRow(o1, rows[i], cursor, last, columns, st), LayRow(at1, rows[i], cursor, last, o.page.columns),
                  rows, i + 1, 0, c, columns, st);
      }
    }
  }

  lemma SamePlaced(o: Output, at: Spot)
    requires Agrees(o, at)
    ensures o.at.placed == at.placed
  {
  }

  // ----- When the cursor stays on its character -----

  /** The cursor is on the row of its character; that row is off the screen when the cursor row is negative. */
  predicate OnItsRow(o: Output) {
    o.at.placed && |o.evicted| + |o.page.history| + o.at.cursorRow == o.home
  }

  /** A reflow leaves the cursor on the row of its character exactly when every blank row inserted after the cursor is
      output above the bottom of the new screen, had that no need to scroll. */
  lemma CursorStaysExactly(p: Page, newColumns: nat, newRows: nat, newTotal: nat, c: Cursor, st: Style)
    requires P.Good(p) && 2 <= newColumns && 0 < newRows <= newTotal && CursorBase(p.history + p.screen, c).Some?
    ensures var o := Reflowed(p, newColumns, newRows, newTotal, c, st);
      OnItsRow(o) <==> DeepestBlank(p.history + p.screen, c, newColumns) < newRows
  {
    assert P.GoodRows(p.history + p.screen, p.columns);
    ReflowKeepsCursor(p, newColumns, newRows, newTotal, c, st);
    ReflowAgrees(p, newColumns, newRows, newTotal, c, st);
    hide P.Good, Reflowed, Layout, CursorBase, ShowsAt;
  }

  lemma ReflowAgrees(p: Page, newColumns: nat, newRows: nat, newTotal: nat, c: Cursor, st: Style)
    requires P.Good(p) && 2 <= newColumns && 0 < newRows <= newTotal
    ensures Agrees(Reflowed(p, newColumns, newRows, newTotal, c, st), Layout(p.history + p.screen, c, newColumns))
  {
    assert P.GoodRows(p.history + p.screen, p.columns);
    hide P.Good, P.GoodRows, CopyRows, LayRows, Agrees, Fresh;
    FreshAgrees(newColumns, newRows, newTotal, st);
    RowsAgree(Fresh(newColumns, newRows, newTotal, st), TOP, p.history + p.screen, 0, 0, c, p.columns, st);
  }

  /** Then it is on the character itself, unless that has left the screen. */
  lemma CursorStaysOnCharacter(p: Page, newColumns: nat, newRows: nat, newTotal: nat, c: Cursor, st: Style)
    requires P.Good(p) && 2 <= newColumns && 0 < newRows <= newTotal && CursorBase(p.history + p.screen, c).Some?
    requires DeepestBlank(p.history + p.screen, c, newColumns) < newRows
    ensures var o := Reflowed(p, newColumns, newRows, newTotal, c, st);
      0 <= o.at.cursorRow ==>
        ShowsAt(o.page.screen, o.at.cursorRow, o.at.cursorCol, CursorBase(p.history + p.screen, c).value)
  {
    ReflowKeepsCursor(p, newColumns, newRows, newTotal, c, st);
    CursorStaysExactly(p, newColumns, newRows, newTotal, c, st);
    hide P.Good, Reflowed, Layout, CursorBase, ShowsAt;
  }

  /** No blank row below the cursor is followed by a row that is not blank. */
  predicate BlankOnlyAtEnd(rows: seq<RowValue>, c: Cursor) {
    forall i, j :: c.row < i < j < |rows| && FastResize.IsBlankRow(rows[i]) ==> FastResize.IsBlankRow(rows[j])
  }

  lemma {:induction false} NothingInserted(at: Spot, rows: seq<RowValue>, i: nat, skipped: nat, c: Cursor, columns: nat)
    requires i <= |rows| && at.deepest == 0 && BlankOnlyAtEnd(rows, c) && (i <= c.row ==> !at.placed)
    requires c.row < i && at.placed && 0 < skipped ==> c.row < i - 1 && FastResize.IsBlankRow(rows[i - 1])
    ensures LayRows(at, rows, i, skipped, c, columns).deepest == 0
    decreases |rows| - i
  {
    hide IsBlankText, Points, LayPoints;
    if i < |rows| {
      if (at.placed || i != c.row) && IsBlankText(Points(rows[i].grid)) {
        NothingInserted(at, rows, i + 1, skipped + 1, c, columns);
      } else {
        var at1, last := LayBlanks(at, skipped), i == |rows| - 1;
        PointsInsertNothing(at1, Taken(rows[i], CursorIn(c, i)), 0, CursorIn(c, i), columns);
        NothingInserted(LayRow(at1, rows[i], CursorIn(c, i), last, columns), rows, i + 1, 0, c, columns);
      }
    }
  }

  /** Blank rows at the end are never inserted, so the cursor stays whatever the new size. */
  lemma BlankAtEndStays(rows: seq<RowValue>, c: Cursor, columns: nat)
    requires BlankOnlyAtEnd(rows, c)
    ensures DeepestBlank(rows, c, columns) == 0
  {
    NothingInserted(TOP, rows, 0, 0, c, columns);
  }

  lemma {:induction false} PointsInsertNothing(at: Spot, s: seq<CodePoint>, col: nat, cursor: Option<nat>, columns: nat)
    requires at.deepest == 0
    ensures var next := LayPoints(at, s, col, cursor, columns);
      next.deepest == 0 && (cursor.None? ==> next.placed == at.placed)
    decreases s
  {
    hide Width;
    if s != [] && !(Width(s[0]) > 0 && cursor == Some(col)) {
      PointsInsertNothing(LayPoint(at, Width(s[0]), columns), s[1..], col + Width(s[0]), cursor, columns);
    }
  }

  // ----- A reflow that leaves the cursor behind -----

  /** A row of three columns with one character. */
  function Line(c: CodePoint): RowValue {
    RowValue([Cell(c, []), BLANK, BLANK], [0, 0, 0], false)
  }

  lemma LinePoints(c: CodePoint)
    requires 32 <= c <= 126
    ensures Points(Line(c).grid) == [c, SPACE, SPACE] && P.GoodRow(Line(c), 3) && Width(c) == 1
    ensures IsBlankText(Points(Line(c).grid)) <==> c == SPACE
  {
    LatinIsNarrow(SPACE);
    LatinIsNarrow(c);
    var g := Line(c).grid;
    assert g[1..] == [BLANK, BLANK] && g[1..][1..] == [BLANK] && g[1..][1..][1..] == [];
    assert Points([BLANK]) == [SPACE] && Points([BLANK, BLANK]) == [SPACE, SPACE];
    assert Points(g)[0] == c;
  }

  lemma LineTrimmed(c: CodePoint)
    requires c != SPACE
    ensures TrimRight([c, SPACE, SPACE]) == [c]
  {
    var s := [c, SPACE, SPACE];
    assert s[..2] == [c, SPACE] && s[..2][..1] == [c];
    assert TrimRight([c]) == [c] && TrimRight([c, SPACE]) == [c];
  }

  lemma LayLine(at: Spot, c: CodePoint, last: bool)
    requires 32 < c <= 126 && at.col == 0
    ensures LayRow(at, Line(c), None, last, 4) == if last then at.(col := 1) else NextLine(at)
  {
    LinePoints(c);
    LineTrimmed(c);
    hide Points, TrimRight, Width;
    assert [c][1..] == [];
    assert LayPoints(at.(col := 1), [], 1, None, 4) == at.(col := 1);
  }

  lemma LayCursorLine(at: Spot, c: CodePoint)
    requires 32 < c <= 126 && at.col == 0
    ensures LayRow(at, Line(c), Some(0), false, 4) == Spot(at.row + 1, 0, true, at.row, 0)
  {
    LinePoints(c);
    hide Points, TrimRight, Width;
  }

  /** "x", "a" with the cursor on it, a blank row and "b", all of three columns. */
  function Behind(): Page {
    P.Page(3, [], [Line(120), Line(97), Line(SPACE), Line(98)], [], 0)
  }

  lemma BehindRows()
    ensures P.Good(Behind()) && Behind().history + Behind().screen == Behind().screen
    ensures CursorBase(Behind().screen, Cursor(1, 0)) == Some(97 as CodePoint)
  {
    LinePoints(120);
    LinePoints(97);
    LinePoints(SPACE);
    LinePoints(98);
    hide Points, TrimRight, P.GoodRow;
  }

  /** A turn of the loop for a row that is not blank. */
  lemma LayNext(at: Spot, rows: seq<RowValue>, i: nat, skipped: nat, c: Cursor, next: Spot)
    requires i < |rows| && (!IsBlankText(Points(rows[i].grid)) || (!at.placed && i == c.row))
    requires next == LayRow(LayBlanks(at, skipped), rows[i], CursorIn(c, i), i == |rows| - 1, 4)
    ensures LayRows(at, rows, i, skipped, c, 4) == LayRows(next, rows, i + 1, 0, c, 4)
  {
    hide Points, LayRow, IsBlankText, LayBlanks;
  }

  lemma LayBehind()
    ensures Layout(Behind().screen, Cursor(1, 0), 4) == Spot(3, 1, true, 1, 3)
  {
    hide LayRow, LayRows, Line;
    LayTop(Behind().screen, Cursor(1, 0));
    LayBottom(Behind().screen, Cursor(1, 0));
  }

  lemma LayTop(rows: seq<RowValue>, c: Cursor)
    requires |rows| == 4 && rows[0] == Line(120) && rows[1] == Line(97) && c == Cursor(1, 0)
    ensures LayRows(TOP, rows, 0, 0, c, 4) == LayRows(Spot(2, 0, true, 1, 0), rows, 2, 0, c, 4)
  {
    LinePoints(120);
    LayLine(TOP, 120, false);
    LayCursorLine(NextLine(TOP), 97);
    hide Points, LayRow, IsBlankText, Width, TrimRight, LayRows, Line;
    LayNext(TOP, rows, 0, 0, c, NextLine(TOP));
    LayNext(NextLine(TOP), rows, 1, 0, c, Spot(2, 0, true, 1, 0));
  }

  lemma LayBottom(rows: seq<RowValue>, c: Cursor)
    requires |rows| == 4 && rows[2] == Line(SPACE) && rows[3] == Line(98) && c == Cursor(1, 0)
    ensures LayRows(Spot(2, 0, true, 1, 0), rows, 2, 0, c, 4) == Spot(3, 1, true, 1, 3)
  {
    var at2, at3 := Spot(2, 0, true, 1, 0), Spot(3, 0, true, 1, 3);
    LinePoints(SPACE);
    LinePoints(98);
    LayLine(at3, 98, true);
    hide Points, LayRow, IsBlankText, Width, TrimRight, LayRows, Line;
    LaySkip(at2, rows, 2, 0, c);
    LayNext(at2, rows, 3, 1, c, at3.(col := 1));
    LayEnd(at3.(col := 1), rows, c);
  }

  lemma LaySkip(at: Spot, rows: seq<RowValue>, i: nat, skipped: nat, c: Cursor)
    requires i < |rows| && at.placed && IsBlankText(Points(rows[i].grid))
    ensures LayRows(at, rows, i, skipped, c, 4) == LayRows(at, rows, i + 1, skipped + 1, c, 4)
  {
    hide Points, LayRow, IsBlankText;
  }

  lemma LayEnd(at: Spot, rows: seq<RowValue>, c: Cursor)
    ensures LayRows(at, rows, |rows|, 0, c, 4) == at
  {
  }

  /** Reflowed to four columns and three rows, "a" ends on the top row of the screen, but the cursor below it. */
  lemma CursorLeftBehind(st: Style)
    ensures P.Good(Behind()) && var o := Reflowed(Behind(), 4, 3, 4, Cursor(1, 0), st);
      && o.at.placed && ShowsAt(o.page.screen, 0, o.at.cursorCol, 97) && 0 < o.at.cursorRow
  {
    var p, c := Behind(), Cursor(1, 0);
    BehindRows();
    LayBehind();
    ReflowAgrees(p, 4, 3, 4, c, st);
    ReflowKeepsCursor(p, 4, 3, 4, c, st);
    hide P.Good, Reflowed, Layout, CursorBase, Behind;
    var o := Reflowed(p, 4, 3, 4, c, st);
    assert |o.evicted| + |o.page.history| == 1 && o.home == 1;
    assert (o.evicted + o.page.history + o.page.screen)[1] == o.page.screen[0];
  }
}
