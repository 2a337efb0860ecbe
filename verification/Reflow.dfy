/** Changing the number of columns: the reflow of TerminalBuffer.resize, on pages. */
module Reflow {
  import opened Common
  import opened WcWidth
  import opened Utf16
  import opened Row
  import RowCopy
  import P = Page
  import FastResize

  type Page = P.Page

  /** Where the output is, and where the cursor went. */
  datatype Caret = Caret(row: nat, col: nat, placed: bool, cursorRow: int, cursorCol: int)

  const START := Caret(0, 0, false, -1, -1)

  /** The output under way. For the statements below it also records the history rows that were dropped, the row the
      cursor was placed on, counted from the first row ever output, and how often the cursor did not follow a scroll. */
  datatype Output = Output(page: Page, at: Caret, evicted: seq<RowValue>, home: nat, lag: nat)

  /** All rows output so far, whether still in the buffer or not. */
  function AllRows(o: Output): seq<RowValue> {
    o.evicted + o.page.history + o.page.screen
  }

  predicate Ready(o: Output) {
    && P.Good(o.page) && o.at.row < |o.page.screen| && o.at.col <= o.page.columns && o.page.first < P.Total(o.page)
    && (o.evicted == [] || o.page.spare == [])
    && CursorOk(o)
  }

  /** The cursor is where it was placed, but for the scrolls it did not follow. */
  predicate CursorOk(o: Output) {
    if o.at.placed then
      && o.at.cursorRow < |o.page.screen| && 0 <= o.at.cursorCol < o.page.columns
      && |o.evicted| + |o.page.history| + o.at.cursorRow == o.home + o.lag
    else o.at.cursorRow == o.at.cursorCol == -1
  }

  // ----- What the source computes -----

  /** The output before the first old row is read: only blank rows. */
  function Fresh(columns: nat, rows: nat, total: nat, st: Style): (o: Output)
    requires 2 <= columns && 0 < rows <= total
    ensures Ready(o) && P.Total(o.page) == total && |o.page.screen| == rows && o.page.columns == columns
  {
    P.BlankRowIsGood(columns, st, false);
    Output(P.Page(columns, [], seq(rows, _ => BlankRow(columns, st, false)),
                  seq(total - rows, _ => Some(BlankRow(columns, st, false))), 0), START, [], 0, 0)
  }

  lemma FreshStarts(columns: nat, rows: nat, total: nat, st: Style)
    requires 2 <= columns && 0 < rows <= total
    ensures Fresh(columns, rows, total, st).at == START
  {
  }

  /** The next output row, for which the screen scrolls at its bottom. The placed cursor follows a scroll, except
      when blank rows are inserted. */
  function LineFeed(o: Output, st: Style, follow: bool): (o': Output)
    requires Ready(o)
    ensures Ready(o') && o'.at.col == 0 && Same(o, o')
  {
    if o.at.row == |o.page.screen| - 1 then
      var gone := if o.page.spare == [] then [(o.page.history + [o.page.screen[0]])[0]] else [];
      Output(P.ScrollDownOneLine(o.page, 0, |o.page.screen|, st),
             o.at.(col := 0, cursorRow := if follow && o.at.placed then o.at.cursorRow - 1 else o.at.cursorRow),
             o.evicted + gone, o.home, if follow || !o.at.placed then o.lag else o.lag + 1)
    else o.(at := o.at.(row := o.at.row + 1, col := 0))
  }

  predicate Same(o: Output, o': Output) {
    P.Total(o.page) == P.Total(o'.page) && |o.page.screen| == |o'.page.screen| && o.page.columns == o'.page.columns
  }

  function LineFeeds(o: Output, n: nat, st: Style): (o': Output)
    requires Ready(o)
    ensures Ready(o') && Same(o, o')
    decreases n
  {
    if n == 0 then o else LineFeeds(LineFeed(o, st, false), n - 1, st)
  }

  /** Goes on to the next row when `w` columns do not fit any more. */
  function WrapFor(o: Output, w: nat, st: Style): (o': Output)
    requires Ready(o) && w <= 2
    ensures Ready(o') && Same(o, o') && o'.at.col + w <= o'.page.columns
  {
    if o.at.col + w > o.page.columns then
      LineFeed(o.(page := P.SetLineWrap(o.page, o.at.row, true)), st, true)
    else o
  }

  /** Writes one code point; a combining one goes to the column before. */
  function Emit(o: Output, c: CodePoint, sty: Style): (o': Output)
    requires Ready(o) && o.at.col + Width(c) <= o.page.columns
    ensures Ready(o') && Same(o, o') && o' == o.(page := o'.page, at := o'.at)
    ensures o'.at == o.at.(col := o.at.col + Width(c))
  {
    var k := if Width(c) == 0 && o.at.col > 0 then o.at.col - 1 else o.at.col;
    o.(page := P.SetChar(o.page, k, o.at.row, c, sty), at := o.at.(col := o.at.col + Width(c)))
  }

  function PutPoint(o: Output, c: CodePoint, sty: Style, st: Style): (o': Output)
    requires Ready(o)
    ensures Ready(o') && Same(o, o') && Width(c) <= o'.at.col
  {
    Emit(WrapFor(o, Width(c), st), c, sty)
  }

  /** The old row's column and style that the next code point belongs to, and the column of the cursor if it is on
      this row. */
  datatype Source = Source(col: nat, sty: Style, cursor: Option<nat>)

  predicate Here(from: Source, c: CodePoint) {
    Width(c) > 0 && from.cursor == Some(from.col)
  }

  /** Writes a code point and places the cursor if it belongs there. */
  function Step(o: Output, c: CodePoint, from: Source, st: Style): (o': Output)
    requires Ready(o)
    ensures Ready(o') && Same(o, o')
  {
    var o1 := PutPoint(o, c, from.sty, st);
    if Here(from, c) then
      o1.(at := o1.at.(placed := true, cursorRow := o1.at.row, cursorCol := o1.at.col - Width(c)),
          home := |o1.evicted| + |o1.page.history| + o1.at.row, lag := 0)
    else o1
  }

  function Restyle(from: Source, c: CodePoint, style: seq<Style>): Source
    requires Width(c) > 0 ==> from.col < |style|
  {
    if Width(c) > 0 then from.(sty := style[from.col]) else from
  }

  function CopyPoints(o: Output, s: seq<CodePoint>, style: seq<Style>, from: Source, st: Style): (o': Output)
    requires Ready(o) && from.col + RowCopy.TotalWidth(s) <= |style|
    ensures Ready(o') && Same(o, o')
    decreases s
  {
    if s == [] then o
    else
      var from := Restyle(from, s[0], style);
      var o1 := Step(o, s[0], from, st);
      if Here(from, s[0]) then o1
      else CopyPoints(o1, s[1..], style, from.(col := from.col + Width(s[0])), st)
  }

  lemma CopyUnfold(o: Output, s: seq<CodePoint>, style: seq<Style>, from: Source, st: Style)
    requires Ready(o) && from.col + RowCopy.TotalWidth(s) <= |style| && s != []
    ensures Width(s[0]) > 0 ==> from.col < |style|
    ensures var src := Restyle(from, s[0], style);
      var next := src.(col := src.col + Width(s[0]));
      && src.col == from.col && src.cursor == from.cursor
      && next.col + RowCopy.TotalWidth(s[1..]) <= |style|
      && CopyPoints(o, s, style, from, st) ==
        if Here(src, s[0]) then Step(o, s[0], src, st) else CopyPoints(Step(o, s[0], src, st), s[1..], style, next, st)
  {
    hide Step;
  }

  lemma NothingLeft(o: Output, style: seq<Style>, from: Source, st: Style)
    requires Ready(o) && from.col <= |style|
    ensures CopyPoints(o, [], style, from, st) == o
  {
  }

  /** Without the spaces at the end. */
  function TrimRight(s: seq<CodePoint>): (t: seq<CodePoint>)
    ensures t <= s
  {
    if s == [] || s[|s| - 1] != SPACE then s else TrimRight(s[..|s| - 1])
  }

  /** The part of an old row that is copied. */
  function Taken(r: RowValue, cursor: Option<nat>): (s: seq<CodePoint>)
  {
    if cursor.Some? || r.wrap then Points(r.grid) else TrimRight(Points(r.grid))
  }

  lemma TakenFits(r: RowValue, cursor: Option<nat>, columns: nat)
    requires P.GoodRow(r, columns)
    ensures RowCopy.TotalWidth(Taken(r, cursor)) <= |r.style|
  {
    var p, t := Points(r.grid), Taken(r, cursor);
    RowCopy.WidthOfCells(r.grid);
    assert p == t + p[|t|..];
    RowCopy.TotalWidthConcat(t, p[|t|..]);
  }

  function CopyRow(o: Output, r: RowValue, cursor: Option<nat>, last: bool, columns: nat, st: Style): (o': Output)
    requires Ready(o) && P.GoodRow(r, columns)
    ensures Ready(o') && Same(o, o')
  {
    TakenFits(r, cursor, columns);
    var o1 := CopyPoints(o, Taken(r, cursor), r.style, Source(0, 0, cursor), st);
    if !last && !r.wrap then LineFeed(o1, st, true) else o1
  }

  /** The old cursor: its row counted from the oldest history row, and its column. */
  datatype Cursor = Cursor(row: nat, col: nat)

  function CursorIn(c: Cursor, i: nat): Option<nat> {
    if i == c.row then Some(c.col) else None
  }

  predicate Skipped(o: Output, r: RowValue, c: Cursor, i: nat) {
    (o.at.placed || i != c.row) && IsBlankText(Points(r.grid))
  }

  /** The loop over the old rows. Blank rows are inserted only when a row that is not blank follows. */
  function CopyRows(o: Output, rows: seq<RowValue>, i: nat, skipped: nat, c: Cursor, columns: nat,
      st: Style): (o': Output)
    requires Ready(o) && P.GoodRows(rows, columns) && i <= |rows|
    ensures Ready(o') && Same(o, o')
    decreases |rows| - i
  {
    if i == |rows| then o
    else if Skipped(o, rows[i], c, i) then CopyRows(o, rows, i + 1, skipped + 1, c, columns, st)
    else
      assert P.GoodRow(rows[i], columns);
      CopyRows(CopyRow(LineFeeds(o, skipped, st), rows[i], CursorIn(c, i), i == |rows| - 1, columns, st),
               rows, i + 1, 0, c, columns, st)
  }

  lemma NoRowLeft(o: Output, rows: seq<RowValue>, skipped: nat, c: Cursor, columns: nat, st: Style)
    requires Ready(o) && P.GoodRows(rows, columns)
    ensures CopyRows(o, rows, |rows|, skipped, c, columns, st) == o
  {
  }

  /** One turn of the loop over the old rows. */
  function NextRow(o: Output, rows: seq<RowValue>, i: nat, skipped: nat, c: Cursor, columns: nat,
      st: Style): (r: (Output, nat))
    requires Ready(o) && P.GoodRows(rows, columns) && i < |rows|
    ensures Ready(r.0) && Same(o, r.0)
    ensures CopyRows(o, rows, i, skipped, c, columns, st) == CopyRows(r.0, rows, i + 1, r.1, c, columns, st)
    ensures i != c.row ==> r.0.at.placed == o.at.placed
  {
    assert P.GoodRow(rows[i], columns);
    if Skipped(o, rows[i], c, i) then (o, skipped + 1)
    else
      var o1 := LineFeeds(o, skipped, st);
      LineFeedsPlaced(o, skipped, st);
      CopyRowPlaced(o1, rows[i], i == |rows| - 1, columns, st);
      hide LineFeeds, CopyRow, P.Good, P.GoodRow;
      (CopyRow(o1, rows[i], CursorIn(c, i), i == |rows| - 1, columns, st), 0)
  }

  /** The whole reflow. */
  function Reflowed(p: Page, newColumns: nat, newRows: nat, newTotal: nat, c: Cursor, st: Style): (o: Output)
    requires P.Good(p) && 2 <= newColumns && 0 < newRows <= newTotal
    ensures Ready(o) && P.Total(o.page) == newTotal && |o.page.screen| == newRows && o.page.columns == newColumns
  {
    CopyRows(Fresh(newColumns, newRows, newTotal, st), p.history + p.screen, 0, 0, c, p.columns, st)
  }

  /** What resize gives back: the page and the cursor, which goes to the top left when it left the screen. */
  datatype Resized = Resized(page: Page, col: int, row: int)

  function Settle(p: Page, col: int, row: int): Resized {
    if col < 0 || row < 0 then Resized(p, 0, 0) else Resized(p, col, row)
  }

  predicate CanResize(p: Page, newColumns: nat, newRows: nat, newTotal: nat, altScreen: bool) {
    && P.Good(p) && 2 <= newColumns && 0 < newRows <= newTotal
    && newTotal == (if altScreen then newRows else P.Total(p))
    && (altScreen ==> p.history == [] && p.spare == [])
  }

  /** TerminalBuffer.resize: the fast path when the columns stay and the rows fit into the ring, else the reflow. */
  function Resize(p: Page, newColumns: nat, newRows: nat, newTotal: nat, col: nat, row: nat, st: Style,
      altScreen: bool): (r: Resized)
    requires CanResize(p, newColumns, newRows, newTotal, altScreen)
    ensures P.Good(r.page) && P.Total(r.page) == newTotal && |r.page.screen| == newRows && r.page.columns == newColumns
  {
    if newColumns == p.columns && newRows <= P.Total(p) then
      var r := FastResize.Resize(p, newRows, row, st, altScreen);
      Settle(r.0, col, r.1)
    else
      var o := Reflowed(p, newColumns, newRows, newTotal, Cursor(|p.history| + row, col), st);
      Settle(o.page, o.at.cursorCol, o.at.cursorRow)
  }

  /** The cursor is on the new screen, if it was on the old one. */
  lemma ResizedCursorOnScreen(p: Page, newColumns: nat, newRows: nat, newTotal: nat, col: nat, row: nat, st: Style,
      altScreen: bool)
    requires CanResize(p, newColumns, newRows, newTotal, altScreen)
    requires (col < p.columns && row < |p.screen|) || (altScreen && col < newColumns && row < newRows)
    ensures var r := Resize(p, newColumns, newRows, newTotal, col, row, st, altScreen);
      0 <= r.col < newColumns && 0 <= r.row < newRows
  {
    hide P.Good, FastResize.Resize, Reflowed;
    if newColumns == p.columns && newRows <= P.Total(p) {
      FastCursorOnScreen(p, newRows, row, st, altScreen);
    } else {
      var o := Reflowed(p, newColumns, newRows, newTotal, Cursor(|p.history| + row, col), st);
      assert CursorOk(o);
    }
  }

  /** The first slot stays inside the ring, and the alternate screen keeps no history. */
  lemma ResizedNumbers(p: Page, newColumns: nat, newRows: nat, newTotal: nat, col: nat, row: nat, st: Style,
      altScreen: bool)
    requires CanResize(p, newColumns, newRows, newTotal, altScreen)
    ensures var r := Resize(p, newColumns, newRows, newTotal, col, row, st, altScreen);
      && (altScreen ==> r.page.history == [] && r.page.spare == [])
      && (!altScreen ==> r.page.first < P.Total(r.page))
  {
    hide P.Good;
    if newColumns == p.columns && newRows <= P.Total(p) {
      FastResize.ResizedFirst(p, newRows, row, st, altScreen);
    } else {
      var o := Reflowed(p, newColumns, newRows, newTotal, Cursor(|p.history| + row, col), st);
      assert Ready(o);
      assert altScreen ==> |o.page.history| + |o.page.spare| == 0;
    }
  }

  lemma FastCursorOnScreen(p: Page, newRows: nat, row: nat, st: Style, altScreen: bool)
    requires FastResize.CanResize(p, newRows, altScreen) && row < |p.screen|
    ensures FastResize.Resize(p, newRows, row, st, altScreen).1 < newRows
  {
    hide P.Good;
    if newRows <= |p.screen| {
      FastResize.ShrinkConserves(p, newRows, row, st);
    } else {
      FastResize.GrowConserves(p, newRows, row, st);
    }
  }

  // ----- Where the cursor is not placed -----

  lemma StepPlaced(o: Output, c: CodePoint, from: Source, st: Style)
    requires Ready(o)
    ensures Step(o, c, from, st).at.placed <==> o.at.placed || Here(from, c)
  {
    hide P.Good, P.ScrollDownOneLine, Here;
  }

  lemma {:induction false} LineFeedsPlaced(o: Output, n: nat, st: Style)
    requires Ready(o)
    ensures LineFeeds(o, n, st).at.placed == o.at.placed
    decreases n
  {
    hide P.Good, P.ScrollDownOneLine;
    if n > 0 {
      LineFeedsPlaced(LineFeed(o, st, false), n - 1, st);
    }
  }

  lemma {:induction false} CopyPointsPlaced(o: Output, s: seq<CodePoint>, style: seq<Style>, from: Source, st: Style)
    requires Ready(o) && from.col + RowCopy.TotalWidth(s) <= |style| && from.cursor.None?
    ensures CopyPoints(o, s, style, from, st).at.placed == o.at.placed
    decreases s
  {
    hide P.Good, Step;
    if s != [] {
      var src := Restyle(from, s[0], style);
      StepPlaced(o, s[0], src, st);
      CopyPointsPlaced(Step(o, s[0], src, st), s[1..], style, src.(col := src.col + Width(s[0])), st);
    }
  }

  lemma CopyRowPlaced(o: Output, r: RowValue, last: bool, columns: nat, st: Style)
    requires Ready(o) && P.GoodRow(r, columns)
    ensures CopyRow(o, r, None, last, columns, st).at.placed == o.at.placed
  {
    hide P.Good, P.ScrollDownOneLine, CopyPoints, Taken, WellFormed;
    TakenFits(r, None, columns);
    CopyPointsPlaced(o, Taken(r, None), r.style, Source(0, 0, None), st);
  }

  // ----- Trailing spaces in UTF-16 -----

  /** The text without its trailing spaces ends with the last code unit that is not a space. */
  lemma {:induction false} TrimmedUnits(s: seq<CodePoint>)
    ensures var t, u := Units(TrimRight(s)), Units(s);
      && t <= u && (forall j :: |t| <= j < |u| ==> u[j] == SPACE)
      && (t != [] ==> t[|t| - 1] != SPACE)
  {
    hide Units;
    if s == [] {
      NoUnits();
    } else {
      var n := |s| - 1;
      assert s == s[..n] + [s[n]];
      UnitsConcat(s[..n], [s[n]]);
      UnitsSingleton(s[n]);
      if s[n] == SPACE {
        TrimmedUnits(s[..n]);
      }
    }
  }
}
