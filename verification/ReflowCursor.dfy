/** Where a reflow leaves the cursor: on the character it was on. */
module ReflowCursor {
  import opened Common
  import opened WcWidth
  import opened Utf16
  import opened Row
  import RowCopy
  import P = Page
  import opened Reflow
  import opened ReflowText
  import FastResize

  ghost predicate ShowsAt(rows: seq<RowValue>, i: nat, k: int, b: CodePoint) {
    i < |rows| && 0 <= k < |rows[i].grid| && rows[i].grid[k].Cell? && rows[i].grid[k].base == b
  }

  /** How many rows lie before the output row. */
  function RowsBefore(o: Output): nat {
    |o.evicted| + |o.page.history| + o.at.row
  }

  /** The row the cursor was placed on shows `b` there, and the output is past it. */
  ghost predicate Seen(o: Output, b: CodePoint) {
    && o.at.placed
    && ShowsAt(AllRows(o), o.home, o.at.cursorCol, b)
    && o.home <= RowsBefore(o) && (o.home == RowsBefore(o) ==> o.at.cursorCol + Width(b) <= o.at.col)
    && 0 < Width(b)
  }

  lemma ScrollAppends(o: Output, st: Style, follow: bool)
    requires Ready(o) && o.at.row == |o.page.screen| - 1
    ensures var o' := LineFeed(o, st, follow); AllRows(o') == AllRows(o) + [o'.page.screen[o.at.row]]
  {
    hide P.Good, BlankRow;
  }

  lemma LineFeedSees(o: Output, st: Style, follow: bool, b: CodePoint)
    requires Ready(o) && Seen(o, b)
    ensures Seen(LineFeed(o, st, follow), b)
  {
    hide P.Good, BlankRow, Width;
    var o' := LineFeed(o, st, follow);
    if o.at.row == |o.page.screen| - 1 {
      ScrollAppends(o, st, follow);
      assert RowsBefore(o') == RowsBefore(o) + 1;
    }
  }

  lemma {:induction false} LineFeedsSee(o: Output, n: nat, st: Style, b: CodePoint)
    requires Ready(o) && Seen(o, b)
    ensures Seen(LineFeeds(o, n, st), b)
    decreases n
  {
    hide P.Good, LineFeed, Seen;
    if n > 0 {
      LineFeedSees(o, st, false, b);
      LineFeedsSee(LineFeed(o, st, false), n - 1, st, b);
    }
  }

  /** Changing the output row without touching the cell under the cursor. */
  lemma EditSees(o: Output, o': Output, b: CodePoint)
    requires Ready(o) && Seen(o, b) && o'.at.row == o.at.row && o.at.col <= o'.at.col
    requires o'.at.placed && o'.at.cursorCol == o.at.cursorCol && o'.home == o.home
    requires |o'.page.screen| == |o.page.screen| && o' == o.(page := o.page.(screen := o'.page.screen), at := o'.at)
    requires forall i :: 0 <= i < |o.page.screen| && i != o.at.row ==> o'.page.screen[i] == o.page.screen[i]
    requires var g, g' := o.page.screen[o.at.row].grid, o'.page.screen[o.at.row].grid;
      |g'| == |g| && forall k :: 0 <= k < |g| && k < o.at.col && g[k].Cell? ==> g'[k].Cell? && g'[k].base == g[k].base
    ensures Seen(o', b)
  {
    hide P.Good, Width;
    var n := |o.evicted| + |o.page.history|;
    forall i | 0 <= i < |AllRows(o)| && i != RowsBefore(o) ensures AllRows(o')[i] == AllRows(o)[i] {
    }
    assert AllRows(o)[RowsBefore(o)] == o.page.screen[o.at.row];
    assert AllRows(o')[RowsBefore(o)] == o'.page.screen[o.at.row];
  }

  lemma WrapSees(o: Output, w: nat, st: Style, b: CodePoint)
    requires Ready(o) && Seen(o, b) && w <= 2
    ensures Seen(WrapFor(o, w, st), b)
  {
    hide P.Good, LineFeed, Seen;
    assert o.at.placed by { SeenPlaced(o, b); }
    if o.at.col + w > o.page.columns {
      var o1 := o.(page := P.SetLineWrap(o.page, o.at.row, true));
      EditSees(o, o1, b);
      LineFeedSees(o1, st, true, b);
    }
  }

  lemma SeenPlaced(o: Output, b: CodePoint)
    requires Seen(o, b)
    ensures o.at.placed && o.at.cursorCol >= 0
  {
  }

  /** A write at the output column leaves the bases before it alone. */
  lemma PlaceKeepsBases(g: Grid, col: nat, c: CodePoint, k: nat)
    requires WellFormed(g) && col + Width(c) <= |g| && (0 < Width(c) || 0 < col) && BlankFrom(g, col)
    requires k < |g| && k < col && g[k].Cell?
    ensures var g' := Place(g, Column(col, c), c); |g'| == |g| && g'[k].Cell? && g'[k].base == g[k].base
  {
    LatinIsNarrow(SPACE);
    hide WellFormed;
  }

  lemma EmitSees(o: Output, c: CodePoint, sty: Style, b: CodePoint)
    requires Tidy(o) && Seen(o, b) && o.at.col + Width(c) <= o.page.columns && (0 < Width(c) || 0 < o.at.col)
    ensures Seen(Emit(o, c, sty), b)
  {
    SeenPlaced(o, b);
    assert P.GoodRow(o.page.screen[o.at.row], o.page.columns);
    hide P.Good, Seen, Place, PlaceStyle, WellFormed, BlankFrom;
    var g := o.page.screen[o.at.row].grid;
    forall k | 0 <= k < |g| && k < o.at.col && g[k].Cell?
      ensures var g' := Place(g, Column(o.at.col, c), c); |g'| == |g| && g'[k].Cell? && g'[k].base == g[k].base
    {
      PlaceKeepsBases(g, o.at.col, c, k);
    }
    RowAppends(g, o.at.col, c);
    EditSees(o, Emit(o, c, sty), b);
  }

  lemma StepSees(o: Output, c: CodePoint, from: Source, st: Style, b: CodePoint)
    requires Tidy(o) && Seen(o, b) && (0 < Width(c) || 0 < o.at.col) && !Here(from, c)
    ensures Seen(Step(o, c, from, st), b)
  {
    hide P.Good, Seen, Emit, LineFeed, BlankFrom, InkOf;
    WrapSees(o, Width(c), st, b);
    WrapKeeps(o, Width(c), st);
    EmitSees(WrapFor(o, Width(c), st), c, from.sty, b);
  }

  /** When the cursor is placed it is on the character just written. */
  lemma StepPlaces(o: Output, c: CodePoint, from: Source, st: Style)
    requires Ready(o) && Here(from, c)
    ensures Seen(Step(o, c, from, st), c) && Step(o, c, from, st).lag == 0
  {
    hide P.Good, LineFeed, WellFormed;
    var o1 := WrapFor(o, Width(c), st);
    var o2 := Emit(o1, c, from.sty);
    EmitShows(o1, c, from.sty);
    assert PutPoint(o, c, from.sty, st) == o2;
    var o3 := Step(o, c, from, st);
    assert o3.home == RowsBefore(o2);
    assert AllRows(o3)[o3.home] == o2.page.screen[o2.at.row];
  }

  lemma EmitShows(o: Output, c: CodePoint, sty: Style)
    requires Ready(o) && o.at.col + Width(c) <= o.page.columns && 0 < Width(c)
    ensures var g := Emit(o, c, sty).page.screen[o.at.row].grid;
      o.at.col < |g| && g[o.at.col].Cell? && g[o.at.col].base == c
  {
    assert P.GoodRow(o.page.screen[o.at.row], o.page.columns);
    hide P.Good, WellFormed;
  }

  lemma StepLeavesUnplaced(o: Output, c: CodePoint, from: Source, st: Style)
    requires Ready(o) && !o.at.placed && !Here(from, c)
    ensures !Step(o, c, from, st).at.placed
  {
    hide P.Good, Emit, P.ScrollDownOneLine;
  }

  /** What a list of code points does to a cursor that is not placed yet: it is placed on the target, if any. */
  ghost predicate Outcome(o: Output, t: Option<CodePoint>) {
    match t
    case None => !o.at.placed
    case Some(b) => Seen(o, b)
  }

  lemma {:induction false} CopyPointsPlaces(o: Output, s: seq<CodePoint>, style: seq<Style>, from: Source, st: Style)
    requires Tidy(o) && from.col + RowCopy.TotalWidth(s) <= |style| && !o.at.placed
    requires s == [] || 0 < Width(s[0]) || 0 < o.at.col
    ensures Outcome(CopyPoints(o, s, style, from, st), Target(s, from.col, from.cursor))
    decreases s
  {
    hide P.Good, InkOf, Tidy, Step, Ready, Target, CopyPoints, Here, Restyle, Ink, OutInk, Seen;
    TidyIsReady(o);
    if s != [] {
      var c, src := s[0], Restyle(from, s[0], style);
      CopyUnfold(o, s, style, from, st);
      TargetUnfold(s, src, from);
      StepAppends(o, c, src, st);
      if Here(src, c) {
        StepPlaces(o, c, src, st);
      } else {
        StepColumn(o, c, src, st);
        StepLeavesUnplaced(o, c, src, st);
        CopyPointsPlaces(Step(o, c, src, st), s[1..], style, src.(col := src.col + Width(c)), st);
      }
    } else {
      NothingCopied(o, style, from, st);
      NothingKept(from.col, from.cursor);
    }
  }

  lemma {:induction false} TargetUnfold(s: seq<CodePoint>, src: Source, from: Source)
    requires s != [] && src.col == from.col && src.cursor == from.cursor
    ensures Target(s, from.col, from.cursor) ==
      if Here(src, s[0]) then Some(s[0]) else Target(s[1..], src.col + Width(s[0]), src.cursor)
  {
    hide Width;
  }

  lemma {:induction false} CopyPointsSees(o: Output, s: seq<CodePoint>, style: seq<Style>, from: Source, st: Style,
      b: CodePoint)
    requires Tidy(o) && from.col + RowCopy.TotalWidth(s) <= |style| && Seen(o, b) && from.cursor.None?
    requires s == [] || 0 < Width(s[0]) || 0 < o.at.col
    ensures Seen(CopyPoints(o, s, style, from, st), b)
    decreases s
  {
    hide P.Good, InkOf, Tidy, Step, Ready, CopyPoints, Restyle, Ink, OutInk, Seen;
    TidyIsReady(o);
    if s != [] {
      var c, src := s[0], Restyle(from, s[0], style);
      CopyUnfold(o, s, style, from, st);
      StepAppends(o, c, src, st);
      StepColumn(o, c, src, st);
      StepSees(o, c, src, st, b);
      CopyPointsSees(Step(o, c, src, st), s[1..], style, src.(col := src.col + Width(c)), st, b);
    } else {
      NothingCopied(o, style, from, st);
    }
  }

  lemma {:induction false} NoTarget(s: seq<CodePoint>, col: nat)
    ensures Target(s, col, None) == None
  {
    if s != [] {
      NoTarget(s[1..], col + Width(s[0]));
    }
  }

  lemma LineFeedOutcome(o: Output, st: Style, t: Option<CodePoint>)
    requires Ready(o) && Outcome(o, t)
    ensures Outcome(LineFeed(o, st, true), t)
  {
    hide P.Good, Seen, P.ScrollDownOneLine;
    match t
    case None =>
    case Some(b) => LineFeedSees(o, st, true, b);
  }

  lemma CopyRowPlaces(o: Output, r: RowValue, cursor: Option<nat>, last: bool, columns: nat, st: Style)
    requires Tidy(o) && P.GoodRow(r, columns) && !o.at.placed
    ensures Outcome(CopyRow(o, r, cursor, last, columns, st), Target(Points(r.grid), 0, cursor))
  {
    hide P.Good, InkOf, Tidy, Ready, CopyPoints, LineFeed, Taken, WellFormed, Target, Outcome;
    TidyIsReady(o);
    TakenFits(r, cursor, columns);
    RowStartsWithBase(r, columns, cursor);
    CopyPointsPlaces(o, Taken(r, cursor), r.style, Source(0, 0, cursor), st);
    TakenTarget(r, cursor);
    LineFeedOutcome(CopyPoints(o, Taken(r, cursor), r.style, Source(0, 0, cursor), st), st,
        Target(Points(r.grid), 0, cursor));
  }

  lemma TakenTarget(r: RowValue, cursor: Option<nat>)
    ensures Target(Taken(r, cursor), 0, cursor) == Target(Points(r.grid), 0, cursor)
  {
    if cursor.None? {
      NoTarget(Taken(r, cursor), 0);
      NoTarget(Points(r.grid), 0);
    }
  }

  lemma CopyRowSees(o: Output, r: RowValue, last: bool, columns: nat, st: Style, b: CodePoint)
    requires Tidy(o) && P.GoodRow(r, columns) && Seen(o, b)
    ensures Seen(CopyRow(o, r, None, last, columns, st), b)
  {
    hide P.Good, InkOf, Tidy, Ready, CopyPoints, LineFeed, Taken, WellFormed, Seen;
    TidyIsReady(o);
    TakenFits(r, None, columns);
    RowStartsWithBase(r, columns, None);
    CopyPointsSees(o, Taken(r, None), r.style, Source(0, 0, None), st, b);
    LineFeedSees(CopyPoints(o, Taken(r, None), r.style, Source(0, 0, None), st), st, true, b);
  }

  lemma {:induction false} CopyRowsSees(
    o: Output, rows: seq<RowValue>, i: nat, skipped: nat, c: Cursor, columns: nat, st: Style, b: CodePoint)
    requires Tidy(o) && P.GoodRows(rows, columns) && c.row < i <= |rows| && Seen(o, b)
    ensures Seen(CopyRows(o, rows, i, skipped, c, columns, st), b)
    decreases |rows| - i
  {
    hide P.Good, InkOf, Tidy, Ready, CopyRow, LineFeeds, P.GoodRow, Skipped, Seen;
    TidyIsReady(o);
    if i < |rows| {
      assert P.GoodRow(rows[i], columns);
      if Skipped(o, rows[i], c, i) {
        CopyRowsSees(o, rows, i + 1, skipped + 1, c, columns, st, b);
      } else {
        LineFeedsKeep(o, skipped, st);
        LineFeedsSee(o, skipped, st, b);
        var o1 := LineFeeds(o, skipped, st);
        CopyRowAppends(o1, rows[i], None, i == |rows| - 1, columns, st);
        CopyRowSees(o1, rows[i], i == |rows| - 1, columns, st, b);
        CopyRowsSees(CopyRow(o1, rows[i], None, i == |rows| - 1, columns, st), rows, i + 1, 0, c, columns, st, b);
      }
    }
  }

  /** The base under the old cursor, if its column starts a cell. */
  function CursorBase(rows: seq<RowValue>, c: Cursor): Option<CodePoint> {
    if c.row < |rows| && c.col < |rows[c.row].grid| && rows[c.row].grid[c.col].Cell?
      then Some(rows[c.row].grid[c.col].base)
    else None
  }

  lemma {:induction false} LineFeedsUnplaced(o: Output, n: nat, st: Style)
    requires Ready(o) && !o.at.placed
    ensures !LineFeeds(o, n, st).at.placed
    decreases n
  {
    hide P.Good, P.ScrollDownOneLine;
    if n > 0 {
      LineFeedsUnplaced(LineFeed(o, st, false), n - 1, st);
    }
  }

  lemma RowTarget(r: RowValue, columns: nat, k: nat)
    requires P.GoodRow(r, columns)
    ensures Target(Points(r.grid), 0, Some(k)) ==
      if k < |r.grid| && r.grid[k].Cell? then Some(r.grid[k].base) else None
  {
    var g := r.grid;
    hide Points, Target;
    assert g[0..] == g;
    assert g != [] ==> SlotOk(g, 0);
    if k < |g| && g[k].Cell? {
      KeptToCell(g, 0, k);
    } else {
      KeptWhole(g, 0, k);
    }
  }

  lemma {:induction false} CopyRowsPlaces(
    o: Output, rows: seq<RowValue>, i: nat, skipped: nat, c: Cursor, columns: nat, st: Style)
    requires Tidy(o) && P.GoodRows(rows, columns) && i <= |rows| && (i <= c.row || c.row >= |rows|) && !o.at.placed
    ensures Outcome(CopyRows(o, rows, i, skipped, c, columns, st), CursorBase(rows, c))
    decreases |rows| - i
  {
    hide P.Good, InkOf, Tidy, Ready, CopyRow, LineFeeds, P.GoodRow, IsBlankText, Points, Seen;
    TidyIsReady(o);
    if i < |rows| {
      assert P.GoodRow(rows[i], columns);
      if Skipped(o, rows[i], c, i) {
        CopyRowsPlaces(o, rows, i + 1, skipped + 1, c, columns, st);
      } else {
        LineFeedsKeep(o, skipped, st);
        LineFeedsUnplaced(o, skipped, st);
        var o1, last := LineFeeds(o, skipped, st), i == |rows| - 1;
        TidyIsReady(o1);
        var o2 := CopyRow(o1, rows[i], CursorIn(c, i), last, columns, st);
        CopyRowAppends(o1, rows[i], CursorIn(c, i), last, columns, st);
        CopyRowPlaces(o1, rows[i], CursorIn(c, i), last, columns, st);
        AfterRow(o2, rows, i, c, columns, st);
      }
    }
  }

  lemma {:induction false} AfterRow(o: Output, rows: seq<RowValue>, i: nat, c: Cursor, columns: nat, st: Style)
    requires Tidy(o) && P.GoodRows(rows, columns) && i < |rows| && (i <= c.row || c.row >= |rows|)
    requires Outcome(o, Target(Points(rows[i].grid), 0, CursorIn(c, i)))
    ensures Outcome(CopyRows(o, rows, i + 1, 0, c, columns, st), CursorBase(rows, c))
    decreases |rows| - i, 0
  {
    hide P.Good, InkOf, Tidy, Ready, P.GoodRow, Points, Seen, CopyRows, Target;
    TidyIsReady(o);
    if i == c.row {
      assert P.GoodRow(rows[i], columns);
      RowTarget(rows[i], columns, c.col);
      match CursorBase(rows, c)
      case None => CopyRowsUnplaced(o, rows, i + 1, 0, c, columns, st);
      case Some(b) => CopyRowsSees(o, rows, i + 1, 0, c, columns, st, b);
    } else {
      NoTarget(Points(rows[i].grid), 0);
      CopyRowsPlaces(o, rows, i + 1, 0, c, columns, st);
    }
  }

  lemma {:induction false} CopyRowsUnplaced(
    o: Output, rows: seq<RowValue>, i: nat, skipped: nat, c: Cursor, columns: nat, st: Style)
    requires Tidy(o) && P.GoodRows(rows, columns) && c.row < i <= |rows| && !o.at.placed
    ensures !CopyRows(o, rows, i, skipped, c, columns, st).at.placed
    decreases |rows| - i
  {
    hide P.Good, InkOf, Tidy, Ready, CopyRow, LineFeeds, P.GoodRow, IsBlankText, Points;
    TidyIsReady(o);
    if i < |rows| {
      assert P.GoodRow(rows[i], columns);
      if Skipped(o, rows[i], c, i) {
        CopyRowsUnplaced(o, rows, i + 1, skipped + 1, c, columns, st);
      } else {
        LineFeedsKeep(o, skipped, st);
        LineFeedsUnplaced(o, skipped, st);
        var o1, last := LineFeeds(o, skipped, st), i == |rows| - 1;
        TidyIsReady(o1);
        CopyRowAppends(o1, rows[i], None, last, columns, st);
        CopyRowPlaces(o1, rows[i], None, last, columns, st);
        NoTarget(Points(rows[i].grid), 0);
        CopyRowsUnplaced(CopyRow(o1, rows[i], None, last, columns, st), rows, i + 1, 0, c, columns, st);
      }
    }
  }

  /** The cursor is placed exactly when its old column starts a cell of a visible row, and then on the new cell with
      the same base, except that it stays behind by one row for each blank row inserted by a scroll afterwards. */
  lemma ReflowKeepsCursor(p: Page, newColumns: nat, newRows: nat, newTotal: nat, c: Cursor, st: Style)
    requires P.Good(p) && 2 <= newColumns && 0 < newRows <= newTotal
    ensures var o := Reflowed(p, newColumns, newRows, newTotal, c, st);
      match CursorBase(p.history + p.screen, c)
      case None => !o.at.placed
      case Some(b) =>
        && o.at.placed && o.at.cursorRow < newRows && 0 <= o.at.cursorCol < newColumns
        && |o.evicted| + |o.page.history| + o.at.cursorRow == o.home + o.lag
        && ShowsAt(o.evicted + o.page.history + o.page.screen, o.home, o.at.cursorCol, b)
        && (o.lag == 0 && 0 <= o.at.cursorRow ==> ShowsAt(o.page.screen, o.at.cursorRow, o.at.cursorCol, b))
  {
    assert P.GoodRows(p.history + p.screen, p.columns);
    hide P.Good, InkOf, CopyRows, P.GoodRows, Fresh, Tidy, P.GoodRow, Width, Ready, ShowsAt, Seen, CursorBase;
    var o := Reflowed(p, newColumns, newRows, newTotal, c, st);
    FreshIsTidy(newColumns, newRows, newTotal, st);
    FreshUnplaced(newColumns, newRows, newTotal, st);
    CopyRowsPlaces(Fresh(newColumns, newRows, newTotal, st), p.history + p.screen, 0, 0, c, p.columns, st);
    match CursorBase(p.history + p.screen, c)
    case None =>
    case Some(b) => SeenOnScreen(o, b);
  }

  lemma SeenOnScreen(o: Output, b: CodePoint)
    requires Ready(o) && Seen(o, b)
    ensures o.at.placed && o.at.cursorRow < |o.page.screen| && 0 <= o.at.cursorCol < o.page.columns
    ensures |o.evicted| + |o.page.history| + o.at.cursorRow == o.home + o.lag
    ensures ShowsAt(o.evicted + o.page.history + o.page.screen, o.home, o.at.cursorCol, b)
    ensures o.lag == 0 && 0 <= o.at.cursorRow ==> ShowsAt(o.page.screen, o.at.cursorRow, o.at.cursorCol, b)
  {
    hide P.Good, Width;
    if o.lag == 0 && 0 <= o.at.cursorRow {
      assert AllRows(o)[o.home] == o.page.screen[o.at.cursorRow];
    }
  }

  lemma FreshUnplaced(columns: nat, rows: nat, total: nat, st: Style)
    requires 2 <= columns && 0 < rows <= total
    ensures var o := Fresh(columns, rows, total, st); !o.at.placed && o.lag == 0
  {
  }
}
