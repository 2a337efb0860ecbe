/** What a reflow makes of the rows, all of it: the cells of the old rows are filled into lines of the new width one
    after the other, and the history and the screen are these lines. */
module ReflowLines {
  import opened Common
  import opened WcWidth
  import opened Utf16
  import opened Row
  import RowCopy
  import P = Page
  import opened Reflow
  import opened ReflowText
  import ReflowStyles

  /** The lines that are full, and the cells of the one that is being filled, with their styles. */
  datatype Flow = Flow(rows: seq<RowValue>, cells: Grid, styles: seq<Style>)

  const EMPTY := Flow([], [], [])

  /** Cells at the start of a line of `columns` columns; the others are blank in style `st`. */
  function Filled(cells: Grid, styles: seq<Style>, wrap: bool, columns: nat, st: Style): RowValue {
    if |cells| <= columns then
      RowValue(cells + Blanks(columns - |cells|), styles + seq(columns - |cells|, _ => st), wrap)
    else BlankRow(columns, st, wrap)
  }

  /** The next line; the last one is marked when it is continued there. */
  function Break(f: Flow, wrap: bool, columns: nat, st: Style): Flow {
    Flow(f.rows + [Filled(f.cells, f.styles, wrap, columns, st)], [], [])
  }

  function Breaks(f: Flow, n: nat, columns: nat, st: Style): Flow
    decreases n
  {
    if n == 0 then f else Breaks(Break(f, false, columns, st), n - 1, columns, st)
  }

  function Slots(c: Slot): Grid {
    if c.Cell? && Width(c.base) == 2 then [c, Rest] else [c]
  }

  /** The second column of a wide character has a style of its own: that of the blank it covers, unless there are
      marks. */
  function SlotStyles(c: Slot, sty: Style, st: Style): seq<Style> {
    if c.Cell? && Width(c.base) == 2 then [sty, if c.marks == [] then st else sty] else [sty]
  }

  /** The line to be filled with `w` columns: the next one if they do not fit any more. */
  function Room(f: Flow, w: nat, columns: nat, st: Style): Flow {
    if |f.cells| + w <= columns then f else Break(f, true, columns, st)
  }

  /** The line that is being filled, with one more cell. */
  function With(f: Flow, c: Slot, sty: Style, st: Style): Flow {
    Flow(f.rows, f.cells + Slots(c), f.styles + SlotStyles(c, sty, st))
  }

  function Add(f: Flow, c: Slot, sty: Style, columns: nat, st: Style): Flow {
    With(Room(f, |Slots(c)|, columns, st), c, sty, st)
  }

  /** The cells of a row from column `at` on; the one at the cursor is the last one, and loses its marks. */
  function AddCells(f: Flow, g: Grid, style: seq<Style>, at: nat, cursor: Option<nat>, columns: nat, st: Style): Flow
    requires |g| <= |style| && at <= |g|
    decreases |g| - at
  {
    if at == |g| then f
    else if g[at].Rest? then AddCells(f, g, style, at + 1, cursor, columns, st)
    else if cursor == Some(at) then Add(f, g[at].(marks := []), style[at], columns, st)
    else AddCells(Add(f, g[at], style[at], columns, st), g, style, at + 1, cursor, columns, st)
  }

  /** Without the blanks at the end. */
  function TrimCells(g: Grid): (h: Grid)
    ensures h <= g
  {
    if g == [] || g[|g| - 1] != BLANK then g else TrimCells(g[..|g| - 1])
  }

  function TakenCells(r: RowValue, cursor: Option<nat>): (g: Grid)
    ensures g <= r.grid
  {
    if cursor.Some? || r.wrap then r.grid else TrimCells(r.grid)
  }

  /** An old row; the next one starts a new line unless this one is continued there. */
  function AddRow(f: Flow, r: RowValue, cursor: Option<nat>, last: bool, columns: nat, st: Style): Flow
    requires |r.grid| == |r.style|
  {
    var f1 := AddCells(f, TakenCells(r, cursor), r.style, 0, cursor, columns, st);
    if !last && !r.wrap then Break(f1, false, columns, st) else f1
  }

  /** All old rows. Blank ones other than the cursor's count only when a row that is added follows. */
  function AddRows(f: Flow, rows: seq<RowValue>, i: nat, skipped: nat, c: Cursor, columns: nat, st: Style): Flow
    requires i <= |rows| && forall j :: 0 <= j < |rows| ==> |rows[j].grid| == |rows[j].style|
    decreases |rows| - i
  {
    if i == |rows| then f
    else if i != c.row && IsBlankText(Points(rows[i].grid)) then AddRows(f, rows, i + 1, skipped + 1, c, columns, st)
    else
      AddRows(AddRow(Breaks(f, skipped, columns, st), rows[i], CursorIn(c, i), i == |rows| - 1, columns, st),
              rows, i + 1, 0, c, columns, st)
  }

  /** The lines so far, the one that is being filled among them. */
  function Lines(f: Flow, columns: nat, st: Style): seq<RowValue> {
    f.rows + [Filled(f.cells, f.styles, false, columns, st)]
  }

  predicate Continued(lines: seq<RowValue>, i: nat) {
    i < |lines| && lines[i].wrap
  }

  /** Row `i` is marked as wrapped: if its line is continued, or if it takes the slot of a row that was marked. */
  predicate Marked(lines: seq<RowValue>, i: nat, total: nat) {
    Continued(lines, i) || (0 < total <= i && Marked(lines, i - total, total))
  }

  /** Row `i` of the output. */
  function RowAt(lines: seq<RowValue>, i: nat, total: nat, columns: nat, st: Style): RowValue {
    var r := if i < |lines| then lines[i] else BlankRow(columns, st, false);
    r.(wrap := Marked(lines, i, total))
  }

  // ----- The output and the lines -----

  /** Slots that were not used yet. */
  predicate Unused(o: Output, st: Style) {
    && (forall i :: 0 <= i < |o.page.spare| ==> o.page.spare[i] == Some(BlankRow(o.page.columns, st, false)))
    && (o.at.row + 1 < |o.page.screen| ==> o.evicted == [] && o.page.history == [])
  }

  /** The rows `all` show these lines. */
  ghost predicate Show(all: seq<RowValue>, lines: seq<RowValue>, total: nat, columns: nat, st: Style) {
    forall i :: 0 <= i < |all| ==> all[i] == RowAt(lines, i, total, columns, st)
  }

  /** The output shows these lines, of which the last one is being filled. */
  ghost predicate Shows(o: Output, lines: seq<RowValue>, st: Style) {
    && Ready(o) && Unused(o, st)
    && |lines| == |o.evicted| + |o.page.history| + o.at.row + 1
    && Show(AllRows(o), lines, P.Total(o.page), o.page.columns, st)
  }

  ghost predicate Agree(o: Output, f: Flow, st: Style) {
    && Shows(o, Lines(f, o.page.columns, st), st)
    && |f.cells| == |f.styles| == o.at.col
  }

  lemma FreshAgree(columns: nat, rows: nat, total: nat, st: Style)
    requires 2 <= columns && 0 < rows <= total
    ensures Agree(Fresh(columns, rows, total, st), EMPTY, st)
  {
    hide P.Good;
    assert Filled([], [], false, columns, st) == BlankRow(columns, st, false);
  }

  /** Lines further down change no marks. */
  lemma {:induction false} SameMarks(a: seq<RowValue>, b: seq<RowValue>, i: nat, total: nat)
    requires forall j :: 0 <= j <= i ==> (j < |a| && a[j].wrap <==> j < |b| && b[j].wrap)
    ensures Marked(a, i, total) == Marked(b, i, total)
    decreases i
  {
    if 0 < total <= i {
      SameMarks(a, b, i - total, total);
    }
  }

  lemma NextLineShown(all: seq<RowValue>, lines: seq<RowValue>, total: nat, columns: nat, st: Style)
    requires Show(all, lines, total, columns, st)
    ensures Show(all, lines + [BlankRow(columns, st, false)], total, columns, st)
  {
    hide Marked;
    var b := lines + [BlankRow(columns, st, false)];
    forall i | 0 <= i < |all| ensures all[i] == RowAt(b, i, total, columns, st) {
      SameMarks(lines, b, i, total);
    }
  }

  /** A new row takes the mark of the slot it uses. */
  lemma NextRowShown(all: seq<RowValue>, lines: seq<RowValue>, total: nat, columns: nat, st: Style, r: RowValue)
    requires Show(all, lines, total, columns, st) && |lines| == |all| && 0 < total
    requires r == BlankRow(columns, st, total <= |all| && all[|all| - total].wrap)
    ensures Show(all + [r], lines + [BlankRow(columns, st, false)], total, columns, st)
  {
    NextLineShown(all, lines, total, columns, st);
    var b, n := lines + [BlankRow(columns, st, false)], |all|;
    if total <= n {
      assert all[n - total] == RowAt(b, n - total, total, columns, st);
    }
    assert r == RowAt(b, n, total, columns, st);
  }

  /** The row that a scroll takes into use. */
  lemma NewRow(o: Output, st: Style, follow: bool)
    requires Ready(o) && Unused(o, st) && o.at.row == |o.page.screen| - 1
    ensures var o', n, total := LineFeed(o, st, follow), |AllRows(o)|, P.Total(o.page);
      && AllRows(o') == AllRows(o) + [BlankRow(o.page.columns, st, total <= n && AllRows(o)[n - total].wrap)]
      && Unused(o', st) && o'.at.row == o.at.row && n + 1 == |o'.evicted| + |o'.page.history| + |o.page.screen|
  {
    hide P.Good;
    RowsAfterScroll(o, st, follow);
  }

  lemma RowsAfterScroll(o: Output, st: Style, follow: bool)
    requires Ready(o) && o.at.row == |o.page.screen| - 1
    ensures var o' := LineFeed(o, st, follow); AllRows(o') == AllRows(o) + [o'.page.screen[o.at.row]]
  {
    hide P.Good;
  }

  lemma LineFeedShows(o: Output, lines: seq<RowValue>, st: Style, follow: bool)
    requires Shows(o, lines, st)
    ensures Shows(LineFeed(o, st, follow), lines + [BlankRow(o.page.columns, st, false)], st)
  {
    hide P.Good, Show, BlankRow;
    var columns, total := o.page.columns, P.Total(o.page);
    if o.at.row == |o.page.screen| - 1 {
      NewRow(o, st, follow);
      var wrap := total <= |AllRows(o)| && AllRows(o)[|AllRows(o)| - total].wrap;
      NextRowShown(AllRows(o), lines, total, columns, st, BlankRow(columns, st, wrap));
    } else {
      NextLineShown(AllRows(o), lines, total, columns, st);
    }
  }

  lemma AfterBreak(f: Flow, wrap: bool, columns: nat, st: Style)
    ensures Lines(Break(f, wrap, columns, st), columns, st) ==
      f.rows + [Filled(f.cells, f.styles, wrap, columns, st)] + [BlankRow(columns, st, false)]
  {
    assert Filled([], [], false, columns, st) == BlankRow(columns, st, false);
  }

  lemma LineFeedAgrees(o: Output, f: Flow, st: Style, follow: bool)
    requires Agree(o, f, st)
    ensures Agree(LineFeed(o, st, follow), Break(f, false, o.page.columns, st), st)
  {
    AfterBreak(f, false, o.page.columns, st);
    LineFeedShows(o, Lines(f, o.page.columns, st), st, follow);
    hide P.Good, Shows;
  }

  lemma {:induction false} LineFeedsAgree(o: Output, f: Flow, n: nat, st: Style)
    requires Agree(o, f, st)
    ensures Agree(LineFeeds(o, n, st), Breaks(f, n, o.page.columns, st), st)
    decreases n
  {
    hide P.Good, LineFeed, Shows, Break;
    AgreeIsReady(o, f, st);
    if n > 0 {
      LineFeedAgrees(o, f, st, false);
      LineFeedsAgree(LineFeed(o, st, false), Break(f, false, o.page.columns, st), n - 1, st);
    }
  }

  lemma AgreeIsReady(o: Output, f: Flow, st: Style)
    requires Agree(o, f, st)
    ensures Ready(o)
  {
  }

  /** Only the line that is being filled changes. */
  lemma EditShown(all: seq<RowValue>, lines: seq<RowValue>, line: RowValue, wrap: bool, total: nat, columns: nat,
      st: Style)
    requires Show(all, lines, total, columns, st) && 0 < |lines| <= |all|
    requires wrap == (line.wrap || all[|lines| - 1].wrap) && (lines[|lines| - 1].wrap ==> line.wrap)
    requires |lines| < |all| ==> |all| <= total
    ensures Show(all[|lines| - 1 := line.(wrap := wrap)], lines[|lines| - 1 := line], total, columns, st)
  {
    var n, b := |lines| - 1, lines[|lines| - 1 := line];
    forall i | 0 <= i < |all|
      ensures all[n := line.(wrap := wrap)][i] == RowAt(b, i, total, columns, st)
    {
      if i < n {
        SameMarks(lines, b, i, total);
      } else if i == n && total <= i && 0 < total {
        SameMarks(lines, b, i - total, total);
      }
    }
  }

  /** Marking the line as wrapped, and going on to the next one. */
  lemma WrapAgrees(o: Output, f: Flow, w: nat, st: Style)
    requires Agree(o, f, st) && w <= 2
    ensures Agree(WrapFor(o, w, st), Room(f, w, o.page.columns, st), st)
  {
    hide P.Good, Show, LineFeed, Filled, BlankRow;
    if o.at.col + w > o.page.columns {
      var columns, lines := o.page.columns, Lines(f, o.page.columns, st);
      var o1, line := o.(page := P.SetLineWrap(o.page, o.at.row, true)), Filled(f.cells, f.styles, true, columns, st);
      MarkedLine(o, f, st);
      LineFeedShows(o1, f.rows + [line], st, true);
      AfterBreak(f, true, columns, st);
    }
  }

  lemma MarkedLine(o: Output, f: Flow, st: Style)
    requires Agree(o, f, st)
    ensures Shows(o.(page := P.SetLineWrap(o.page, o.at.row, true)),
                  f.rows + [Filled(f.cells, f.styles, true, o.page.columns, st)], st)
  {
    hide P.Good, Show, LineFeed, BlankRow;
    var columns, lines, n := o.page.columns, Lines(f, o.page.columns, st), |f.rows|;
    var o1, line := o.(page := P.SetLineWrap(o.page, o.at.row, true)), Filled(f.cells, f.styles, true, columns, st);
    EditShown(AllRows(o), lines, line, true, P.Total(o.page), columns, st);
    FillingRow(o, f, st);
    assert AllRows(o1) == AllRows(o)[n := line];
    assert lines[n := line] == f.rows + [line];
  }

  /** The output row is the line that is being filled. */
  lemma FillingRow(o: Output, f: Flow, st: Style)
    requires Agree(o, f, st)
    ensures |f.rows| < |AllRows(o)| && AllRows(o)[|f.rows|] == o.page.screen[o.at.row]
    ensures var r := o.page.screen[o.at.row];
      r == Filled(f.cells, f.styles, r.wrap, o.page.columns, st)
  {
    hide P.Good;
    var lines := Lines(f, o.page.columns, st);
    assert lines[|f.rows|] == Filled(f.cells, f.styles, false, o.page.columns, st);
    assert AllRows(o)[|f.rows|] == RowAt(lines, |f.rows|, P.Total(o.page), o.page.columns, st);
  }

  /** Changing the output row fills the line. */
  lemma EditAgrees(o: Output, f: Flow, st: Style, o': Output, cells: Grid, styles: seq<Style>)
    requires Agree(o, f, st) && Ready(o') && |cells| == |styles| == o'.at.col
    requires |o'.page.screen| == |o.page.screen| && o'.at.row == o.at.row
    requires o' == o.(page := o.page.(screen := o.page.screen[o.at.row := o'.page.screen[o.at.row]]), at := o'.at)
    requires var r, r' := o.page.screen[o.at.row], o'.page.screen[o.at.row];
      r' == Filled(cells, styles, r.wrap, o.page.columns, st)
    ensures Agree(o', Flow(f.rows, cells, styles), st)
  {
    hide P.Good, Show, BlankRow;
    var columns, n := o.page.columns, |f.rows|;
    var lines, line, r := Lines(f, columns, st), Filled(cells, styles, false, columns, st), o.page.screen[o.at.row];
    FillingRow(o, f, st);
    EditShown(AllRows(o), lines, line, r.wrap, P.Total(o.page), columns, st);
    assert AllRows(o') == AllRows(o)[n := o'.page.screen[o.at.row]];
    assert lines[n := line] == Lines(Flow(f.rows, cells, styles), columns, st);
  }

  // ----- One cell -----

  lemma BaseFills(cells: Grid, styles: seq<Style>, wrap: bool, columns: nat, st: Style, c: CodePoint, sty: Style)
    requires |cells| == |styles| && 0 < Width(c) && |cells| + Width(c) <= columns
    requires WellFormed(Filled(cells, styles, wrap, columns, st).grid)
    ensures var cell := Cell(c, []);
      Put(Filled(cells, styles, wrap, columns, st), |cells|, c, sty) ==
        Filled(cells + Slots(cell), styles + SlotStyles(cell, sty, st), wrap, columns, st)
  {
    LatinIsNarrow(SPACE);
    var r := Filled(cells, styles, wrap, columns, st);
    var r', s' := Put(r, |cells|, c, sty), Filled(cells + Slots(Cell(c, [])), styles + SlotStyles(Cell(c, []), sty, st),
      wrap, columns, st);
    hide WellFormed;
    assert r'.grid == s'.grid;
    assert r'.style == s'.style;
  }

  lemma MarkFills(cells: Grid, styles: seq<Style>, wrap: bool, columns: nat, st: Style, cell: Slot, c: CodePoint,
      sty: Style)
    requires |cells| == |styles| && Width(c) == 0 && cell.Cell? && 0 < Width(cell.base)
    requires |cells| + |Slots(cell)| <= columns
    ensures var more := cell.(marks := cell.marks + [c]);
      Put(Filled(cells + Slots(cell), styles + SlotStyles(cell, sty, st), wrap, columns, st),
          |cells| + |Slots(cell)| - 1, c, sty) ==
        Filled(cells + Slots(more), styles + SlotStyles(more, sty, st), wrap, columns, st)
  {
    var more := cell.(marks := cell.marks + [c]);
    var r := Filled(cells + Slots(cell), styles + SlotStyles(cell, sty, st), wrap, columns, st);
    var s' := Filled(cells + Slots(more), styles + SlotStyles(more, sty, st), wrap, columns, st);
    var r' := Put(r, |cells| + |Slots(cell)| - 1, c, sty);
    assert Head(r.grid, |cells| + |Slots(cell)| - 1) == |cells|;
    assert r'.grid == s'.grid;
    assert r'.style == s'.style;
  }

  lemma EmitBaseAgrees(o: Output, f: Flow, c: CodePoint, sty: Style, st: Style)
    requires Agree(o, f, st) && 0 < Width(c) && o.at.col + Width(c) <= o.page.columns
    ensures Agree(Emit(o, c, sty), With(f, Cell(c, []), sty, st), st)
  {
    var r, o', cell := o.page.screen[o.at.row], Emit(o, c, sty), Cell(c, []);
    AgreeIsReady(o, f, st);
    FillingRow(o, f, st);
    ReflowStyles.EmitEdits(o, c, sty);
    hide Agree, P.Good, Put, Emit, Filled, Ready;
    AgreeCounts(o, f, st);
    BaseFills(f.cells, f.styles, r.wrap, o.page.columns, st, c, sty);
    EditAgrees(o, f, st, o', f.cells + Slots(cell), f.styles + SlotStyles(cell, sty, st));
  }

  lemma AgreeCounts(o: Output, f: Flow, st: Style)
    requires Agree(o, f, st)
    ensures |f.cells| == |f.styles| == o.at.col <= o.page.columns && o.at.row < |o.page.screen|
  {
    hide P.Good;
  }

  lemma SlotCount(c: Slot, d: Slot, sty: Style, st: Style)
    requires c.Cell? && d.Cell? && c.base == d.base
    ensures 0 < |Slots(c)| == |SlotStyles(c, sty, st)| == |Slots(d)| == |SlotStyles(d, sty, st)|
  {
  }

  lemma EmitMarkAgrees(o: Output, f: Flow, cell: Slot, c: CodePoint, sty: Style, st: Style)
    requires cell.Cell? && 0 < Width(cell.base) && Agree(o, With(f, cell, sty, st), st) && Width(c) == 0
    requires |f.cells| == |f.styles|
    ensures Agree(Emit(o, c, sty), With(f, cell.(marks := cell.marks + [c]), sty, st), st)
  {
    hide Agree, P.Good, Put, Emit, Filled, Ready, Slots, SlotStyles;
    var more, g := cell.(marks := cell.marks + [c]), With(f, cell, sty, st);
    SlotCount(cell, more, sty, st);
    AgreeIsReady(o, g, st);
    AgreeCounts(o, g, st);
    FillingRow(o, g, st);
    var r, o' := o.page.screen[o.at.row], Emit(o, c, sty);
    ReflowStyles.EmitEdits(o, c, sty);
    MarkFills(f.cells, f.styles, r.wrap, o.page.columns, st, cell, c, sty);
    EditAgrees(o, g, st, o', f.cells + Slots(more), f.styles + SlotStyles(more, sty, st));
  }

  /** Placing the cursor changes no row. */
  lemma PlacedAgrees(o: Output, o': Output, f: Flow, st: Style)
    requires Agree(o, f, st) && Ready(o') && o'.page == o.page && o'.evicted == o.evicted
    requires o'.at.row == o.at.row && o'.at.col == o.at.col
    ensures Agree(o', f, st)
  {
    hide P.Good;
  }

  lemma StepBaseAgrees(o: Output, f: Flow, c: CodePoint, from: Source, st: Style)
    requires Agree(o, f, st) && 0 < Width(c)
    ensures Agree(Step(o, c, from, st), Add(f, Cell(c, []), from.sty, o.page.columns, st), st)
  {
    var w := Width(c);
    AgreeIsReady(o, f, st);
    AgreeCounts(o, f, st);
    WrapAgrees(o, f, w, st);
    var o1 := WrapFor(o, w, st);
    var g := Room(f, w, o.page.columns, st);
    EmitBaseAgrees(o1, g, c, from.sty, st);
    PlacedAgrees(Emit(o1, c, from.sty), Step(o, c, from, st), With(g, Cell(c, []), from.sty, st), st);
    hide Agree, P.Good, Emit, WrapFor, Break, Ready;
  }

  lemma StepMarkAgrees(o: Output, f: Flow, cell: Slot, c: CodePoint, from: Source, st: Style)
    requires cell.Cell? && 0 < Width(cell.base) && Agree(o, With(f, cell, from.sty, st), st) && Width(c) == 0
    requires |f.cells| == |f.styles|
    ensures Agree(Step(o, c, from, st), With(f, cell.(marks := cell.marks + [c]), from.sty, st), st)
  {
    AgreeIsReady(o, With(f, cell, from.sty, st), st);
    ReflowStyles.MarksStay(o, c, st);
    EmitMarkAgrees(o, f, cell, c, from.sty, st);
    hide Agree, P.Good, Emit, WrapFor, Ready;
  }

  /** Copying `s` from output `o` goes on with `s'` from `o'`. */
  ghost predicate GoesOn(o: Output, s: seq<CodePoint>, from: Source, o': Output, s': seq<CodePoint>, from': Source,
      style: seq<Style>, st: Style)
  {
    && Ready(o) && from.col + RowCopy.TotalWidth(s) <= |style|
    && Ready(o') && from'.col + RowCopy.TotalWidth(s') <= |style|
    && o'.page.columns == o.page.columns
    && CopyPoints(o, s, style, from, st) == CopyPoints(o', s', style, from', st)
  }

  lemma GoesOnTwice(o: Output, s: seq<CodePoint>, from: Source, o1: Output, s1: seq<CodePoint>, from1: Source,
      o2: Output, s2: seq<CodePoint>, from2: Source, style: seq<Style>, st: Style)
    requires GoesOn(o, s, from, o1, s1, from1, style, st) && GoesOn(o1, s1, from1, o2, s2, from2, style, st)
    ensures GoesOn(o, s, from, o2, s2, from2, style, st)
  {
    hide Ready, CopyPoints, RowCopy.TotalWidth;
  }

  lemma GoesOnIf(o: Output, s: seq<CodePoint>, from: Source, o': Output, s': seq<CodePoint>, from': Source,
      style: seq<Style>, st: Style)
    requires Ready(o) && from.col + RowCopy.TotalWidth(s) <= |style|
    requires Ready(o') && from'.col + RowCopy.TotalWidth(s') <= |style|
    requires o'.page.columns == o.page.columns
    requires CopyPoints(o, s, style, from, st) == CopyPoints(o', s', style, from', st)
    ensures GoesOn(o, s, from, o', s', from', style, st)
  {
    hide Ready, CopyPoints, RowCopy.TotalWidth;
  }

  /** Marks belong to the cell before them. */
  lemma MarkGoesOn(o: Output, m: seq<CodePoint>, t: seq<CodePoint>, style: seq<Style>, from: Source, st: Style)
    requires Ready(o) && m != [] && AllMarks(m) && from.col + RowCopy.TotalWidth(t) <= |style|
    ensures GoesOn(o, m + t, from, Step(o, m[0], from, st), m[1..] + t, from, style, st)
  {
    hide P.Good, Step, Ready, CopyPoints, GoesOn;
    RowCopy.TotalWidthConcat(m, t);
    RowCopy.MarksHaveNoWidth(m);
    RowCopy.TotalWidthConcat(m[1..], t);
    RowCopy.MarksHaveNoWidth(m[1..]);
    assert (m + t)[0] == m[0] && Width(m[0]) == 0 && (m + t)[1..] == m[1..] + t;
    assert Restyle(from, m[0], style) == from == from.(col := from.col + Width(m[0])) && !Here(from, m[0]);
    CopyUnfold(o, m + t, style, from, st);
    GoesOnIf(o, m + t, from, Step(o, m[0], from, st), m[1..] + t, from, style, st);
  }

  lemma MoreMarks(cell: Slot, m: seq<CodePoint>)
    requires cell.Cell? && m != []
    ensures (cell.marks + [m[0]]) + m[1..] == cell.marks + m
  {
  }

  lemma NoMarks(o: Output, m: seq<CodePoint>, t: seq<CodePoint>, style: seq<Style>, from: Source, st: Style)
    requires Ready(o) && m == [] && from.col + RowCopy.TotalWidth(t) <= |style|
    ensures GoesOn(o, m + t, from, o, t, from, style, st)
  {
    hide Ready, CopyPoints, RowCopy.TotalWidth;
    assert m + t == t;
  }

  lemma {:induction false} MarksAgree(o: Output, f: Flow, cell: Slot, m: seq<CodePoint>, t: seq<CodePoint>,
      style: seq<Style>, from: Source, st: Style) returns (o': Output)
    requires cell.Cell? && 0 < Width(cell.base) && AllMarks(m) && |f.cells| == |f.styles|
    requires Agree(o, With(f, cell, from.sty, st), st) && from.col + RowCopy.TotalWidth(t) <= |style|
    ensures Agree(o', With(f, cell.(marks := cell.marks + m), from.sty, st), st)
    ensures GoesOn(o, m + t, from, o', t, from, style, st)
    decreases |m|
  {
    AgreeIsReady(o, With(f, cell, from.sty, st), st);
    hide Agree, P.Good, Step, Ready, CopyPoints, With, RowCopy.TotalWidth, GoesOn, Width;
    if m == [] {
      o' := o;
      NoMarks(o, m, t, style, from, st);
      assert cell.marks + m == cell.marks;
    } else {
      var o1, cell1 := Step(o, m[0], from, st), cell.(marks := cell.marks + [m[0]]);
      StepMarkAgrees(o, f, cell, m[0], from, st);
      MarkGoesOn(o, m, t, style, from, st);
      o' := MarksAgree(o1, f, cell1, m[1..], t, style, from, st);
      MoreMarks(cell, m);
      GoesOnTwice(o, m + t, from, o1, m[1..] + t, from, o', t, from, style, st);
    }
  }

  /** The text `s` starts with a cell. */
  predicate StartsWith(s: seq<CodePoint>, cell: Slot, t: seq<CodePoint>) {
    cell.Cell? && 0 < Width(cell.base) && AllMarks(cell.marks) && s == [cell.base] + (cell.marks + t)
  }

  lemma BaseGoesOn(o: Output, s: seq<CodePoint>, cell: Slot, t: seq<CodePoint>, style: seq<Style>, from: Source,
      st: Style)
    requires StartsWith(s, cell, t) && Ready(o)
    requires from.col + Width(cell.base) + RowCopy.TotalWidth(t) <= |style| && from.cursor != Some(from.col)
    ensures GoesOn(o, s, from, Step(o, cell.base, from.(sty := style[from.col]), st), cell.marks + t,
                   Source(from.col + Width(cell.base), style[from.col], from.cursor), style, st)
  {
    hide P.Good, Step, Ready, CopyPoints, AllMarks, GoesOn;
    RowCopy.TotalWidthConcat(cell.marks, t);
    RowCopy.MarksHaveNoWidth(cell.marks);
    assert s[1..] == cell.marks + t;
    CopyUnfold(o, s, style, from, st);
    GoesOnIf(o, s, from, Step(o, cell.base, from.(sty := style[from.col]), st), cell.marks + t,
             Source(from.col + Width(cell.base), style[from.col], from.cursor), style, st);
  }

  lemma BareCell(f: Flow, cell: Slot, sty: Style, columns: nat, st: Style)
    requires cell.Cell?
    ensures Cell(cell.base, [] + cell.marks) == cell && |Slots(Cell(cell.base, []))| == |Slots(cell)|
    ensures |f.cells| == |f.styles| ==>
      |Room(f, |Slots(cell)|, columns, st).cells| == |Room(f, |Slots(cell)|, columns, st).styles|
  {
  }

  /** One cell. */
  lemma CellAgrees(o: Output, f: Flow, s: seq<CodePoint>, cell: Slot, t: seq<CodePoint>, style: seq<Style>,
      from: Source, next: Source, columns: nat, st: Style) returns (o': Output)
    requires StartsWith(s, cell, t) && Agree(o, f, st) && o.page.columns == columns && from.cursor != Some(from.col)
    requires next.col == from.col + Width(cell.base) && next.col + RowCopy.TotalWidth(t) <= |style|
    requires from.col < |style| && next.sty == style[from.col] && next.cursor == from.cursor
    ensures Agree(o', Add(f, cell, next.sty, columns, st), st) && o'.page.columns == columns
    ensures GoesOn(o, s, from, o', t, next, style, st)
  {
    hide Agree, P.Good, Step, Ready, CopyPoints, With, AllMarks, RowCopy.TotalWidth, GoesOn, Slots, Width, Room,
      StartsWith;
    AgreeIsReady(o, f, st);
    AgreeCounts(o, f, st);
    StartIsCell(s, cell, t);
    BareCell(f, cell, next.sty, columns, st);
    BaseGoesOn(o, s, cell, t, style, from, st);
    var src, g := from.(sty := next.sty), Room(f, |Slots(cell)|, columns, st);
    StepBaseAgrees(o, f, cell.base, src, st);
    o' := MarksAgree(Step(o, cell.base, src, st), g, Cell(cell.base, []), cell.marks, t, style, next, st);
    GoesOnTwice(o, s, from, Step(o, cell.base, src, st), cell.marks + t, next, o', t, next, style, st);
    SameColumns(o, s, from, o', t, next, style, st);
  }

  lemma StartIsCell(s: seq<CodePoint>, cell: Slot, t: seq<CodePoint>)
    requires StartsWith(s, cell, t)
    ensures cell.Cell? && 0 < Width(cell.base) && AllMarks(cell.marks)
  {
  }

  /** Copying `s` makes the output agree with these lines. */
  ghost predicate CopyAgrees(o: Output, s: seq<CodePoint>, style: seq<Style>, from: Source, f: Flow, st: Style) {
    Ready(o) && from.col + RowCopy.TotalWidth(s) <= |style| && Agree(CopyPoints(o, s, style, from, st), f, st)
  }

  lemma AgreesLater(o: Output, s: seq<CodePoint>, from: Source, o': Output, s': seq<CodePoint>, from': Source,
      style: seq<Style>, f: Flow, st: Style)
    requires GoesOn(o, s, from, o', s', from', style, st) && CopyAgrees(o', s', style, from', f, st)
    ensures CopyAgrees(o, s, style, from, f, st)
  {
    hide Ready, CopyPoints, RowCopy.TotalWidth, Agree;
  }

  lemma FirstCell(g: Grid, at: nat)
    requires WellFormed(g) && at < |g| && g[at].Cell?
    ensures var next := at + Width(g[at].base);
      && 0 < Width(g[at].base) && next <= |g| && (next < |g| ==> g[next].Cell?)
      && next + RowCopy.TotalWidth(Points(g[next..])) == |g|
      && StartsWith(Points(g[at..]), g[at], Points(g[next..]))
  {
    hide Points, WellFormed, RowCopy.TotalWidth;
    NextIsBase(g, at);
    MarksOf(g, at);
    ReflowStyles.WidthFrom(g, at + Width(g[at].base));
  }

  /** The cells of a row. */
  lemma {:induction false} CellsAgree(o: Output, f: Flow, g: Grid, style: seq<Style>, from: Source, columns: nat,
      st: Style)
    requires Agree(o, f, st) && WellFormed(g) && from.col <= |g| <= |style| && columns == o.page.columns
    requires from.col < |g| ==> g[from.col].Cell?
    ensures CopyAgrees(o, Points(g[from.col..]), style, from,
                       AddCells(f, g, style, from.col, from.cursor, columns, st), st)
    decreases |g| - from.col
  {
    hide Agree, P.Good, Step, Ready, CopyPoints, With, Points, WellFormed, AddCells, Add, RowCopy.TotalWidth, GoesOn,
      CopyAgrees, Width, StartsWith;
    if from.col == |g| {
      NoneLeft(o, f, g, style, from, columns, st);
    } else {
      FirstCell(g, from.col);
      NextCells(f, g, style, from.col, from.cursor, columns, st);
      var cell, next := g[from.col], Source(from.col + Width(g[from.col].base), style[from.col], from.cursor);
      var s, t := Points(g[from.col..]), Points(g[next.col..]);
      if from.cursor == Some(from.col) {
        CursorCell(o, f, s, cell, t, style, from, st);
      } else {
        var f' := Add(f, cell, next.sty, columns, st);
        var o' := CellAgrees(o, f, s, cell, t, style, from, next, columns, st);
        CellsAgree(o', f', g, style, next, columns, st);
        AgreesLater(o, s, from, o', t, next, style, AddCells(f', g, style, next.col, next.cursor, columns, st), st);
      }
    }
  }

  lemma SameColumns(o: Output, s: seq<CodePoint>, from: Source, o': Output, s': seq<CodePoint>, from': Source,
      style: seq<Style>, st: Style)
    requires GoesOn(o, s, from, o', s', from', style, st)
    ensures o'.page.columns == o.page.columns
  {
    hide Ready, CopyPoints, RowCopy.TotalWidth;
  }

  lemma NoneLeft(o: Output, f: Flow, g: Grid, style: seq<Style>, from: Source, columns: nat, st: Style)
    requires Agree(o, f, st) && from.col == |g| <= |style|
    ensures CopyAgrees(o, Points(g[from.col..]), style, from,
                       AddCells(f, g, style, from.col, from.cursor, columns, st), st)
  {
    hide P.Good, Shows;
    AgreeIsReady(o, f, st);
    assert Points(g[from.col..]) == [];
  }

  lemma NextCells(f: Flow, g: Grid, style: seq<Style>, at: nat, cursor: Option<nat>, columns: nat, st: Style)
    requires WellFormed(g) && at < |g| <= |style| && g[at].Cell? && at + Width(g[at].base) <= |g|
    ensures AddCells(f, g, style, at, cursor, columns, st) ==
      if cursor == Some(at) then Add(f, g[at].(marks := []), style[at], columns, st)
      else AddCells(Add(f, g[at], style[at], columns, st), g, style, at + Width(g[at].base), cursor, columns, st)
  {
    Neighbours(g, at);
    MarksOf(g, at);
    hide WellFormed, Add;
  }

  /** The base at the cursor is the last one. */
  lemma CursorCell(o: Output, f: Flow, s: seq<CodePoint>, cell: Slot, t: seq<CodePoint>, style: seq<Style>,
      from: Source, st: Style)
    requires StartsWith(s, cell, t) && Agree(o, f, st)
    requires from.col + Width(cell.base) + RowCopy.TotalWidth(t) <= |style| && from.cursor == Some(from.col)
    ensures CopyAgrees(o, s, style, from, Add(f, cell.(marks := []), style[from.col], o.page.columns, st), st)
  {
    AgreeIsReady(o, f, st);
    hide Agree, P.Good, Step, Ready, CopyPoints, Add, AllMarks;
    RowCopy.TotalWidthConcat(cell.marks, t);
    RowCopy.MarksHaveNoWidth(cell.marks);
    assert s[1..] == cell.marks + t;
    CopyUnfold(o, s, style, from, st);
    StepBaseAgrees(o, f, cell.base, from.(sty := style[from.col]), st);
  }

  // ----- The old rows -----

  /** The text of a row ends with its last cell. */
  lemma LastPoint(g: Grid)
    requires WellFormed(g) && g != [] && g[|g| - 1] != BLANK
    ensures Points(g) != [] && Points(g)[|Points(g)| - 1] != SPACE
  {
    hide WellFormed, Points, AllMarks;
    var h := Head(g, |g| - 1);
    Neighbours(g, |g| - 1);
    PointsFrom(g, h);
    TextSplit(g, h);
    PointsOfNothing(g, |g|);
    MarksOf(g, h);
    EndOfCell(g[h].base, g[h].marks);
    assert Points(g) == Points(g[..h]) + ([g[h].base] + g[h].marks);
  }

  lemma EndOfCell(b: CodePoint, m: seq<CodePoint>)
    requires AllMarks(m) && (b != SPACE || m != [])
    ensures ([b] + m)[|m|] != SPACE
  {
    LatinIsNarrow(SPACE);
    assert m != [] ==> ([b] + m)[|m|] == m[|m| - 1];
  }

  /** Trimming the text of a row takes off the blanks at its end. */
  lemma {:induction false} TrimmedIsCells(g: Grid)
    requires WellFormed(g)
    ensures TrimRight(Points(g)) == Points(TrimCells(g)) && WellFormed(TrimCells(g))
  {
    if g != [] {
      var n := |g| - 1;
      if g[n] == BLANK {
        CutKeeps(g, n);
        TrimmedIsCells(g[..n]);
        TextSplit(g, n);
        PointsUnfold(g, n);
        assert Points(g[|g|..]) == [] && SlotPoints(BLANK) == [SPACE];
        assert Points(g) == Points(g[..n]) + [SPACE];
      } else {
        LastPoint(g);
      }
    }
  }

  lemma TakenIsCells(r: RowValue, cursor: Option<nat>, columns: nat)
    requires P.GoodRow(r, columns)
    ensures var g := TakenCells(r, cursor);
      Points(g) == Taken(r, cursor) && WellFormed(g) && (g != [] ==> g[0].Cell?) && |g| <= |r.style|
  {
    TrimmedIsCells(r.grid);
    ReflowStyles.FirstIsCell(TakenCells(r, cursor));
    hide WellFormed;
  }

  lemma RowAgrees(o: Output, f: Flow, r: RowValue, cursor: Option<nat>, last: bool, columns: nat, st: Style)
    requires Agree(o, f, st) && P.GoodRow(r, columns)
    ensures Ready(o) && Agree(CopyRow(o, r, cursor, last, columns, st),
                              AddRow(f, r, cursor, last, o.page.columns, st), st)
  {
    hide Agree, P.Good, Ready, CopyPoints, Taken, TakenCells, AddCells, WellFormed, LineFeed, Break;
    AgreeIsReady(o, f, st);
    TakenIsCells(r, cursor, columns);
    TakenFits(r, cursor, columns);
    var g, from := TakenCells(r, cursor), Source(0, 0, cursor);
    assert g[0..] == g;
    CellsAgree(o, f, g, r.style, from, o.page.columns, st);
    var o1 := CopyPoints(o, Taken(r, cursor), r.style, from, st);
    LineFeedAgrees(o1, AddCells(f, g, r.style, 0, cursor, o.page.columns, st), st, true);
  }

  /** The cursor is placed only on its own row. */
  predicate PlacedBehind(o: Output, c: Cursor, i: nat) {
    o.at.placed ==> c.row < i
  }

  lemma {:induction false} RowsAgree(o: Output, f: Flow, rows: seq<RowValue>, i: nat, skipped: nat, c: Cursor,
      columns: nat, newColumns: nat, st: Style)
    requires Agree(o, f, st) && P.GoodRows(rows, columns) && i <= |rows| && PlacedBehind(o, c, i)
    requires o.page.columns == newColumns
    ensures Ready(o)
    ensures Agree(CopyRows(o, rows, i, skipped, c, columns, st), AddRows(f, rows, i, skipped, c, newColumns, st), st)
    decreases |rows| - i
  {
    hide Agree, P.Good, Ready, CopyRow, LineFeeds, WellFormed, IsBlankText, Points, AddRow, Breaks;
    AgreeIsReady(o, f, st);
    if i < |rows| {
      assert P.GoodRow(rows[i], columns);
      if Skipped(o, rows[i], c, i) {
        RowsAgree(o, f, rows, i + 1, skipped + 1, c, columns, newColumns, st);
      } else {
        LineFeedsAgree(o, f, skipped, st);
        LineFeedsPlaced(o, skipped, st);
        var o1, f1 := LineFeeds(o, skipped, st), Breaks(f, skipped, newColumns, st);
        var o2 := CopyRow(o1, rows[i], CursorIn(c, i), i == |rows| - 1, columns, st);
        RowAgrees(o1, f1, rows[i], CursorIn(c, i), i == |rows| - 1, columns, st);
        if i != c.row {
          CopyRowPlaced(o1, rows[i], i == |rows| - 1, columns, st);
        }
        var f2 := AddRow(f1, rows[i], CursorIn(c, i), i == |rows| - 1, newColumns, st);
        RowsAgree(o2, f2, rows, i + 1, 0, c, columns, newColumns, st);
      }
    }
  }

  /** The lines that a reflow makes of a page. */
  function Laid(p: Page, newColumns: nat, c: Cursor, st: Style): seq<RowValue>
    requires P.Good(p)
  {
    var rows := p.history + p.screen;
    assert P.GoodRows(rows, p.columns);
    Lines(AddRows(EMPTY, rows, 0, 0, c, newColumns, st), newColumns, st)
  }

  /** A reflow fills the lines of the new width with the cells of the old rows, one after the other: the rows it
      outputs, those evicted from the full ring and then those of the new history and screen, are these lines,
      followed by blank ones where they do not fill the screen. A row is marked as wrapped exactly when its line is
      continued, or when it took the slot of a marked one. Only the newest rows stay. */
  lemma ReflowFillsLines(p: Page, newColumns: nat, newRows: nat, newTotal: nat, c: Cursor, st: Style)
    requires P.Good(p) && 2 <= newColumns && 0 < newRows <= newTotal
    ensures var o, lines := Reflowed(p, newColumns, newRows, newTotal, c, st), Laid(p, newColumns, c, st);
      var all := o.evicted + (o.page.history + o.page.screen);
      && |all| == Max(|lines|, newRows) && |o.evicted| == Max(0, |all| - newTotal)
      && forall i :: 0 <= i < |all| ==> all[i] == RowAt(lines, i, newTotal, newColumns, st)
  {
    var rows := p.history + p.screen;
    assert P.GoodRows(rows, p.columns);
    assert forall j :: 0 <= j < |rows| ==> |rows[j].grid| == |rows[j].style|;
    hide P.Good, CopyRows, AddRows, Fresh, Ready, P.GoodRow, P.GoodRows;
    var o0, o := Fresh(newColumns, newRows, newTotal, st), Reflowed(p, newColumns, newRows, newTotal, c, st);
    FreshAgree(newColumns, newRows, newTotal, st);
    FreshStarts(newColumns, newRows, newTotal, st);
    RowsAgree(o0, EMPTY, rows, 0, 0, c, p.columns, newColumns, st);
    AllShown(o, AddRows(EMPTY, rows, 0, 0, c, newColumns, st), st);
  }

  lemma AllShown(o: Output, f: Flow, st: Style)
    requires Agree(o, f, st)
    ensures var all, lines, total := o.evicted + (o.page.history + o.page.screen), Lines(f, o.page.columns, st),
        P.Total(o.page);
      && |all| == Max(|lines|, |o.page.screen|) && |o.evicted| == Max(0, |all| - total)
      && forall i :: 0 <= i < |all| ==> all[i] == RowAt(lines, i, total, o.page.columns, st)
  {
    hide P.Good;
    assert AllRows(o) == o.evicted + (o.page.history + o.page.screen);
  }

  /** Rows are marked as their lines are exactly when every row that takes the slot of a continued line is continued. */
  lemma MarksStayExactly(lines: seq<RowValue>, n: nat, total: nat)
    requires 0 < total
    ensures (forall i :: 0 <= i < n ==> (Marked(lines, i, total) <==> Continued(lines, i))) <==>
      forall i :: 0 <= i < n - total && Continued(lines, i) ==> Continued(lines, i + total)
  {
    if forall i :: 0 <= i < n - total && Continued(lines, i) ==> Continued(lines, i + total) {
      forall i | 0 <= i < n ensures Marked(lines, i, total) <==> Continued(lines, i) {
        NoMarkInherited(lines, n, total, i);
      }
    }
    if forall i :: 0 <= i < n ==> (Marked(lines, i, total) <==> Continued(lines, i)) {
      forall i | 0 <= i < n - total && Continued(lines, i) ensures Continued(lines, i + total) {
        assert Marked(lines, i + total, total);
      }
    }
  }

  lemma {:induction false} NoMarkInherited(lines: seq<RowValue>, n: nat, total: nat, i: nat)
    requires 0 < total && i < n
    requires forall j :: 0 <= j < n - total && Continued(lines, j) ==> Continued(lines, j + total)
    ensures Marked(lines, i, total) ==> Continued(lines, i)
    decreases i
  {
    if total <= i {
      NoMarkInherited(lines, n, total, i - total);
    }
  }

  /** An alternate screen of one row with three characters. */
  function Three(): Page {
    P.Page(3, [], [RowValue([Cell(120, []), Cell(121, []), Cell(122, [])], [0, 0, 0], false)], [], 0)
  }

  lemma AddNarrow(f: Flow, c: CodePoint, st: Style)
    requires Width(c) == 1
    ensures |f.cells| < 2 ==> Add(f, Cell(c, []), 0, 2, st) == Flow(f.rows, f.cells + [Cell(c, [])], f.styles + [0])
    ensures |f.cells| == |f.styles| == 2 ==>
      Add(f, Cell(c, []), 0, 2, st) == Flow(f.rows + [RowValue(f.cells, f.styles, true)], [Cell(c, [])], [0])
  {
    if |f.cells| == |f.styles| == 2 {
      assert Filled(f.cells, f.styles, true, 2, st) == RowValue(f.cells, f.styles, true);
      assert [] + [Cell(c, [])] == [Cell(c, [])] && [] + [0] == [0];
    }
  }

  lemma ThreeCells(g: Grid, style: seq<Style>, st: Style)
    requires g == Three().screen[0].grid && style == [0, 0, 0]
    ensures AddCells(EMPTY, g, style, 0, Some(2), 2, st) == Flow([RowValue(g[..2], [0, 0], true)], [g[2]], [0])
  {
    hide Add;
    LatinIsNarrow(120);
    LatinIsNarrow(121);
    LatinIsNarrow(122);
    AddNarrow(EMPTY, 120, st);
    AddNarrow(Flow([], [g[0]], [0]), 121, st);
    AddNarrow(Flow([], g[..2], [0, 0]), 122, st);
    var f1, f2 := Flow([], [g[0]], [0]), Flow([], g[..2], [0, 0]);
    var f3 := Flow([RowValue(g[..2], [0, 0], true)], [g[2]], [0]);
    assert Add(EMPTY, g[0], style[0], 2, st) == f1;
    assert Add(f1, g[1], style[1], 2, st) == f2;
    assert g[2].(marks := []) == g[2] && f2.rows + f3.rows == f3.rows;
    assert AddCells(f2, g, style, 2, Some(2), 2, st) == f3;
    assert AddCells(f1, g, style, 1, Some(2), 2, st) == AddCells(f2, g, style, 2, Some(2), 2, st);
  }

  lemma ThreeLines(st: Style)
    ensures P.Good(Three())
    ensures Laid(Three(), 2, Cursor(0, 2), st) ==
      [RowValue([Cell(120, []), Cell(121, [])], [0, 0], true), RowValue([Cell(122, []), BLANK], [0, st], false)]
  {
    ThreeIsGood();
    hide P.Good, AddCells;
    var row, c := Three().screen[0], Cursor(0, 2);
    ThreeCells(row.grid, row.style, st);
    var f := AddCells(EMPTY, row.grid, row.style, 0, Some(2), 2, st);
    assert row.grid[..2] == [Cell(120, []), Cell(121, [])];
    assert f == Flow([RowValue([Cell(120, []), Cell(121, [])], [0, 0], true)], [Cell(122, [])], [0]);
    assert AddRow(EMPTY, row, Some(2), true, 2, st) == f;
    assert Three().history + Three().screen == [row];
    assert AddRows(f, [row], 1, 0, c, 2, st) == f;
    assert Breaks(EMPTY, 0, 2, st) == EMPTY;
    assert CursorIn(c, 0) == Some(2) && !row.wrap;
    hide AddRow, Breaks;
    assert AddRows(EMPTY, [row], 0, 0, c, 2, st) == AddRows(f, [row], 1, 0, c, 2, st);
    assert Filled([Cell(122, [])], [0], false, 2, st) == RowValue([Cell(122, []), BLANK], [0, st], false);
  }

  lemma ThreeIsGood()
    ensures P.Good(Three())
  {
    LatinIsNarrow(120);
    LatinIsNarrow(121);
    LatinIsNarrow(122);
    var g := Three().screen[0].grid;
    assert SlotOk(g, 0) && SlotOk(g, 1) && SlotOk(g, 2);
  }

  lemma LastRowIsMarked(st: Style)
    ensures P.Good(Three())
    ensures RowAt(Laid(Three(), 2, Cursor(0, 2), st), 1, 1, 2, st) ==
      RowValue([Cell(122, []), BLANK], [0, st], true)
  {
    hide P.Good, Laid;
    ThreeLines(st);
    assert Marked(Laid(Three(), 2, Cursor(0, 2), st), 0, 1);
  }

  /** On two columns its last character is shown alone, in a row that is marked as wrapped although its line ends
      there. */
  lemma MarkIsInherited(st: Style)
    ensures P.Good(Three())
    ensures Reflowed(Three(), 2, 1, 1, Cursor(0, 2), st).page.screen ==
      [RowValue([Cell(122, []), BLANK], [0, st], true)]
  {
    hide P.Good, Laid, RowAt, Reflowed;
    ThreeLines(st);
    LastRowIsMarked(st);
    ReflowFillsLines(Three(), 2, 1, 1, Cursor(0, 2), st);
    var o := Reflowed(Three(), 2, 1, 1, Cursor(0, 2), st);
    assert (o.evicted + (o.page.history + o.page.screen))[1] == o.page.screen[0];
  }
}
