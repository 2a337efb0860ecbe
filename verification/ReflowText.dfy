/** A reflow conserves text: what is not a space is output in the order in which it was read. */
module ReflowText {
  import opened Common
  import opened WcWidth
  import opened Utf16
  import opened Row
  import RowCopy
  import P = Page
  import opened Reflow

  /** The code points that are not spaces. */
  function Ink(s: seq<CodePoint>): seq<CodePoint> {
    if s == [] then [] else (if s[0] == SPACE then [] else [s[0]]) + Ink(s[1..])
  }

  function RowInk(r: RowValue): seq<CodePoint> {
    Ink(Points(r.grid))
  }

  function InkOf(rows: seq<RowValue>): seq<CodePoint> {
    if rows == [] then [] else RowInk(rows[0]) + InkOf(rows[1..])
  }

  /** The part of a row that is copied: up to and including the base of the cell at the cursor. */
  function Kept(s: seq<CodePoint>, col: nat, cursor: Option<nat>): seq<CodePoint> {
    if s == [] then []
    else if Width(s[0]) > 0 && cursor == Some(col) then [s[0]]
    else [s[0]] + Kept(s[1..], col + Width(s[0]), cursor)
  }

  /** The text of the old rows, the row of the cursor being cut behind the cursor. */
  function CutInk(rows: seq<RowValue>, i: nat, c: Cursor): seq<CodePoint>
    requires i <= |rows|
    decreases |rows| - i
  {
    if i == |rows| then []
    else Ink(Kept(Points(rows[i].grid), 0, CursorIn(c, i))) + CutInk(rows, i + 1, c)
  }

  // ----- Lists of code points -----

  lemma {:induction false} InkConcat(s: seq<CodePoint>, t: seq<CodePoint>)
    ensures Ink(s + t) == Ink(s) + Ink(t)
  {
    if s == [] {
      assert s + t == t;
    } else {
      assert (s + t)[1..] == s[1..] + t;
      InkConcat(s[1..], t);
    }
  }

  lemma {:induction false} InkOfBlank(s: seq<CodePoint>)
    requires IsBlankText(s)
    ensures Ink(s) == []
  {
    if s != [] {
      InkOfBlank(s[1..]);
    }
  }

  lemma {:induction false} InkOfRowsConcat(a: seq<RowValue>, b: seq<RowValue>)
    ensures InkOf(a + b) == InkOf(a) + InkOf(b)
  {
    hide RowInk;
    if a == [] {
      assert a + b == b;
    } else {
      var x, y, z := RowInk(a[0]), InkOf(a[1..]), InkOf(b);
      calc {
        InkOf(a + b);
        { assert (a + b)[1..] == a[1..] + b; }
        x + InkOf(a[1..] + b);
        { InkOfRowsConcat(a[1..], b); }
        x + (y + z);
        (x + y) + z;
      }
    }
  }

  lemma {:induction false} InkOfTrimmed(s: seq<CodePoint>)
    ensures Ink(TrimRight(s)) == Ink(s)
  {
    if s != [] && s[|s| - 1] == SPACE {
      var t := s[..|s| - 1];
      InkOfTrimmed(t);
      assert s == t + [SPACE];
      InkConcat(t, [SPACE]);
    }
  }

  lemma {:induction false} KeptWithoutCursor(s: seq<CodePoint>, col: nat)
    ensures Kept(s, col, None) == s
  {
    if s != [] {
      KeptWithoutCursor(s[1..], col + Width(s[0]));
    }
  }

  lemma {:induction false} KeptIsPrefix(s: seq<CodePoint>, col: nat, cursor: Option<nat>)
    ensures Kept(s, col, cursor) <= s
  {
    if s != [] && !(Width(s[0]) > 0 && cursor == Some(col)) {
      KeptIsPrefix(s[1..], col + Width(s[0]), cursor);
    }
  }

  lemma BlankRowsKeepNothing(s: seq<CodePoint>, cursor: Option<nat>)
    requires IsBlankText(s)
    ensures Ink(Kept(s, 0, cursor)) == []
  {
    KeptIsPrefix(s, 0, cursor);
    InkOfBlank(Kept(s, 0, cursor));
  }

  // ----- Rows that are blank from some column on -----

  predicate BlankFrom(g: Grid, k: nat) {
    forall j :: k <= j < |g| ==> g[j] == BLANK
  }

  lemma {:induction false} PointsOfBlank(g: Grid)
    requires BlankFrom(g, 0)
    ensures IsBlankText(Points(g))
  {
    if g != [] {
      PointsOfBlank(g[1..]);
      assert SlotPoints(g[0]) == [SPACE];
    }
  }

  lemma InkUpTo(g: Grid, k: nat)
    requires k <= |g| && BlankFrom(g, k)
    ensures Ink(Points(g)) == Ink(Points(g[..k]))
  {
    hide Points, Ink, IsBlankText;
    TextSplit(g, k);
    InkConcat(Points(g[..k]), Points(g[k..]));
    PointsOfBlank(g[k..]);
    InkOfBlank(Points(g[k..]));
  }

  /** Writing behind the text appends to it. */
  lemma PlaceAppends(g: Grid, k: nat, c: CodePoint)
    requires WellFormed(g) && k + Width(c) <= |g| && BlankFrom(g, k) && 0 < Width(c)
    ensures var g' := Place(g, k, c);
      |g'| == |g| && BlankFrom(g', k + Width(c)) && Points(g'[..k + Width(c)]) == Points(g[..k]) + [c]
  {
    hide Points, WellFormed;
    LatinIsNarrow(SPACE);
    var w := Width(c);
    var g' := Place(g, k, c);
    assert g'[..k + w] == g[..k] + if w == 2 then [Cell(c, []), Rest] else [Cell(c, [])];
    PointsOfOne(c, w);
    PointsConcat(g[..k], if w == 2 then [Cell(c, []), Rest] else [Cell(c, [])]);
  }

  lemma PointsOfOne(c: CodePoint, w: int)
    ensures Points(if w == 2 then [Cell(c, []), Rest] else [Cell(c, [])]) == [c]
  {
    assert [Cell(c, []), Rest][1..] == [Rest] && [Rest][1..] == [] && [Cell(c, [])][1..] == [];
    assert SlotPoints(Cell(c, [])) == [c];
    assert Points([Rest]) == [];
    assert Points([]) == [];
  }

  lemma MarkAppends(g: Grid, k: nat, c: CodePoint)
    requires WellFormed(g) && 0 < k <= |g| && BlankFrom(g, k) && Width(c) == 0
    ensures var g' := Place(g, k - 1, c);
      |g'| == |g| && BlankFrom(g', k) && Points(g'[..k]) == Points(g[..k]) + [c]
  {
    Neighbours(g, k - 1);
    var h := Head(g, k - 1);
    assert SlotOk(g, h);
    hide Points, WellFormed;
    var end := if h + 1 == k then [] else [Rest];
    assert h + 1 + |end| == k && (end == [Rest] ==> g[h + 1] == Rest);
    assert g[h + 1..h + 1 + |end|] == end;
    MarkedPrefix(g, h, end, c);
    assert g[..k] == g[..h + 1 + |end|];
  }

  lemma MarkedPrefix(g: Grid, h: nat, end: Grid, c: CodePoint)
    requires h + 1 + |end| <= |g| && g[h].Cell? && g[h + 1..h + 1 + |end|] == end
    requires end == [] || end == [Rest]
    ensures var g', k := g[h := g[h].(marks := g[h].marks + [c])], h + 1 + |end|;
      Points(g'[..k]) == Points(g[..k]) + [c]
  {
    hide Points;
    var k := h + 1 + |end|;
    var cell := g[h].(marks := g[h].marks + [c]);
    var g' := g[h := cell];
    assert g[..k] == g[..h] + ([g[h]] + end);
    assert g'[..k] == g[..h] + ([cell] + end);
    PointsConcat(g[..h], [g[h]] + end);
    PointsConcat(g[..h], [cell] + end);
    PointsOfLast(g[h], end);
    PointsOfLast(cell, end);
  }

  lemma PointsOfLast(s: Slot, end: Grid)
    requires end == [] || end == [Rest]
    ensures Points([s] + end) == SlotPoints(s)
  {
    assert ([s] + end)[1..] == end;
    assert end == [Rest] ==> end[1..] == [];
    assert Points(end) == [];
  }

  // ----- The output -----

  /** The rows below the output row, and the columns from the output column on, are blank. */
  ghost predicate Tidy(o: Output) {
    && Ready(o)
    && BlankFrom(o.page.screen[o.at.row].grid, o.at.col)
    && forall i :: o.at.row < i < |o.page.screen| ==> BlankFrom(o.page.screen[i].grid, 0)
  }

  function OutInk(o: Output): seq<CodePoint> {
    InkOf(AllRows(o))
  }

  lemma {:induction false} BlankRowsHaveNoInk(rows: seq<RowValue>)
    requires forall i :: 0 <= i < |rows| ==> BlankFrom(rows[i].grid, 0)
    ensures InkOf(rows) == []
  {
    if rows != [] {
      PointsOfBlank(rows[0].grid);
      InkOfBlank(Points(rows[0].grid));
      BlankRowsHaveNoInk(rows[1..]);
    }
  }

  /** The rows above the output row. */
  function Above(o: Output): seq<RowValue>
    requires o.at.row < |o.page.screen|
  {
    o.evicted + o.page.history + o.page.screen[..o.at.row]
  }

  lemma TidyInk(o: Output)
    requires Tidy(o)
    ensures OutInk(o) == InkOf(Above(o)) + RowInk(o.page.screen[o.at.row])
  {
    hide P.Good, RowInk, InkOf, BlankFrom;
    var row, below := [o.page.screen[o.at.row]], o.page.screen[o.at.row + 1..];
    assert AllRows(o) == Above(o) + row + below;
    InkOfRowsConcat(Above(o) + row, below);
    InkOfRowsConcat(Above(o), row);
    BlankRowsHaveNoInk(below);
    InkOfOne(row[0]);
  }

  lemma InkOfOne(r: RowValue)
    ensures InkOf([r]) == RowInk(r)
  {
    assert [r][1..] == [];
    assert InkOf([]) == [];
  }

  lemma FreshIsTidy(columns: nat, rows: nat, total: nat, st: Style)
    requires 2 <= columns && 0 < rows <= total
    ensures Tidy(Fresh(columns, rows, total, st)) && OutInk(Fresh(columns, rows, total, st)) == []
  {
    hide P.Good;
    var o := Fresh(columns, rows, total, st);
    BlankRowsHaveNoInk(AllRows(o));
  }

  lemma LineFeedKeeps(o: Output, st: Style, follow: bool)
    requires Tidy(o)
    ensures Tidy(LineFeed(o, st, follow)) && OutInk(LineFeed(o, st, follow)) == OutInk(o)
  {
    hide P.Good, InkOf;
    var o' := LineFeed(o, st, follow);
    if o.at.row == |o.page.screen| - 1 {
      var blank := o'.page.screen[o.at.row];
      assert AllRows(o') == AllRows(o) + [blank];
      InkOfRowsConcat(AllRows(o), [blank]);
      BlankRowsHaveNoInk([blank]);
    }
  }

  lemma {:induction false} LineFeedsKeep(o: Output, n: nat, st: Style)
    requires Tidy(o)
    ensures Tidy(LineFeeds(o, n, st)) && OutInk(LineFeeds(o, n, st)) == OutInk(o)
    decreases n
  {
    hide P.Good, InkOf, Tidy, LineFeed;
    TidyIsReady(o);
    if n > 0 {
      LineFeedKeeps(o, st, false);
      LineFeedsKeep(LineFeed(o, st, false), n - 1, st);
    }
  }

  /** Marking the output row as wrapped changes no text. */
  lemma WrapKeeps(o: Output, w: nat, st: Style)
    requires Tidy(o) && w <= 2
    ensures Tidy(WrapFor(o, w, st)) && OutInk(WrapFor(o, w, st)) == OutInk(o)
  {
    hide P.Good, InkOf, BlankFrom, LineFeed;
    if o.at.col + w > o.page.columns {
      var o1 := o.(page := P.SetLineWrap(o.page, o.at.row, true));
      assert Above(o1) == Above(o);
      TidyInk(o);
      TidyInk(o1);
      LineFeedKeeps(o1, st, true);
    }
  }

  /** The column where a code point is written. */
  function Column(col: nat, c: CodePoint): nat {
    if Width(c) == 0 && col > 0 then col - 1 else col
  }

  lemma RowAppends(g: Grid, col: nat, c: CodePoint)
    requires WellFormed(g) && col + Width(c) <= |g| && BlankFrom(g, col) && (0 < Width(c) || 0 < col)
    ensures var g' := Place(g, Column(col, c), c);
      |g'| == |g| && BlankFrom(g', col + Width(c)) && Ink(Points(g')) == Ink(Points(g)) + Ink([c])
  {
    hide Place, WellFormed, Points, Ink, BlankFrom;
    var g', w := Place(g, Column(col, c), c), Width(c);
    if w == 0 {
      MarkAppends(g, col, c);
    } else {
      PlaceAppends(g, col, c);
    }
    InkUpTo(g, col);
    InkUpTo(g', col + w);
    InkConcat(Points(g[..col]), [c]);
  }

  lemma EmitAppends(o: Output, c: CodePoint, sty: Style)
    requires Tidy(o) && o.at.col + Width(c) <= o.page.columns && (0 < Width(c) || 0 < o.at.col)
    ensures Tidy(Emit(o, c, sty)) && OutInk(Emit(o, c, sty)) == OutInk(o) + Ink([c])
  {
    assert P.GoodRow(o.page.screen[o.at.row], o.page.columns);
    hide P.Good, InkOf, Place, PlaceStyle, WellFormed, Points, Ink, BlankFrom, Tidy, OutInk;
    RowAppends(o.page.screen[o.at.row].grid, o.at.col, c);
    RowEdited(o, Emit(o, c, sty), Ink([c]));
  }

  lemma RowEdited(o: Output, o': Output, more: seq<CodePoint>)
    requires Tidy(o) && Ready(o') && o'.at.row == o.at.row
    requires |o'.page.screen| == |o.page.screen| && o' == o.(page := o.page.(screen := o'.page.screen), at := o'.at)
    requires forall i :: 0 <= i < |o.page.screen| && i != o.at.row ==> o'.page.screen[i] == o.page.screen[i]
    requires BlankFrom(o'.page.screen[o.at.row].grid, o'.at.col)
    requires RowInk(o'.page.screen[o.at.row]) == RowInk(o.page.screen[o.at.row]) + more
    ensures Tidy(o') && OutInk(o') == OutInk(o) + more
  {
    hide P.Good, InkOf, RowInk, BlankFrom;
    assert Above(o') == Above(o);
    TidyInk(o);
    TidyInk(o');
  }

  lemma StepAppends(o: Output, c: CodePoint, from: Source, st: Style)
    requires Tidy(o) && (0 < Width(c) || 0 < o.at.col)
    ensures var o' := Step(o, c, from, st);
      Tidy(o') && OutInk(o') == OutInk(o) + Ink([c]) && (0 < Width(c) || 0 < o'.at.col)
  {
    hide P.Good, InkOf, Ink, LineFeed, BlankFrom, Emit;
    WrapKeeps(o, Width(c), st);
    EmitAppends(WrapFor(o, Width(c), st), c, from.sty);
    assert AllRows(Step(o, c, from, st)) == AllRows(PutPoint(o, c, from.sty, st));
  }

  lemma {:induction false} CopyPointsAppends(o: Output, s: seq<CodePoint>, style: seq<Style>, from: Source, st: Style)
    requires Tidy(o) && from.col + RowCopy.TotalWidth(s) <= |style|
    requires s == [] || 0 < Width(s[0]) || 0 < o.at.col
    ensures var o' := CopyPoints(o, s, style, from, st);
      Tidy(o') && OutInk(o') == OutInk(o) + Ink(Kept(s, from.col, from.cursor))
    decreases s
  {
    hide P.Good, InkOf, Tidy, Step, Ready, Kept, CopyPoints, Here, Restyle, Ink, OutInk, Width, AllRows;
    TidyIsReady(o);
    if s != [] {
      var c, src := s[0], Restyle(from, s[0], style);
      CopyUnfold(o, s, style, from, st);
      KeptUnfold(s, src, from);
      StepAppends(o, c, src, st);
      if !Here(src, c) {
        var next := src.(col := src.col + Width(c));
        StepColumn(o, c, src, st);
        CopyPointsAppends(Step(o, c, src, st), s[1..], style, next, st);
        InkConcat([c], Kept(s[1..], next.col, next.cursor));
      }
    } else {
      NothingCopied(o, style, from, st);
    }
  }

  lemma NothingCopied(o: Output, style: seq<Style>, from: Source, st: Style)
    requires Ready(o) && from.col <= |style|
    ensures CopyPoints(o, [], style, from, st) == o && Ink(Kept([], from.col, from.cursor)) == []
  {
  }

  lemma {:induction false} KeptUnfold(s: seq<CodePoint>, src: Source, from: Source)
    requires s != [] && src.col == from.col && src.cursor == from.cursor
    ensures Kept(s, from.col, from.cursor) ==
      if Here(src, s[0]) then [s[0]] else [s[0]] + Kept(s[1..], src.col + Width(s[0]), src.cursor)
  {
    hide Width;
  }

  lemma TidyIsReady(o: Output)
    requires Tidy(o)
    ensures Ready(o)
  {
  }

  lemma StepColumn(o: Output, c: CodePoint, from: Source, st: Style)
    requires Ready(o)
    ensures 0 < Width(c) ==> 0 < Step(o, c, from, st).at.col
  {
  }

  lemma RowStartsWithBase(r: RowValue, columns: nat, cursor: Option<nat>)
    requires P.GoodRow(r, columns)
    ensures var s := Taken(r, cursor); s == [] || 0 < Width(s[0])
  {
    RowCopy.WidthOfCells(r.grid);
  }

  lemma TakenInk(r: RowValue, cursor: Option<nat>)
    ensures Ink(Kept(Taken(r, cursor), 0, cursor)) == Ink(Kept(Points(r.grid), 0, cursor))
  {
    if cursor.None? {
      KeptWithoutCursor(Points(r.grid), 0);
      KeptWithoutCursor(Taken(r, cursor), 0);
      InkOfTrimmed(Points(r.grid));
    }
  }

  lemma CopyRowAppends(o: Output, r: RowValue, cursor: Option<nat>, last: bool, columns: nat, st: Style)
    requires Tidy(o) && P.GoodRow(r, columns)
    ensures var o' := CopyRow(o, r, cursor, last, columns, st);
      Tidy(o') && OutInk(o') == OutInk(o) + Ink(Kept(Points(r.grid), 0, cursor))
  {
    hide P.Good, InkOf, Ink, Kept, Tidy, Ready, CopyPoints, LineFeed, Taken, WellFormed;
    TidyIsReady(o);
    TakenFits(r, cursor, columns);
    RowStartsWithBase(r, columns, cursor);
    TakenInk(r, cursor);
    CopyPointsAppends(o, Taken(r, cursor), r.style, Source(0, 0, cursor), st);
    LineFeedKeeps(CopyPoints(o, Taken(r, cursor), r.style, Source(0, 0, cursor), st), st, true);
  }

  lemma {:induction false} CopyRowsAppends(
    o: Output, rows: seq<RowValue>, i: nat, skipped: nat, c: Cursor, columns: nat, st: Style)
    requires Tidy(o) && P.GoodRows(rows, columns) && i <= |rows|
    ensures var o' := CopyRows(o, rows, i, skipped, c, columns, st);
      Tidy(o') && OutInk(o') == OutInk(o) + CutInk(rows, i, c)
    decreases |rows| - i
  {
    hide P.Good, InkOf, Ink, Kept, Tidy, Ready, CopyRow, LineFeeds, P.GoodRow, IsBlankText, Points;
    TidyIsReady(o);
    if i < |rows| {
      assert P.GoodRow(rows[i], columns);
      if Skipped(o, rows[i], c, i) {
        BlankRowsKeepNothing(Points(rows[i].grid), CursorIn(c, i));
        CopyRowsAppends(o, rows, i + 1, skipped + 1, c, columns, st);
      } else {
        LineFeedsKeep(o, skipped, st);
        var o1 := LineFeeds(o, skipped, st);
        TidyIsReady(o1);
        var o2 := CopyRow(o1, rows[i], CursorIn(c, i), i == |rows| - 1, columns, st);
        CopyRowAppends(o1, rows[i], CursorIn(c, i), i == |rows| - 1, columns, st);
        CopyRowsAppends(o2, rows, i + 1, 0, c, columns, st);
      }
    }
  }

  /** A reflow conserves text: the code points other than spaces that were evicted from the full ring, followed by
      those of the new history and screen, are those of the old history and screen in order, the row of the cursor
      being cut behind the base character at the cursor. Nothing is evicted unless the new ring is full. */
  lemma ReflowConservesText(p: Page, newColumns: nat, newRows: nat, newTotal: nat, c: Cursor, st: Style)
    requires P.Good(p) && 2 <= newColumns && 0 < newRows <= newTotal
    ensures var o := Reflowed(p, newColumns, newRows, newTotal, c, st);
      && InkOf(o.evicted) + InkOf(o.page.history + o.page.screen) == CutInk(p.history + p.screen, 0, c)
      && (o.evicted != [] ==> |o.page.history| + |o.page.screen| == newTotal)
  {
    assert P.GoodRows(p.history + p.screen, p.columns);
    hide P.Good, InkOf, CutInk, CopyRows, P.GoodRows, Fresh, Tidy, P.GoodRow, Ready, AllRows, OutInk;
    var o := Reflowed(p, newColumns, newRows, newTotal, c, st);
    if o.evicted != [] {
      EvictedWhenFull(o);
    }
    FreshIsTidy(newColumns, newRows, newTotal, st);
    var o0 := Fresh(newColumns, newRows, newTotal, st);
    CopyRowsAppends(o0, p.history + p.screen, 0, 0, c, p.columns, st);
    assert OutInk(o) == CutInk(p.history + p.screen, 0, c);
    InkOfAll(o);
  }

  lemma InkOfAll(o: Output)
    ensures OutInk(o) == InkOf(o.evicted) + InkOf(o.page.history + o.page.screen)
  {
    hide InkOf;
    assert AllRows(o) == o.evicted + (o.page.history + o.page.screen);
    InkOfRowsConcat(o.evicted, o.page.history + o.page.screen);
  }

  lemma EvictedWhenFull(o: Output)
    requires Ready(o) && o.evicted != []
    ensures |o.page.history| + |o.page.screen| == P.Total(o.page)
  {
  }

  // ----- The cursor -----

  /** The base that the cursor is placed on. */
  function Target(s: seq<CodePoint>, col: nat, cursor: Option<nat>): Option<CodePoint> {
    if s == [] then None
    else if Width(s[0]) > 0 && cursor == Some(col) then Some(s[0])
    else Target(s[1..], col + Width(s[0]), cursor)
  }

  lemma {:induction false} MarksAreNoTarget(m: seq<CodePoint>, t: seq<CodePoint>, col: nat, cursor: Option<nat>)
    requires AllMarks(m)
    ensures Kept(m + t, col, cursor) == m + Kept(t, col, cursor) && Target(m + t, col, cursor) == Target(t, col, cursor)
  {
    if m == [] {
      assert m + t == t;
    } else {
      assert (m + t)[1..] == m[1..] + t;
      MarksAreNoTarget(m[1..], t, col, cursor);
    }
  }

  /** When the cursor's column starts a cell, the row is kept up to and including that cell's base. */
  lemma {:induction false} KeptToCell(g: Grid, at: nat, k: nat)
    requires WellFormed(g) && at <= k < |g| && g[at].Cell? && g[k].Cell?
    ensures Kept(Points(g[at..]), at, Some(k)) == Points(g[at..k]) + [g[k].base]
    ensures Target(Points(g[at..]), at, Some(k)) == Some(g[k].base)
    decreases |g| - at
  {
    hide Points, WellFormed, Kept, Target, SlotPoints, Width;
    var b, m, next := g[at].base, g[at].marks, at + Width(g[at].base);
    NextIsBase(g, at);
    MarksOf(g, at);
    KeptCell(b, m, Points(g[next..]), at, k);
    assert Points(g[at..]) == [b] + (m + Points(g[next..]));
    if at == k {
      PointsOfNothing(g, k);
    } else {
      Neighbours(g, at);
      KeptToCell(g, next, k);
      PointsBetween(g, at, next, k);
      Regroup(b, m, Points(g[next..k]), g[k].base);
    }
  }

  /** When it does not, the whole row is kept. */
  lemma {:induction false} KeptWhole(g: Grid, at: nat, k: nat)
    requires WellFormed(g) && at <= |g| && (at < |g| ==> g[at].Cell?) && !(at <= k < |g| && g[k].Cell?)
    ensures Kept(Points(g[at..]), at, Some(k)) == Points(g[at..])
    ensures Target(Points(g[at..]), at, Some(k)) == None
    decreases |g| - at
  {
    hide Points, WellFormed, Kept, Target, SlotPoints, Width;
    if at < |g| {
      var b, m, next := g[at].base, g[at].marks, at + Width(g[at].base);
      NextIsBase(g, at);
      MarksOf(g, at);
      KeptCell(b, m, Points(g[next..]), at, k);
      assert Points(g[at..]) == [b] + (m + Points(g[next..]));
      KeptWhole(g, next, k);
    } else {
      PointsOfNothing(g, at);
      NothingKept(at, Some(k));
    }
  }

  lemma Regroup(b: CodePoint, m: seq<CodePoint>, t: seq<CodePoint>, c: CodePoint)
    ensures ([b] + (m + t)) + [c] == [b] + (m + (t + [c]))
  {
  }

  lemma NothingKept(col: nat, cursor: Option<nat>)
    ensures Kept([], col, cursor) == [] && Target([], col, cursor) == None
  {
  }

  lemma KeptCell(b: CodePoint, m: seq<CodePoint>, t: seq<CodePoint>, at: nat, k: nat)
    requires Width(b) > 0 && AllMarks(m)
    ensures var s, cursor, next := [b] + (m + t), Some(k), at + Width(b);
      && Kept(s, at, cursor) == (if at == k then [b] else [b] + (m + Kept(t, next, cursor)))
      && Target(s, at, cursor) == if at == k then Some(b) else Target(t, next, cursor)
  {
    assert ([b] + (m + t))[1..] == m + t;
    MarksAreNoTarget(m, t, at + Width(b), Some(k));
  }

  lemma PointsOfNothing(g: Grid, k: nat)
    requires k <= |g|
    ensures Points(g[k..k]) == [] && (k == |g| ==> Points(g[k..]) == [])
  {
  }

  lemma PointsBetween(g: Grid, at: nat, next: nat, k: nat)
    requires WellFormed(g) && at < next <= k <= |g| && g[at].Cell? && next == at + Width(g[at].base)
    ensures Points(g[at..k]) == [g[at].base] + (g[at].marks + Points(g[next..k]))
  {
    hide Points;
    Neighbours(g, at);
    var cells, end := g[at..k], if Width(g[at].base) == 2 then [Rest] else [];
    assert cells == ([g[at]] + end) + g[next..k];
    PointsConcat([g[at]] + end, g[next..k]);
    PointsOfLast(g[at], end);
    ConsAppend(g[at].base, g[at].marks, Points(g[next..k]));
  }
}
