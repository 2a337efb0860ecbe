/** When a change of size keeps the whole text, and pages on which it does not. */
module ResizeText {
  import opened Common
  import opened WcWidth
  import opened Utf16
  import opened Row
  import P = Page
  import Ring
  import F = FastResize
  import opened Reflow
  import opened ReflowText
  import opened ReflowCursor
  import L = ReflowLayout

  // ----- Text that is not space -----

  lemma {:induction false} NoInkExactly(s: seq<CodePoint>)
    ensures Ink(s) == [] <==> IsBlankText(s)
  {
    if s != [] {
      NoInkExactly(s[1..]);
    }
  }

  lemma {:induction false} NoInkInRowsExactly(rows: seq<RowValue>)
    ensures InkOf(rows) == [] <==> forall i :: 0 <= i < |rows| ==> F.IsBlankRow(rows[i])
  {
    hide Ink, IsBlankText, Points;
    if rows != [] {
      NoInkExactly(Points(rows[0].grid));
      NoInkInRowsExactly(rows[1..]);
      assert forall i :: 1 <= i < |rows| ==> rows[i] == rows[1..][i - 1];
    }
  }

  // ----- Fewer rows -----

  /** How many rows at the bottom are given up: as many as there are blank rows anywhere below the cursor. */
  function GivenUp(screen: seq<RowValue>, newRows: nat, cursorRow: nat): (n: nat)
    requires newRows <= |screen| && cursorRow < |screen|
    ensures n <= |screen| - newRows
  {
    Min(|screen| - newRows, F.CountBlank(screen[cursorRow + 1..]))
  }

  lemma DroppedIsGivenUp(p: Page, newRows: nat, cursorRow: nat)
    requires P.Good(p) && 0 < newRows < |p.screen| && cursorRow < |p.screen|
    ensures F.Dropped(p, newRows, cursorRow) == GivenUp(p.screen, newRows, cursorRow)
  {
    hide P.Good, F.CountBlank, F.SkipBlanks;
    var n := |p.screen|;
    F.ShiftIsCounted(p.screen, n - 1, cursorRow, n - newRows);
    assert p.screen[cursorRow + 1..n] == p.screen[cursorRow + 1..];
  }

  /** A shrink keeps all text exactly when the rows at the bottom that it gives up are blank themselves. */
  lemma ShrinkKeepsTextExactly(p: Page, newRows: nat, cursorRow: nat, st: Style)
    requires F.CanResize(p, newRows, false) && newRows < |p.screen| && cursorRow < |p.screen|
    ensures var p' := F.Resize(p, newRows, cursorRow, st, false).0;
      InkOf(p'.history + p'.screen) == InkOf(p.history + p.screen) <==>
      forall i :: |p.screen| - GivenUp(p.screen, newRows, cursorRow) <= i < |p.screen| ==> F.IsBlankRow(p.screen[i])
  {
    F.ShrinkConserves(p, newRows, cursorRow, st);
    DroppedIsGivenUp(p, newRows, cursorRow);
    hide P.Good, InkOf, F.IsBlankRow, GivenUp, F.ShrinkShift;
    var p', kept := F.Resize(p, newRows, cursorRow, st, false).0, F.ShrinkShift(p, newRows, cursorRow) + newRows;
    hide F.Resize;
    var lost := p.screen[kept..];
    InkOfRowsConcat(p'.history + p'.screen, lost);
    NoInkInRowsExactly(lost);
    assert forall i :: kept <= i < |p.screen| ==> p.screen[i] == lost[i - kept];
  }

  /** "a" with the cursor on it, a blank row and "b". */
  function Gap(): Page {
    P.Page(3, [], [L.Line(97), L.Line(SPACE), L.Line(98)], [], 0)
  }

  lemma GapRows()
    ensures P.Good(Gap()) && F.IsBlankRow(Gap().screen[1]) && !F.IsBlankRow(Gap().screen[2])
    ensures GivenUp(Gap().screen, 2, 0) == 1
  {
    L.LinePoints(97);
    L.LinePoints(SPACE);
    L.LinePoints(98);
    hide Points, P.GoodRow, IsBlankText, L.Line;
    var below := Gap().screen[1..];
    assert below == [L.Line(SPACE), L.Line(98)] && below[..1] == [L.Line(SPACE)] && below[..1][..0] == [];
    assert F.CountBlank([]) == 0;
    assert F.CountBlank(below[..1]) == 1;
    assert F.CountBlank(below) == 1;
  }

  /** Shrunk to two rows it loses "b". */
  lemma ShrinkLosesText(st: Style)
    ensures F.CanResize(Gap(), 2, false)
    ensures var p' := F.Resize(Gap(), 2, 0, st, false).0;
      InkOf(p'.history + p'.screen) != InkOf(Gap().history + Gap().screen)
  {
    GapRows();
    hide P.Good, InkOf, F.IsBlankRow, GivenUp, F.Resize;
    ShrinkKeepsTextExactly(Gap(), 2, 0, st);
  }

  /** The row dropped is not what a new blank row is. */
  lemma GapIsNotBlank(st: Style)
    ensures F.CanResize(Gap(), 2, false) && |Gap().screen| == 3 && Gap().history == []
    ensures F.Dropped(Gap(), 2, 0) == 1 && !F.BlankBelow(Gap(), 2, st)
  {
    GapRows();
    BlankIsBlank(3, st, false);
    hide P.Good, F.IsBlankRow, GivenUp, F.Dropped;
    DroppedIsGivenUp(Gap(), 2, 0);
  }

  /** Growing back to three rows does not restore it. */
  lemma GrowingBackLosesText(st: Style, st': Style)
    ensures F.CanResize(Gap(), 2, false)
    ensures var q := F.Grow(F.Resize(Gap(), 2, 0, st, false).0, 3, st');
      q.history + q.screen != Gap().history + Gap().screen
  {
    GapIsNotBlank(st');
    hide P.Good, F.BlankBelow, F.Resize, F.Grow, F.Dropped, Gap;
    F.ShrinkThenGrowExactly(Gap(), 2, 0, st, st');
  }

  lemma BlankIsBlank(columns: nat, st: Style, wrap: bool)
    ensures F.IsBlankRow(BlankRow(columns, st, wrap))
  {
    PointsOfBlank(BlankRow(columns, st, wrap).grid);
  }

  // ----- Another number of columns -----

  /** The code points of a row behind the base in column `k`, if a cell starts there. */
  function BehindBase(g: Grid, k: nat): seq<CodePoint> {
    if k < |g| && g[k].Cell? && k + Width(g[k].base) <= |g|
      then g[k].marks + Points(g[k + Width(g[k].base)..])
    else []
  }

  /** The code points behind the cursor's character on the cursor's row. */
  function BehindCursor(rows: seq<RowValue>, c: Cursor): seq<CodePoint> {
    if c.row < |rows| then BehindBase(rows[c.row].grid, c.col) else []
  }

  lemma RowIsCut(g: Grid, k: nat)
    requires WellFormed(g)
    ensures Points(g) == Kept(Points(g), 0, Some(k)) + BehindBase(g, k)
  {
    hide Points, Kept, WellFormed, Target;
    assert g[0..] == g;
    if g != [] {
      assert g[0].Cell? by { Neighbours(g, 0); }
    }
    if k < |g| && g[k].Cell? {
      KeptToCell(g, 0, k);
      assert g[0..k] == g[..k];
      TextSplit(g, k);
      PointsFrom(g, k);
      Rejoin(Points(g[..k]), g[k].base, g[k].marks, Points(g[k + Width(g[k].base)..]));
    } else {
      KeptWhole(g, 0, k);
    }
  }

  lemma Rejoin(s: seq<CodePoint>, b: CodePoint, m: seq<CodePoint>, t: seq<CodePoint>)
    ensures s + ([b] + m + t) == (s + [b]) + (m + t)
  {
  }

  /** The text is the text with the cut and what was cut off, in length; with nothing cut off they are equal. */
  lemma {:induction false} CutLoses(rows: seq<RowValue>, columns: nat, i: nat, c: Cursor)
    requires P.GoodRows(rows, columns) && i <= |rows|
    ensures var cut := if i <= c.row then Ink(BehindCursor(rows, c)) else [];
      && |InkOf(rows[i..])| == |CutInk(rows, i, c)| + |cut|
      && (cut == [] ==> InkOf(rows[i..]) == CutInk(rows, i, c))
    decreases |rows| - i
  {
    hide Ink, Kept, Points, WellFormed, BehindBase;
    if i < |rows| {
      assert P.GoodRow(rows[i], columns);
      assert rows[i..][1..] == rows[i + 1..];
      CutLoses(rows, columns, i + 1, c);
      var g := rows[i].grid;
      if i == c.row {
        RowIsCut(g, c.col);
        InkConcat(Kept(Points(g), 0, Some(c.col)), BehindBase(g, c.col));
      } else {
        KeptWithoutCursor(Points(g), 0);
      }
    } else {
      assert rows[i..] == [];
      NoInkExactly([]);
    }
  }

  /** A reflow keeps all text exactly when nothing but spaces is behind the cursor's character on its row. */
  lemma ReflowKeepsTextExactly(p: Page, newColumns: nat, newRows: nat, newTotal: nat, c: Cursor, st: Style)
    requires P.Good(p) && 2 <= newColumns && 0 < newRows <= newTotal
    ensures var o := Reflowed(p, newColumns, newRows, newTotal, c, st);
      InkOf(o.evicted) + InkOf(o.page.history + o.page.screen) == InkOf(p.history + p.screen) <==>
      IsBlankText(BehindCursor(p.history + p.screen, c))
  {
    var rows := p.history + p.screen;
    assert P.GoodRows(rows, p.columns);
    ReflowConservesText(p, newColumns, newRows, newTotal, c, st);
    hide P.Good, InkOf, CutInk, P.GoodRows, BehindCursor, Reflowed, IsBlankText;
    assert rows[0..] == rows;
    CutLoses(rows, p.columns, 0, c);
    NoInkExactly(BehindCursor(rows, c));
    BehindOnPage(rows, c);
  }

  lemma BehindOnPage(rows: seq<RowValue>, c: Cursor)
    ensures |rows| <= c.row ==> BehindCursor(rows, c) == []
  {
  }

  /** "ab", in three columns. */
  function Word(): Page {
    P.Page(3, [], [RowValue([Cell(97, []), Cell(98, []), BLANK], [0, 0, 0], false)], [], 0)
  }

  lemma WordRow()
    ensures P.Good(Word()) && BehindCursor(Word().history + Word().screen, Cursor(0, 0)) == [98, SPACE]
  {
    LatinIsNarrow(SPACE);
    LatinIsNarrow(97);
    LatinIsNarrow(98);
    var g := Word().screen[0].grid;
    assert g[1..] == [Cell(98, []), BLANK] && g[1..][1..] == [BLANK] && g[1..][1..][1..] == [];
    assert Points([BLANK]) == [SPACE];
    assert Points(g[1..]) == [98, SPACE];
  }

  /** With the cursor on "a", changing to any other number of columns drops "b". */
  lemma ReflowLosesText(newColumns: nat, newTotal: nat, st: Style)
    requires 2 <= newColumns && 0 < newTotal
    ensures P.Good(Word())
    ensures var o := Reflowed(Word(), newColumns, 1, newTotal, Cursor(0, 0), st);
      InkOf(o.evicted) + InkOf(o.page.history + o.page.screen) != InkOf(Word().history + Word().screen)
  {
    WordRow();
    hide P.Good, BehindCursor, InkOf, Word;
    ReflowKeepsTextExactly(Word(), newColumns, 1, newTotal, Cursor(0, 0), st);
    assert [98, SPACE][0] != SPACE;
  }

  // ----- Fewer rows on the alternate screen -----

  lemma SameSlotsExactly(first: nat, m: nat, total: nat)
    requires first < total && 0 < m < total
    ensures (forall k :: 0 <= k < m ==> Ring.Slot(first, k, m) == Ring.Slot(first, k, total)) <==> first == 0
  {
    Ring.SlotOfSmall(first, total);
    if first == 0 {
      Ring.SlotOfSmall(0, m);
    } else if first < m {
      Ring.SlotOfSmall(first, m);
      assert Ring.Slot(first, m - first, m) != Ring.Slot(first, m - first, total);
    } else {
      assert Ring.Slot(first, 0, m) != Ring.Slot(first, 0, total);
    }
  }

  lemma SlotFurther(first: nat, s: nat, k: nat, total: nat)
    requires s + k < total
    ensures (first + s) % total < total
    ensures Ring.Slot((first + s) % total, k, total) == Ring.Slot(first, s + k, total)
  {
    Ring.SlotIsMod(first, s, total);
    Ring.SlotOfSmall(Ring.Slot(first, s, total), total);
  }

  lemma PositionExactly(first: nat, slot: nat, j: nat, total: nat)
    requires slot < total && j < total
    ensures Ring.Position(first, slot, total) == j <==> slot == Ring.Slot(first, j, total)
  {
  }

  /** Shrinking the alternate screen shortens its ring without moving a row. The rows shown are the right ones, in
      order, exactly when the screen then starts at the first slot of the ring. */
  lemma AlternateShrinkExactly(p: Page, newRows: nat, s: nat)
    requires F.CanMove(p, s, newRows, true) && newRows < |p.screen|
    ensures var from, p' := F.MovedFrom(p, s, newRows, true), F.MoveScreen(p, s, newRows, true);
      && |p'.screen| == |from| == newRows
      && (forall k :: 0 <= k < newRows ==> from[k] < |p.screen| && p'.screen[k] == p.screen[from[k]])
      && ((forall k :: 0 <= k < newRows ==> from[k] == s + k) <==> (p.first + s) % |p.screen| == 0)
  {
    hide P.Good, Ring.Slot, Ring.Position;
    var total, first, from := |p.screen|, (p.first + s) % |p.screen|, F.MovedFrom(p, s, newRows, true);
    SameSlotsExactly(first, newRows, total);
    forall k | 0 <= k < newRows
      ensures from[k] == s + k <==> Ring.Slot(first, k, newRows) == Ring.Slot(first, k, total)
    {
      SlotFurther(p.first, s, k, total);
      PositionExactly(p.first, Ring.Slot(first, k, newRows), s + k, total);
    }
  }

  /** "a", "b" and "c" with the cursor on the last of them. */
  function Three(): Page {
    P.Page(3, [], [L.Line(97), L.Line(98), L.Line(99)], [], 0)
  }

  /** On the alternate screen, shrunk to two rows, they become "b" and "a", with the cursor on "a". */
  lemma AlternateShrinkScrambles(st: Style)
    ensures F.CanResize(Three(), 2, true)
    ensures F.Resize(Three(), 2, 2, st, true) == (P.Page(3, [], [L.Line(98), L.Line(97)], [], 1), 1)
  {
    L.LinePoints(97);
    L.LinePoints(98);
    L.LinePoints(99);
    hide Points, P.GoodRow, IsBlankText, L.Line;
    assert F.SkipBlanks(Three().screen, 2, 2, 1) == 1;
    assert F.ShrinkRing(Three(), 2, 1).screen == [L.Line(98), L.Line(97)];
  }
}
