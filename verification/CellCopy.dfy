/** Copying part of a row, cell by cell: every cell of the target, wide characters and marks included. */
module CellCopy {
  import opened WcWidth
  import opened Utf16
  import opened Row
  import opened RowCopy

  // ----- Writing a list of code points -----

  /** What writing does to the cells: a base goes behind the last one written, which started at `dx` and was `last`
      columns wide; a mark goes to that one. */
  function WritePoints(g: Grid, s: seq<CodePoint>, dx: nat, last: nat): (g': Grid)
    requires dx + last + TotalWidth(s) <= |g| && (s == [] || last > 0 || Width(s[0]) > 0)
    ensures |g'| == |g|
    decreases s
  {
    if s == [] then g
    else
      var d, w := if Width(s[0]) > 0 then dx + last else dx, if Width(s[0]) > 0 then Width(s[0]) else last;
      WritePoints(Place(g, d, s[0]), s[1..], d, w)
  }

  lemma WriteFirst(g: Grid, s: seq<CodePoint>, dx: nat, last: nat)
    requires dx + last + TotalWidth(s) <= |g| && s != [] && (last > 0 || Width(s[0]) > 0)
    ensures var d, w := if Width(s[0]) > 0 then dx + last else dx, if Width(s[0]) > 0 then Width(s[0]) else last;
      && d + Width(s[0]) <= |g| && d < |g| && d + w + TotalWidth(s[1..]) <= |g| && w > 0
      && |Place(g, d, s[0])| == |g|
      && WritePoints(g, s, dx, last) == WritePoints(Place(g, d, s[0]), s[1..], d, w)
  {
  }

  lemma CanWritePoints(r: RowValue, s: seq<CodePoint>, from: StyleSource, cur: RowCopy.Cursor)
    requires CanWrite(r, s, from, cur)
    ensures cur.dx + cur.last + TotalWidth(s) <= |r.grid| && (s == [] || cur.last > 0 || Width(s[0]) > 0)
  {
  }

  /** The styles play no part in it. */
  lemma {:induction false} GridOfWrite(r: RowValue, s: seq<CodePoint>, from: StyleSource, cur: RowCopy.Cursor)
    requires CanWrite(r, s, from, cur)
    ensures cur.dx + cur.last + TotalWidth(s) <= |r.grid| && (s == [] || cur.last > 0 || Width(s[0]) > 0)
    ensures WriteAll(r, s, from, cur).grid == WritePoints(r.grid, s, cur.dx, cur.last)
    decreases s
  {
    hide Place, PlaceStyle, TotalWidth, Width, CanWrite, WritePoints, Styles;
    CanWritePoints(r, s, from, cur);
    if s != [] {
      WriteUnfold(r, s, from, cur);
      WriteFirst(r.grid, s, cur.dx, cur.last);
      var next := Advance(cur, Width(s[0]));
      GridOfWrite(WriteOne(r, s[0], from, next), s[1..], from, next);
    } else {
      NoPoints(r.grid, cur.dx, cur.last);
    }
  }

  lemma NoPoints(g: Grid, dx: nat, last: nat)
    requires dx + last <= |g|
    ensures TotalWidth([]) == 0 && WritePoints(g, [], dx, last) == g
  {
  }

  /** The cell at column `k` with more marks. */
  function Marked(g: Grid, k: nat, m: seq<CodePoint>): (g': Grid)
    requires k < |g| && g[k].Cell?
    ensures |g'| == |g| && g'[k].Cell?
  {
    g[k := g[k].(marks := g[k].marks + m)]
  }

  lemma WriteMark(g: Grid, c: CodePoint, s: seq<CodePoint>, dx: nat, last: nat)
    requires Width(c) == 0 && 0 < last && dx + last + TotalWidth(s) <= |g| && g[dx].Cell?
    ensures TotalWidth([c] + s) == TotalWidth(s)
    ensures WritePoints(g, [c] + s, dx, last) == WritePoints(Marked(g, dx, [c]), s, dx, last)
  {
    assert ([c] + s)[1..] == s;
    assert Place(g, dx, c) == Marked(g, dx, [c]);
    hide Place, Marked;
  }

  /** Marks join the cell written last. */
  lemma {:induction false} WriteMarks(g: Grid, m: seq<CodePoint>, s: seq<CodePoint>, dx: nat, last: nat)
    requires AllMarks(m) && 0 < last && dx + last + TotalWidth(s) <= |g| && g[dx].Cell?
    ensures TotalWidth(m + s) == TotalWidth(s)
    ensures WritePoints(g, m + s, dx, last) == WritePoints(Marked(g, dx, m), s, dx, last)
    decreases m
  {
    hide WritePoints, TotalWidth;
    TotalWidthConcat(m, s);
    MarksHaveNoWidth(m);
    if m == [] {
      assert m + s == s;
      assert g[dx].marks + [] == g[dx].marks;
      assert Marked(g, dx, []) == g;
    } else {
      assert m + s == [m[0]] + (m[1..] + s);
      TotalWidthConcat(m[1..], s);
      MarksHaveNoWidth(m[1..]);
      WriteMark(g, m[0], m[1..] + s, dx, last);
      WriteMarks(Marked(g, dx, [m[0]]), m[1..], s, dx, last);
      MarkedTwice(g, dx, m);
    }
  }

  lemma MarkedTwice(g: Grid, k: nat, m: seq<CodePoint>)
    requires k < |g| && g[k].Cell? && m != []
    ensures Marked(Marked(g, k, [m[0]]), k, m[1..]) == Marked(g, k, m)
  {
    assert g[k].marks + [m[0]] + m[1..] == g[k].marks + m;
  }

  // ----- Writing cells -----

  /** A cell written over column `k`. */
  function PlaceCell(g: Grid, k: nat, c: Slot): (g': Grid)
    requires c.Cell? && k + Width(c.base) <= |g| && k < |g|
  {
    var h := Place(g, k, c.base);
    if h[k].Cell? then Marked(h, k, c.marks) else h
  }

  /** The marks that a wide character written at column `k` takes over. */
  function TakenOver(g: Grid, k: nat): seq<CodePoint> {
    if k + 2 < |g| && g[k + 1].Cell? && !WideAt(g, k + 1) then g[k + 1].marks else []
  }

  /** Column `k` after the cells `c` were written from column `dx` on. */
  function Written(g: Grid, c: Grid, dx: nat, k: nat): Slot
    requires dx + |c| <= |g| && k < |g|
  {
    if dx <= k < dx + |c| then
      if WideAt(c, k - dx) then c[k - dx].(marks := TakenOver(g, k) + c[k - dx].marks) else c[k - dx]
    else if c != [] && ((k + 1 == dx && g[dx].Rest?) || (k == dx + |c| && g[k].Rest?)) then BLANK
    else g[k]
  }

  lemma PlaceCellAt(g: Grid, k: nat, c: Slot, j: nat)
    requires WellFormed(g) && c.Cell? && 0 < Width(c.base) && AllMarks(c.marks) && k + Width(c.base) <= |g| && j < |g|
    ensures var cells := if Width(c.base) == 2 then [c, Rest] else [c];
      |PlaceCell(g, k, c)| == |g| && PlaceCell(g, k, c)[j] == Written(g, cells, k, j)
    ensures WellFormed(PlaceCell(g, k, c))
  {
    hide WellFormed;
    var h := Place(g, k, c.base);
    PlaceKeeps(g, k, c.base);
    if Width(c.base) == 1 {
      hide Place;
      PlaceNarrowAt(g, k, c.base, j);
      PlaceNarrowAt(g, k, c.base, k);
    } else {
      hide Place;
      PlaceWideAt(g, k, c.base, j);
      PlaceWideAt(g, k, c.base, k);
    }
    assert h[k].Cell?;
    MoreMarksKeep(h, k, c.marks);
  }

  lemma MoreMarksKeep(g: Grid, k: nat, m: seq<CodePoint>)
    requires WellFormed(g) && k < |g| && g[k].Cell? && AllMarks(m)
    ensures WellFormed(Marked(g, k, m))
  {
    var h := Marked(g, k, m);
    forall i | 0 <= i < |h| ensures SlotOk(h, i) {
      assert SlotOk(g, i);
      assert SlotOk(g, k);
    }
  }

  lemma WriteCell(g: Grid, c: Slot, s: seq<CodePoint>, dx: nat)
    requires WellFormed(g) && c.Cell? && 0 < Width(c.base) && AllMarks(c.marks) && (s == [] || 0 < Width(s[0]))
    requires dx + Width(c.base) + TotalWidth(s) <= |g|
    ensures TotalWidth([c.base] + (c.marks + s)) == Width(c.base) + TotalWidth(s)
    ensures WritePoints(g, [c.base] + (c.marks + s), dx, 0) ==
      WritePoints(PlaceCell(g, dx, c), s, dx + Width(c.base), 0)
  {
    var h, w, all := Place(g, dx, c.base), Width(c.base), [c.base] + (c.marks + s);
    assert all[1..] == c.marks + s;
    PlaceCellAt(g, dx, c, dx);
    assert h[dx].Cell?;
    hide Place, WellFormed, Marked;
    WriteMarks(h, c.marks, s, dx, w);
    FromNextColumn(Marked(h, dx, c.marks), s, dx, w);
  }

  lemma FromNextColumn(g: Grid, s: seq<CodePoint>, dx: nat, last: nat)
    requires dx + last + TotalWidth(s) <= |g| && (s == [] || 0 < Width(s[0]))
    ensures WritePoints(g, s, dx, last) == WritePoints(g, s, dx + last, 0)
  {
  }

  lemma FirstCell(c: Grid)
    requires WellFormed(c) && c != []
    ensures c[0].Cell? && 0 < Width(c[0].base) <= |c| && AllMarks(c[0].marks)
    ensures var rest := c[Width(c[0].base)..];
      && WellFormed(rest) && Points(c) == [c[0].base] + (c[0].marks + Points(rest))
      && TotalWidth(Points(rest)) == |rest| && (Points(rest) == [] || 0 < Width(Points(rest)[0]))
  {
    hide Points, TotalWidth;
    Neighbours(c, 0);
    assert SlotOk(c, 0);
    assert c[0..] == c;
    NextIsBase(c, 0);
    CutKeeps(c, Width(c[0].base));
    WidthOfCells(c[Width(c[0].base)..]);
    PointsOfNone(c[Width(c[0].base)..]);
  }

  lemma PointsOfNone(c: Grid)
    ensures c == [] ==> Points(c) == []
  {
  }

  /** The columns to the right of a cell just written. */
  lemma TakenOverLater(g: Grid, c: Slot, dx: nat, k: nat)
    requires WellFormed(g) && c.Cell? && 0 < Width(c.base) && AllMarks(c.marks)
    requires dx + Width(c.base) <= k < |g|
    ensures |PlaceCell(g, dx, c)| == |g| && TakenOver(PlaceCell(g, dx, c), k) == TakenOver(g, k)
  {
    hide WellFormed, PlaceCell;
    PlaceCellAt(g, dx, c, if k + 1 < |g| then k + 1 else k);
  }

  lemma CellsFrom(c: Grid, w: nat, j: nat)
    requires w <= j < |c|
    ensures c[w..][j - w] == c[j] && (WideAt(c[w..], j - w) <==> WideAt(c, j))
  {
  }

  /** One cell after the other. */
  lemma WrittenFurther(g: Grid, c: Grid, dx: nat, k: nat)
    requires WellFormed(g) && WellFormed(c) && c != [] && dx + |c| <= |g| && k < |g|
    requires c[0].Cell? && 0 < Width(c[0].base) <= |c|
    ensures var w := Width(c[0].base);
      |PlaceCell(g, dx, c[0])| == |g| && Written(PlaceCell(g, dx, c[0]), c[w..], dx + w, k) == Written(g, c, dx, k)
  {
    FirstCell(c);
    var w, c0, h := Width(c[0].base), c[0], PlaceCell(g, dx, c[0]);
    hide WellFormed, PlaceCell, WideAt, Points, TotalWidth;
    PlaceCellAt(g, dx, c0, k);
    if dx + w <= k < dx + |c| {
      CellsFrom(c, w, k - dx);
      TakenOverLater(g, c0, dx, k);
    } else if dx <= k < dx + w {
      FirstColumns(g, c, dx, k);
    } else if k >= dx + |c| {
      Behind(g, c, dx, k);
    } else {
      InFront(g, c, dx, k);
    }
  }

  /** The columns of the first cell. */
  lemma FirstColumns(g: Grid, c: Grid, dx: nat, k: nat)
    requires WellFormed(g) && WellFormed(c) && c != [] && dx + |c| <= |g| && k < |g|
    requires c[0].Cell? && 0 < Width(c[0].base) <= |c| && dx <= k < dx + Width(c[0].base)
    ensures var w := Width(c[0].base);
      |PlaceCell(g, dx, c[0])| == |g| && Written(PlaceCell(g, dx, c[0]), c[w..], dx + w, k) == Written(g, c, dx, k)
  {
    FirstCell(c);
    var w, c0 := Width(c[0].base), c[0];
    hide WellFormed, PlaceCell, Points, TotalWidth;
    PlaceCellAt(g, dx, c0, k);
    if dx + w < |g| {
      PlaceCellAt(g, dx, c0, dx + w);
    }
  }

  lemma Behind(g: Grid, c: Grid, dx: nat, k: nat)
    requires WellFormed(g) && WellFormed(c) && c != [] && dx + |c| <= k < |g|
    requires c[0].Cell? && 0 < Width(c[0].base) <= |c|
    ensures var w := Width(c[0].base);
      |PlaceCell(g, dx, c[0])| == |g| && Written(PlaceCell(g, dx, c[0]), c[w..], dx + w, k) == Written(g, c, dx, k)
  {
    MarksOf(c, 0);
    hide WellFormed, PlaceCell;
    PlaceCellAt(g, dx, c[0], k);
  }

  lemma InFront(g: Grid, c: Grid, dx: nat, k: nat)
    requires WellFormed(g) && WellFormed(c) && c != [] && k < dx && dx + |c| <= |g|
    requires c[0].Cell? && 0 < Width(c[0].base) <= |c|
    ensures var w := Width(c[0].base);
      |PlaceCell(g, dx, c[0])| == |g| && Written(PlaceCell(g, dx, c[0]), c[w..], dx + w, k) == Written(g, c, dx, k)
  {
    MarksOf(c, 0);
    hide WellFormed, PlaceCell;
    PlaceCellAt(g, dx, c[0], k);
  }

  /** Every column after whole cells were written. */
  lemma {:induction false} CellsWritten(g: Grid, c: Grid, dx: nat, k: nat)
    requires WellFormed(g) && WellFormed(c) && dx + |c| <= |g| && k < |g|
    ensures TotalWidth(Points(c)) == |c| && (Points(c) == [] || 0 < Width(Points(c)[0]))
    ensures WritePoints(g, Points(c), dx, 0)[k] == Written(g, c, dx, k)
    decreases |c|
  {
    hide WellFormed, PlaceCell, WritePoints, Points, TotalWidth, Written;
    WidthOfCells(c);
    if c == [] {
      NothingWritten(g, dx, k);
    } else {
      FirstCell(c);
      var w := Width(c[0].base);
      var h, rest := PlaceCell(g, dx, c[0]), c[w..];
      PlaceCellAt(g, dx, c[0], k);
      WriteCell(g, c[0], Points(rest), dx);
      WrittenFurther(g, c, dx, k);
      CellsWritten(h, rest, dx + w, k);
    }
  }

  lemma NothingWritten(g: Grid, dx: nat, k: nat)
    requires dx <= |g| && k < |g|
    ensures Points([]) == [] && TotalWidth([]) == 0
    ensures WritePoints(g, [], dx, 0)[k] == Written(g, [], dx, k)
  {
  }

  // ----- Copying an interval -----

  /** The cells read from columns [x1, x2): a wide character entered in its middle is read as a space, with its marks,
      and one cut at the end is not read. */
  function CellsRead(g: Grid, x1: nat, x2: nat): (c: Grid)
    requires x1 <= x2 <= |g|
    ensures |c| == if Stop(g, x2) <= x1 then 0 else Stop(g, x2) - x1
  {
    var e := Stop(g, x2);
    if e <= x1 then []
    else if x1 > 0 && WideAt(g, x1 - 1) then [Cell(SPACE, g[x1 - 1].marks)] + g[x1 + 1..e]
    else g[x1..e]
  }

  lemma ReadIsCopied(g: Grid, x1: nat, x2: nat)
    requires WellFormed(g) && x1 <= x2 <= |g|
    ensures WellFormed(CellsRead(g, x1, x2)) && Points(CellsRead(g, x1, x2)) == Copied(g, x1, x2)
  {
    MiddleOfWide(g, x1);
    CellsBetween(g, x1, x2);
    hide WellFormed, Points, WideAt;
    PointsOfNone([]);
    if Stop(g, x2) <= x1 {
      NothingRead(g, x1, x2);
    } else if x1 < |g| && g[x1].Rest? {
      MiddleRead(g, x1, Stop(g, x2));
    }
  }

  lemma NothingRead(g: Grid, x1: nat, x2: nat)
    requires WellFormed(g) && x1 <= x2 <= |g| && Stop(g, x2) <= x1
    ensures Stop(g, x1) == Stop(g, x2) && WellFormed([])
  {
    StopsInOrder(g, x1, x2);
    if x1 < |g| {
      Neighbours(g, x1);
    }
    if x2 < |g| {
      Neighbours(g, x2);
    }
  }

  lemma MiddleRead(g: Grid, x: nat, e: nat)
    requires WellFormed(g) && 0 < x < e <= |g| && WideAt(g, x - 1) && WellFormed(g[x - 1..e])
    ensures var c := [Cell(SPACE, g[x - 1].marks)] + g[x + 1..e];
      WellFormed(c) && Points(c) == EnterMiddle(Points(g[x - 1..e]), true)
  {
    MarksOf(g, x - 1);
    Neighbours(g, x - 1);
    var cell, cells, rest := Cell(SPACE, g[x - 1].marks), g[x - 1..e], g[x + 1..e];
    assert cells == [g[x - 1]] + ([Rest] + rest);
    RestIsWellFormed(cells);
    assert cells[2..] == rest;
    SpaceIsWellFormed(cell);
    JoinKeeps([cell], rest);
    hide WellFormed, Points, WideAt;
    PointsConcat([cell], rest);
    PointsConcat([g[x - 1]], [Rest] + rest);
    PointsConcat([Rest], rest);
    PointsOfSlots(cell, g[x - 1], Points(rest));
  }

  lemma RestIsWellFormed(c: Grid)
    requires WellFormed(c) && 2 <= |c| && c[1].Rest?
    ensures WellFormed(c[2..])
  {
    Neighbours(c, 1);
    CutKeeps(c, 2);
  }

  lemma SpaceIsWellFormed(c: Slot)
    requires c.Cell? && c.base == SPACE && AllMarks(c.marks)
    ensures WellFormed([c])
  {
    LatinIsNarrow(SPACE);
  }

  lemma PointsOfSlots(a: Slot, b: Slot, s: seq<CodePoint>)
    requires a.Cell? && b.Cell? && a.base == SPACE && a.marks == b.marks
    ensures Points([Rest]) + s == s
    ensures Points([a]) + s == [SPACE] + (Points([b]) + s)[1..] && Points([b]) + s != []
  {
    assert [a][1..] == [] && [b][1..] == [] && [Rest][1..] == [];
    assert Points([]) == [];
    assert Points([a]) == [SPACE] + b.marks && Points([b]) == [b.base] + b.marks;
    assert (([b.base] + b.marks) + s)[1..] == b.marks + s;
  }

  /** Every cell of the target after a copy, for all rows: the cells read replace as many columns, wide ones with the
      marks they take over; a wide character of the target cut at either end leaves a space behind. */
  lemma CopiedCell(dst: RowValue, src: RowValue, same: bool, x1: nat, x2: nat, dx: nat, k: nat)
    requires CanCopy(dst, src, same, x1, x2, dx) && k < |dst.grid|
    ensures dx + |CellsRead(src.grid, x1, x2)| <= |dst.grid|
    ensures CopyInterval(dst, src, same, x1, x2, dx).grid[k] ==
      Written(dst.grid, CellsRead(src.grid, x1, x2), dx, k)
  {
    CopiedFits(src.grid, x1, x2);
    ReadIsCopied(src.grid, x1, x2);
    var c := CellsRead(src.grid, x1, x2);
    WidthOfCells(c);
    hide WellFormed, Points, TotalWidth, WriteAll, WritePoints, Written, CellsRead, Copied, Styles;
    var from := if same then Live else Fixed(src.style);
    GridOfWrite(dst, Points(c), from, RowCopy.Cursor(x1, dx, 0));
    CellsWritten(dst.grid, c, dx, k);
  }

  // ----- Copying whole rows -----

  /** The row `src` copied over the row `dst`. */
  function RowOver(dst: Grid, src: Grid): (g: Grid)
    requires |dst| == |src|
    ensures |g| == |src| && forall k :: 0 <= k < |src| ==> g[k] == Written(dst, src, 0, k)
  {
    seq(|src|, k requires 0 <= k < |src| => Written(dst, src, 0, k))
  }

  /** No wide character of `src` takes over marks from `dst`. */
  predicate Clean(dst: Grid, src: Grid) {
    forall k :: 0 <= k < |src| && WideAt(src, k) ==> TakenOver(dst, k) == []
  }

  lemma WholeRowCopied(dst: RowValue, src: RowValue, same: bool)
    requires CanCopy(dst, src, same, 0, |src.grid|, 0) && |dst.grid| == |src.grid|
    ensures CopyInterval(dst, src, same, 0, |src.grid|, 0).grid == RowOver(dst.grid, src.grid)
  {
    hide WellFormed, CopyInterval, Written, RowOver;
    var g := CopyInterval(dst, src, same, 0, |src.grid|, 0).grid;
    assert CellsRead(src.grid, 0, |src.grid|) == src.grid;
    forall k | 0 <= k < |g| ensures g[k] == RowOver(dst.grid, src.grid)[k] {
      CopiedCell(dst, src, same, 0, |src.grid|, 0, k);
    }
  }

  lemma NothingTakenOver(m: seq<CodePoint>, n: seq<CodePoint>)
    ensures m + n == n <==> m == []
  {
    assert m + n == n ==> |m| == 0;
  }

  /** A whole row arrives as it is exactly when none of its wide characters takes over marks. */
  lemma RowOverExactly(dst: Grid, src: Grid)
    requires |dst| == |src|
    ensures RowOver(dst, src) == src <==> Clean(dst, src)
  {
    var g := RowOver(dst, src);
    forall k | 0 <= k < |src| ensures g[k] == src[k] <==> (WideAt(src, k) ==> TakenOver(dst, k) == []) {
      CellOver(dst, src, k);
    }
    assert g == src <==> forall k :: 0 <= k < |src| ==> g[k] == src[k];
  }

  lemma CellOver(dst: Grid, src: Grid, k: nat)
    requires |dst| == |src| && k < |src|
    ensures Written(dst, src, 0, k) == src[k] <==> (WideAt(src, k) ==> TakenOver(dst, k) == [])
  {
    hide TakenOver;
    if WideAt(src, k) {
      NothingTakenOver(TakenOver(dst, k), src[k].marks);
    }
  }

  /** Copied twice, it arrives as it is exactly when that holds of both copies. */
  lemma RowOverTwice(dst: Grid, via: Grid, src: Grid)
    requires |dst| == |via| == |src|
    ensures RowOver(dst, RowOver(via, src)) == src <==> Clean(via, src) && Clean(dst, src)
  {
    var g := RowOver(via, src);
    forall k | 0 <= k < |src|
      ensures RowOver(dst, g)[k] == src[k] <==>
        (WideAt(src, k) ==> TakenOver(via, k) == [] && TakenOver(dst, k) == [])
    {
      CellOverTwice(dst, via, src, k);
    }
    assert RowOver(dst, g) == src <==> forall k :: 0 <= k < |src| ==> RowOver(dst, g)[k] == src[k];
  }

  lemma CellOverTwice(dst: Grid, via: Grid, src: Grid, k: nat)
    requires |dst| == |via| == |src| && k < |src|
    ensures Written(dst, RowOver(via, src), 0, k) == src[k] <==>
      (WideAt(src, k) ==> TakenOver(via, k) == [] && TakenOver(dst, k) == [])
  {
    hide TakenOver;
    if WideAt(src, k) {
      var a, b, m := TakenOver(dst, k), TakenOver(via, k), src[k].marks;
      assert a + (b + m) == (a + b) + m;
      NothingTakenOver(a + b, m);
      assert a + b == [] <==> a == [] && b == [] by {
        assert |a + b| == |a| + |b|;
      }
    }
  }

  /** A wide character copied over a row with a mark in its second column is shown with that mark. */
  lemma MarkTakenOver(c: CodePoint, m: CodePoint)
    requires Width(c) == 2 && Width(m) == 0
    ensures var src, dst := [Cell(c, []), Rest, BLANK], [BLANK, Cell(SPACE, [m]), BLANK];
      && WellFormed(src) && WellFormed(dst) && RowOver(dst, src)[0] == Cell(c, [m]) && !Clean(dst, src)
  {
    LatinIsNarrow(SPACE);
    var src, dst := [Cell(c, []), Rest, BLANK], [BLANK, Cell(SPACE, [m]), BLANK];
    assert TakenOver(dst, 0) == [m] && [m] + [] == [m];
    assert WideAt(src, 0);
  }

  lemma BlanksAreClean(columns: nat, src: Grid)
    ensures Clean(Blanks(columns), src)
  {
  }
}
