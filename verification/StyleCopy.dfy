/** Copying part of a row: what becomes of the styles of its columns. */
module StyleCopy {
  import opened WcWidth
  import opened Utf16
  import opened Row
  import opened RowCopy
  import opened CellCopy

  // ----- Writing cells with their styles -----

  /** A cell written over column `k`, with a style. */
  function PutStyled(r: RowValue, k: nat, c: Slot, st: Style): (r': RowValue)
    requires c.Cell? && k + Width(c.base) <= |r.grid| == |r.style| && k < |r.grid|
    ensures |r'.style| == |r.style|
  {
    RowValue(PlaceCell(r.grid, k, c), PlaceStyle(r.grid, r.style, k, c.base, st), r.wrap)
  }

  /** The style of column `k` after cells `c`, of styles `from`, were written from column `dx` on. The second column of
      a wide character gets a style of its own only where it cuts a wide character of the target. */
  function StyleWritten(r: RowValue, c: Grid, from: seq<Style>, dx: nat, k: nat): Style
    requires dx + |c| <= |r.grid| == |r.style| && |c| <= |from| && k < |r.grid|
  {
    if dx <= k < dx + |c| then
      if c[k - dx].Cell? then from[k - dx]
      else if k > dx && WideAt(r.grid, k) then from[k - dx - 1]
      else r.style[k]
    else if c != [] && k + 1 == dx && r.grid[dx].Rest? then from[0]
    else r.style[k]
  }

  /** Marks leave the styles alone. */
  lemma {:induction false} StyledMarks(r: RowValue, m: seq<CodePoint>, s: seq<CodePoint>, from: seq<Style>,
      cur: RowCopy.Cursor)
    requires AllMarks(m) && 0 < cur.last && CanWrite(r, s, Fixed(from), cur)
    requires cur.dx < |r.grid| && r.grid[cur.dx].Cell? && cur.sx < |from| && r.style[cur.dx] == from[cur.sx]
    ensures CanWrite(r, m + s, Fixed(from), cur)
    ensures WriteAll(r, m + s, Fixed(from), cur) ==
      WriteAll(r.(grid := Marked(r.grid, cur.dx, m)), s, Fixed(from), cur)
    decreases m
  {
    hide WriteAll, TotalWidth;
    TotalWidthConcat(m, s);
    MarksHaveNoWidth(m);
    if m == [] {
      assert m + s == s;
      NoMarks(r.grid, cur.dx);
    } else {
      assert (m + s)[0] == m[0] && (m + s)[1..] == m[1..] + s;
      WriteUnfold(r, m + s, Fixed(from), cur);
      OneMark(r, cur.dx, m[0], from[cur.sx]);
      StyledMarks(r.(grid := Marked(r.grid, cur.dx, [m[0]])), m[1..], s, from, cur);
      MarkedTwice(r.grid, cur.dx, m);
    }
  }

  lemma NoMarks(g: Grid, k: nat)
    requires k < |g| && g[k].Cell?
    ensures Marked(g, k, []) == g
  {
    assert g[k].marks + [] == g[k].marks;
  }

  lemma OneMark(r: RowValue, k: nat, c: CodePoint, st: Style)
    requires k < |r.grid| == |r.style| && r.grid[k].Cell? && Width(c) == 0 && r.style[k] == st
    ensures Put(r, k, c, st) == r.(grid := Marked(r.grid, k, [c]))
  {
  }

  lemma CellFits(r: RowValue, c: Slot, s: seq<CodePoint>, from: seq<Style>, x: nat, dx: nat)
    requires |r.grid| == |r.style| && c.Cell? && 0 < Width(c.base) && AllMarks(c.marks)
    requires dx + Width(c.base) + TotalWidth(s) <= |r.grid| && x + Width(c.base) + TotalWidth(s) <= |from|
    ensures var all, w := [c.base] + (c.marks + s), Width(c.base);
      && CanWrite(r, all, Fixed(from), RowCopy.Cursor(x, dx, 0))
      && CanWrite(Put(r, dx, c.base, from[x]), s, Fixed(from), RowCopy.Cursor(x, dx, w))
      && Put(r, dx, c.base, from[x]).style[dx] == from[x]
  {
    assert ([c.base] + (c.marks + s))[1..] == c.marks + s;
    TotalWidthConcat(c.marks, s);
    MarksHaveNoWidth(c.marks);
  }

  lemma BaseFirst(r: RowValue, b: CodePoint, t: seq<CodePoint>, from: seq<Style>, x: nat, dx: nat)
    requires CanWrite(r, [b] + t, Fixed(from), RowCopy.Cursor(x, dx, 0)) && 0 < Width(b)
    ensures dx + Width(b) <= |r.grid| && x < |from|
    ensures CanWrite(Put(r, dx, b, from[x]), t, Fixed(from), RowCopy.Cursor(x, dx, Width(b)))
    ensures WriteAll(r, [b] + t, Fixed(from), RowCopy.Cursor(x, dx, 0)) ==
      WriteAll(Put(r, dx, b, from[x]), t, Fixed(from), RowCopy.Cursor(x, dx, Width(b)))
  {
    hide WriteAll, Place, PlaceStyle, CanWrite, TotalWidth;
    assert ([b] + t)[0] == b && ([b] + t)[1..] == t;
    assert Advance(RowCopy.Cursor(x, dx, 0), Width(b)) == RowCopy.Cursor(x, dx, Width(b));
    WriteUnfold(r, [b] + t, Fixed(from), RowCopy.Cursor(x, dx, 0));
  }

  /** A cell with its marks. */
  lemma StyledCell(r: RowValue, c: Slot, s: seq<CodePoint>, from: seq<Style>, x: nat, dx: nat)
    requires WellFormed(r.grid) && |r.grid| == |r.style| && c.Cell? && 0 < Width(c.base) && AllMarks(c.marks)
    requires dx + Width(c.base) + TotalWidth(s) <= |r.grid| && x + Width(c.base) + TotalWidth(s) <= |from|
    requires s == [] || 0 < Width(s[0])
    ensures var w, all := Width(c.base), [c.base] + (c.marks + s);
      && CanWrite(r, all, Fixed(from), RowCopy.Cursor(x, dx, 0))
      && CanWrite(PutStyled(r, dx, c, from[x]), s, Fixed(from), RowCopy.Cursor(x + w, dx + w, 0))
      && WriteAll(r, all, Fixed(from), RowCopy.Cursor(x, dx, 0)) ==
         WriteAll(PutStyled(r, dx, c, from[x]), s, Fixed(from), RowCopy.Cursor(x + w, dx + w, 0))
  {
    CellFits(r, c, s, from, x, dx);
    BaseAt(r.grid, dx, c.base);
    hide WriteAll, TotalWidth, WellFormed, Place, PlaceStyle, Marked, CanWrite, AllMarks;
    BaseFirst(r, c.base, c.marks + s, from, x, dx);
    var r1, cur := Put(r, dx, c.base, from[x]), RowCopy.Cursor(x, dx, Width(c.base));
    StyledMarks(r1, c.marks, s, from, cur);
    var r2 := r1.(grid := Marked(r1.grid, dx, c.marks));
    assert r2 == PutStyled(r, dx, c, from[x]);
    SameSize(r1, r2, s, from, cur);
    Continue(r2, s, from, cur);
  }

  lemma BaseAt(g: Grid, k: nat, b: CodePoint)
    requires WellFormed(g) && k < |g| && k + Width(b) <= |g| && 0 < Width(b)
    ensures |Place(g, k, b)| == |g| && Place(g, k, b)[k].Cell?
  {
  }

  lemma SameSize(r: RowValue, r': RowValue, s: seq<CodePoint>, from: seq<Style>, cur: RowCopy.Cursor)
    requires CanWrite(r, s, Fixed(from), cur) && |r'.grid| == |r.grid| && |r'.style| == |r.style|
    ensures CanWrite(r', s, Fixed(from), cur)
  {
  }

  lemma Continue(r: RowValue, s: seq<CodePoint>, from: seq<Style>, cur: RowCopy.Cursor)
    requires CanWrite(r, s, Fixed(from), cur) && (s == [] || 0 < Width(s[0]))
    ensures var next := RowCopy.Cursor(cur.sx + cur.last, cur.dx + cur.last, 0);
      CanWrite(r, s, Fixed(from), next) && WriteAll(r, s, Fixed(from), cur) == WriteAll(r, s, Fixed(from), next)
  {
  }

  /** The style of a column after one cell was written. */
  lemma StyleOfCell(r: RowValue, c: Slot, st: Style, dx: nat, k: nat)
    requires WellFormed(r.grid) && |r.grid| == |r.style| && c.Cell? && 0 < Width(c.base) && AllMarks(c.marks)
    requires dx + Width(c.base) <= |r.grid| && k < |r.grid|
    ensures PutStyled(r, dx, c, st).style[k] ==
      if k == dx || (k == dx + 1 && Width(c.base) == 2 && WideAt(r.grid, k)) ||
         (k + 1 == dx && r.grid[dx].Rest?) then st
      else r.style[k]
  {
  }

  /** What one cell does to the cells and styles next to it. */
  lemma AfterCell(r: RowValue, c: Slot, st: Style, dx: nat, k: nat)
    requires WellFormed(r.grid) && |r.grid| == |r.style| && c.Cell? && 0 < Width(c.base) && AllMarks(c.marks)
    requires dx + Width(c.base) <= |r.grid| && k < |r.grid|
    ensures var r1, w := PutStyled(r, dx, c, st), Width(c.base);
      && |r1.grid| == |r.grid| && WellFormed(r1.grid)
      && (dx + w <= k ==> r1.style[k] == r.style[k] && (WideAt(r1.grid, k) <==> WideAt(r.grid, k)))
      && (dx + w < |r.grid| ==> r1.grid[dx + w].Cell?)
  {
    StyleOfCell(r, c, st, dx, k);
    PlaceCellAt(r.grid, dx, c, k);
    Neighbours(r.grid, k);
    LatinIsNarrow(SPACE);
    if dx + Width(c.base) < |r.grid| {
      PlaceCellAt(r.grid, dx, c, dx + Width(c.base));
      Neighbours(r.grid, dx + Width(c.base));
    }
    hide PlaceCell, WellFormed;
  }

  /** One cell after the other. */
  lemma StyledFurther(r: RowValue, c: Grid, from: seq<Style>, dx: nat, k: nat)
    requires WellFormed(r.grid) && |r.grid| == |r.style| && WellFormed(c) && c != [] && dx + |c| <= |r.grid|
    requires |c| <= |from| && k < |r.grid| && c[0].Cell? && 0 < Width(c[0].base) <= |c|
    ensures var w, r1 := Width(c[0].base), PutStyled(r, dx, c[0], from[0]);
      |r1.grid| == |r.grid| && StyleWritten(r1, c[w..], from[w..], dx + w, k) == StyleWritten(r, c, from, dx, k)
  {
    hide WellFormed, PutStyled, Points, TotalWidth, WideAt, StyleWritten;
    var w := Width(c[0].base);
    MarksOf(c, 0);
    NextIsBase(c, 0);
    AfterCell(r, c[0], from[0], dx, k);
    if dx + w <= k < dx + |c| {
      LaterStyle(r, PutStyled(r, dx, c[0], from[0]), c, from, dx, w, k);
    } else {
      StyleOfFirst(r, c, from, dx, k);
    }
  }

  lemma LaterStyle(r: RowValue, r1: RowValue, c: Grid, from: seq<Style>, dx: nat, w: nat, k: nat)
    requires |r.grid| == |r.style| == |r1.grid| == |r1.style| && dx + |c| <= |r.grid| && |c| <= |from|
    requires 0 < w <= k - dx < |c| && c[w].Cell? && r1.style[k] == r.style[k]
    requires WideAt(r1.grid, k) <==> WideAt(r.grid, k)
    ensures StyleWritten(r1, c[w..], from[w..], dx + w, k) == StyleWritten(r, c, from, dx, k)
  {
    hide WideAt;
    assert c[w..][k - (dx + w)] == c[k - dx] && from[w..][k - (dx + w)] == from[k - dx];
  }

  lemma StyleOfFirst(r: RowValue, c: Grid, from: seq<Style>, dx: nat, k: nat)
    requires WellFormed(r.grid) && |r.grid| == |r.style| && WellFormed(c) && c != [] && dx + |c| <= |r.grid|
    requires |c| <= |from| && k < |r.grid| && c[0].Cell? && 0 < Width(c[0].base) <= |c|
    requires !(dx + Width(c[0].base) <= k < dx + |c|)
    ensures var w, r1 := Width(c[0].base), PutStyled(r, dx, c[0], from[0]);
      |r1.grid| == |r.grid| && StyleWritten(r1, c[w..], from[w..], dx + w, k) == StyleWritten(r, c, from, dx, k)
  {
    MarksOf(c, 0);
    Neighbours(c, 0);
    AfterCell(r, c[0], from[0], dx, k);
    StyleOfCell(r, c[0], from[0], dx, k);
    hide WellFormed, PutStyled;
    if Width(c[0].base) == 2 {
      assert c[1].Rest?;
    }
  }

  lemma CellThenRest(r: RowValue, c: Grid, from: seq<Style>, x: nat, dx: nat)
    requires WellFormed(r.grid) && |r.grid| == |r.style| && WellFormed(c) && dx + |c| <= |r.grid|
    requires c != [] && x + |c| <= |from|
    ensures c[0].Cell? && 0 < Width(c[0].base) <= |c| && AllMarks(c[0].marks) && WellFormed(c[Width(c[0].base)..])
    ensures var w := Width(c[0].base);
      var r1, next := PutStyled(r, dx, c[0], from[x]), RowCopy.Cursor(x + w, dx + w, 0);
      && CanWrite(r, Points(c), Fixed(from), RowCopy.Cursor(x, dx, 0))
      && CanWrite(r1, Points(c[w..]), Fixed(from), next)
      && WriteAll(r, Points(c), Fixed(from), RowCopy.Cursor(x, dx, 0)) ==
         WriteAll(r1, Points(c[w..]), Fixed(from), next)
  {
    hide WellFormed, PutStyled, Points, TotalWidth, WriteAll, CanWrite;
    FirstCell(c);
    StyledCell(r, c[0], Points(c[Width(c[0].base)..]), from, x, dx);
  }

  /** Every style after whole cells were written. */
  lemma {:induction false} StylesWritten(r: RowValue, c: Grid, from: seq<Style>, x: nat, dx: nat, k: nat)
    requires WellFormed(r.grid) && |r.grid| == |r.style| && WellFormed(c) && dx + |c| <= |r.grid| && k < |r.grid|
    requires x + |c| <= |from|
    ensures CanWrite(r, Points(c), Fixed(from), RowCopy.Cursor(x, dx, 0))
    ensures WriteAll(r, Points(c), Fixed(from), RowCopy.Cursor(x, dx, 0)).style[k] ==
      StyleWritten(r, c, from[x..], dx, k)
    decreases |c|
  {
    hide WellFormed, PutStyled, Points, TotalWidth, StyleWritten, WriteAll, AllMarks, WideAt, CanWrite, Width;
    if c == [] {
      NoStyleWritten(r, from, x, dx, k);
    } else {
      CellThenRest(r, c, from, x, dx);
      var w := Width(c[0].base);
      AfterCell(r, c[0], from[x], dx, k);
      StylesWritten(PutStyled(r, dx, c[0], from[x]), c[w..], from, x + w, dx + w, k);
      StyledFurther(r, c, from[x..], dx, k);
      DropTwice(from, x, w);
    }
  }

  lemma DropTwice(s: seq<Style>, x: nat, w: nat)
    requires x + w <= |s|
    ensures s[x..][w..] == s[x + w..] && (0 < w ==> s[x..][0] == s[x])
  {
  }

  lemma NoStyleWritten(r: RowValue, from: seq<Style>, x: nat, dx: nat, k: nat)
    requires |r.grid| == |r.style| && dx <= |r.grid| && k < |r.grid| && x <= |from|
    ensures Points([]) == [] && CanWrite(r, [], Fixed(from), RowCopy.Cursor(x, dx, 0))
    ensures WriteAll(r, [], Fixed(from), RowCopy.Cursor(x, dx, 0)).style[k] == StyleWritten(r, [], from[x..], dx, k)
  {
  }

  // ----- Reading styles while they are written -----

  /** What is still to be read is as it was. */
  predicate Unread(style: seq<Style>, from: seq<Style>, cur: RowCopy.Cursor) {
    && |style| == |from|
    && (cur.last > 0 ==> cur.sx < |style| && style[cur.sx] == from[cur.sx])
    && forall k :: cur.sx + cur.last <= k < |style| ==> style[k] == from[k]
  }

  lemma LeftStep(r: RowValue, c: CodePoint, from: seq<Style>, cur: RowCopy.Cursor)
    requires |r.grid| == |r.style| && cur.dx <= cur.sx && Unread(r.style, from, cur) && (cur.last > 0 || Width(c) > 0)
    requires var next := Advance(cur, Width(c));
      next.dx < |r.grid| && next.dx + Width(c) <= |r.grid| && next.sx < |from|
    ensures var next := Advance(cur, Width(c));
      r.style[next.sx] == from[next.sx] && next.dx <= next.sx && Unread(WriteOne(r, c, Live, next).style, from, next)
  {
    hide Place;
  }

  /** Copying to the left, or in place, reads every style before it is written over. */
  lemma {:induction false} LeftReadsOld(r: RowValue, s: seq<CodePoint>, from: seq<Style>, cur: RowCopy.Cursor)
    requires CanWrite(r, s, Live, cur) && cur.dx <= cur.sx && Unread(r.style, from, cur)
    ensures CanWrite(r, s, Fixed(from), cur)
    ensures WriteAll(r, s, Live, cur) == WriteAll(r, s, Fixed(from), cur)
    decreases s
  {
    SameRoom(r, s, from, cur);
    hide Put, TotalWidth, CanWrite, Unread, WriteAll;
    if s != [] {
      var next := Advance(cur, Width(s[0]));
      WriteUnfold(r, s, Live, cur);
      WriteUnfold(r, s, Fixed(from), cur);
      LeftStep(r, s[0], from, cur);
      LeftReadsOld(WriteOne(r, s[0], Live, next), s[1..], from, next);
    } else {
      NothingRead(r, from, cur);
    }
  }

  lemma SameRoom(r: RowValue, s: seq<CodePoint>, from: seq<Style>, cur: RowCopy.Cursor)
    requires CanWrite(r, s, Live, cur) && Unread(r.style, from, cur)
    ensures CanWrite(r, s, Fixed(from), cur) && |from| == |r.style| == |r.grid|
    ensures s != [] ==> cur.last > 0 || Width(s[0]) > 0
  {
  }

  lemma NothingRead(r: RowValue, from: seq<Style>, cur: RowCopy.Cursor)
    requires CanWrite(r, [], Live, cur) && CanWrite(r, [], Fixed(from), cur)
    ensures WriteAll(r, [], Live, cur) == r == WriteAll(r, [], Fixed(from), cur)
  {
  }

  /** Every style of the target after a copy between different rows, or within a row but not to the right. */
  lemma CopiedStyle(dst: RowValue, src: RowValue, same: bool, x1: nat, x2: nat, dx: nat, k: nat)
    requires CanCopy(dst, src, same, x1, x2, dx) && k < |dst.grid| && (same ==> dx <= x1)
    ensures dx + |CellsRead(src.grid, x1, x2)| <= |dst.grid|
    ensures CopyInterval(dst, src, same, x1, x2, dx).style[k] ==
      StyleWritten(dst, CellsRead(src.grid, x1, x2), src.style[x1..], dx, k)
  {
    CopiedFits(src.grid, x1, x2);
    ReadIsCopied(src.grid, x1, x2);
    var c := CellsRead(src.grid, x1, x2);
    hide WellFormed, Points, WriteAll, StyleWritten, CellsRead, Copied;
    StylesWritten(dst, c, src.style, x1, dx, k);
    if same {
      LeftReadsOld(dst, Points(c), src.style, RowCopy.Cursor(x1, dx, 0));
    }
  }
}
