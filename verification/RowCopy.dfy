/** What copying an interval of one row into another means (TerminalRow.copyInterval), on row values. */
module RowCopy {
  import opened WcWidth
  import opened Utf16
  import opened Row

  function TotalWidth(s: seq<CodePoint>): nat {
    if s == [] then 0 else Width(s[0]) + TotalWidth(s[1..])
  }

  /** Where reading up to column `k` (exclusive) stops: a wide cell cut by `k` is not read. */
  function Stop(g: Grid, k: nat): (e: nat)
    requires k <= |g|
    ensures e <= k
  {
    if k == |g| then k else Head(g, k)
  }

  /** The code points copied from columns [x1, x2): a wide cell entered in its middle counts as a space. */
  function Copied(g: Grid, x1: nat, x2: nat): seq<CodePoint>
    requires x1 <= x2 <= |g| && WellFormed(g)
  {
    StopsInOrder(g, x1, x2);
    EnterMiddle(Points(g[Stop(g, x1)..Stop(g, x2)]), x1 < |g| && g[x1].Rest?)
  }

  /** The first code point is replaced by a space when a wide cell is entered in its middle. */
  function EnterMiddle(s: seq<CodePoint>, middle: bool): seq<CodePoint> {
    if middle && s != [] then [SPACE] + s[1..] else s
  }

  lemma StopsInOrder(g: Grid, x1: nat, x2: nat)
    requires x1 <= x2 <= |g| && WellFormed(g)
    ensures Stop(g, x1) <= Stop(g, x2)
  {
    if x1 < x2 < |g| && g[x2].Rest? {
      assert SlotOk(g, x2);
    }
  }

  /** Styles are read while the copy is under way: from the source row, which may be the row written to. */
  datatype StyleSource = Live | Fixed(style: seq<Style>)

  function Styles(r: RowValue, from: StyleSource): seq<Style> {
    if from.Live? then r.style else from.style
  }

  /** A copy under way: the columns of the last cell read and written, and its width. */
  datatype Cursor = Cursor(sx: nat, dx: nat, last: nat)

  /** A code point of width `w` starts the next cell, unless it is a mark. */
  function Advance(cur: Cursor, w: nat): Cursor {
    if w > 0 then Cursor(cur.sx + cur.last, cur.dx + cur.last, w) else cur
  }

  ghost predicate CanWrite(r: RowValue, s: seq<CodePoint>, from: StyleSource, cur: Cursor) {
    && |r.grid| == |r.style|
    && cur.dx + cur.last + TotalWidth(s) <= |r.grid|
    && cur.sx + cur.last + TotalWidth(s) <= |Styles(r, from)|
    && (s == [] || cur.last > 0 || Width(s[0]) > 0)
  }

  lemma WriteStep(r: RowValue, s: seq<CodePoint>, from: StyleSource, cur: Cursor)
    requires CanWrite(r, s, from, cur) && s != []
    ensures var next := Advance(cur, Width(s[0]));
      next.dx < |r.grid| == |r.style| && next.dx + Width(s[0]) <= |r.grid| && next.sx < |Styles(r, from)|
  {
  }

  function WriteOne(r: RowValue, c: CodePoint, from: StyleSource, next: Cursor): (r': RowValue)
    requires next.dx < |r.grid| == |r.style| && next.dx + Width(c) <= |r.grid| && next.sx < |Styles(r, from)|
    ensures |r'.grid| == |r.grid| == |r'.style|
  {
    Put(r, next.dx, c, Styles(r, from)[next.sx])
  }

  function WriteAll(r: RowValue, s: seq<CodePoint>, from: StyleSource, cur: Cursor): (r': RowValue)
    requires CanWrite(r, s, from, cur)
    ensures |r'.grid| == |r.grid| == |r'.style|
    decreases s
  {
    if s == [] then r
    else
      WriteStep(r, s, from, cur);
      var next := Advance(cur, Width(s[0]));
      WriteAll(WriteOne(r, s[0], from, next), s[1..], from, next)
  }

  lemma WriteUnfold(r: RowValue, s: seq<CodePoint>, from: StyleSource, cur: Cursor)
    requires CanWrite(r, s, from, cur) && s != []
    ensures var next := Advance(cur, Width(s[0]));
      next.dx < |r.grid| == |r.style| && next.dx + Width(s[0]) <= |r.grid| && next.sx < |Styles(r, from)|
    ensures var next := Advance(cur, Width(s[0]));
      CanWrite(WriteOne(r, s[0], from, next), s[1..], from, next)
    ensures var next := Advance(cur, Width(s[0]));
      WriteAll(r, s, from, cur) == WriteAll(WriteOne(r, s[0], from, next), s[1..], from, next)
  {
    WriteStep(r, s, from, cur);
  }

  ghost predicate CanCopy(dst: RowValue, src: RowValue, same: bool, x1: nat, x2: nat, dx: nat) {
    && |dst.grid| == |dst.style| && WellFormed(dst.grid)
    && |src.grid| == |src.style| && WellFormed(src.grid)
    && (same ==> src == dst)
    && x1 <= x2 <= |src.grid| && dx + (x2 - x1) <= |dst.grid|
  }

  /** The row `dst` after columns [x1, x2) of `src` were copied to column `dx`. */
  ghost function CopyInterval(dst: RowValue, src: RowValue, same: bool, x1: nat, x2: nat, dx: nat): (r: RowValue)
    requires CanCopy(dst, src, same, x1, x2, dx)
    ensures |r.grid| == |dst.grid| == |r.style|
  {
    CopiedFits(src.grid, x1, x2);
    WriteAll(dst, Copied(src.grid, x1, x2), if same then Live else Fixed(src.style), Cursor(x1, dx, 0))
  }

  lemma {:induction false} TotalWidthConcat(s: seq<CodePoint>, t: seq<CodePoint>)
    ensures TotalWidth(s + t) == TotalWidth(s) + TotalWidth(t)
  {
    if s == [] {
      assert s + t == t;
    } else {
      assert (s + t)[1..] == s[1..] + t;
      TotalWidthConcat(s[1..], t);
    }
  }

  lemma {:induction false} MarksHaveNoWidth(s: seq<CodePoint>)
    requires AllMarks(s)
    ensures TotalWidth(s) == 0
  {
    if s != [] {
      MarksHaveNoWidth(s[1..]);
    }
  }

  /** Whole cells are as wide as the columns they fill. */
  lemma {:induction false} WidthOfCells(g: Grid)
    requires WellFormed(g)
    ensures TotalWidth(Points(g)) == |g|
    ensures g != [] ==> g[0].Cell? && Points(g) != [] && Points(g)[0] == g[0].base && Width(g[0].base) > 0
    decreases |g|
  {
    if g != [] {
      hide Points, TotalWidth;
      assert SlotOk(g, 0);
      var w := Width(g[0].base);
      PointsFrom(g, 0);
      NextIsBase(g, 0);
      assert g[0..] == g;
      CutKeeps(g, w);
      WidthOfCells(g[w..]);
      WidthOfCell(g[0].base, g[0].marks, Points(g[w..]));
    } else {
      assert Points(g) == [];
    }
  }

  lemma WidthOfCell(b: CodePoint, m: seq<CodePoint>, rest: seq<CodePoint>)
    requires AllMarks(m)
    ensures TotalWidth([b] + m + rest) == Width(b) + TotalWidth(rest)
  {
    assert ([b] + m + rest)[1..] == m + rest;
    TotalWidthConcat(m, rest);
    MarksHaveNoWidth(m);
  }

  lemma CellsBetween(g: Grid, x1: nat, x2: nat)
    requires WellFormed(g) && x1 <= x2 <= |g|
    ensures Stop(g, x1) <= Stop(g, x2) && WellFormed(g[Stop(g, x1)..Stop(g, x2)])
  {
    StopsInOrder(g, x1, x2);
    var a, b := Stop(g, x1), Stop(g, x2);
    assert x1 < |g| ==> SlotOk(g, x1);
    assert x2 < |g| ==> SlotOk(g, x2);
    CutKeeps(g, b);
    CutKeeps(g[..b], a);
    assert g[..b][a..] == g[a..b];
  }

  /** What is copied is no wider than the interval, and starts with a base. */
  lemma CopiedFits(g: Grid, x1: nat, x2: nat)
    requires WellFormed(g) && x1 <= x2 <= |g|
    ensures TotalWidth(Copied(g, x1, x2)) <= x2 - x1
    ensures Copied(g, x1, x2) != [] ==> Width(Copied(g, x1, x2)[0]) > 0
  {
    CellsBetween(g, x1, x2);
    var a, b := Stop(g, x1), Stop(g, x2);
    var cells := g[a..b];
    WidthOfCells(cells);
    var p := Points(cells);
    LatinIsNarrow(SPACE);
    if x1 < |g| && g[x1].Rest? && p != [] {
      Neighbours(g, x1);
      assert cells == [] ==> p == [];
      assert cells[0] == g[a];
      assert Width(p[0]) == 2;
      var q := [SPACE] + p[1..];
      assert q[1..] == p[1..];
    }
  }

  lemma CopyStarts(dst: RowValue, src: RowValue, same: bool, x1: nat, x2: nat, dx: nat)
    requires CanCopy(dst, src, same, x1, x2, dx)
    ensures Stop(src.grid, x1) <= Stop(src.grid, x2)
    ensures var s := EnterMiddle(Points(src.grid[Stop(src.grid, x1)..Stop(src.grid, x2)]),
        x1 > 0 && WideAt(src.grid, x1 - 1));
      var from, cur := if same then Live else Fixed(src.style), Cursor(x1, dx, 0);
      CanWrite(dst, s, from, cur) && CopyInterval(dst, src, same, x1, x2, dx) == WriteAll(dst, s, from, cur)
  {
    StopsInOrder(src.grid, x1, x2);
    CopiedFits(src.grid, x1, x2);
    MiddleOfWide(src.grid, x1);
  }

  /** Column `k` is the second half of a wide character when one starts at the column before. */
  lemma MiddleOfWide(g: Grid, k: nat)
    requires WellFormed(g) && k <= |g|
    ensures k > 0 && WideAt(g, k - 1) <==> k < |g| && g[k].Rest?
  {
    if k < |g| {
      Neighbours(g, k);
    } else if k > 0 {
      Neighbours(g, k - 1);
    }
  }

  lemma {:induction false} WriteAllKeeps(r: RowValue, s: seq<CodePoint>, from: StyleSource, cur: Cursor)
    requires CanWrite(r, s, from, cur) && WellFormed(r.grid)
    ensures var r' := WriteAll(r, s, from, cur); WellFormed(r'.grid) && |r'.grid| == |r.grid| && r'.wrap == r.wrap
    decreases s
  {
    hide WellFormed, CanWrite, Place, PlaceStyle;
    if s != [] {
      WriteUnfold(r, s, from, cur);
      var next := Advance(cur, Width(s[0]));
      PlaceKeeps(r.grid, next.dx, s[0]);
      WriteAllKeeps(WriteOne(r, s[0], from, next), s[1..], from, next);
    }
  }

  /** A copy keeps the row well formed. */
  lemma CopyKeeps(dst: RowValue, src: RowValue, same: bool, x1: nat, x2: nat, dx: nat)
    requires CanCopy(dst, src, same, x1, x2, dx)
    ensures var r := CopyInterval(dst, src, same, x1, x2, dx);
      WellFormed(r.grid) && |r.grid| == |r.style| == |dst.grid| && r.wrap == dst.wrap
  {
    CopiedFits(src.grid, x1, x2);
    WriteAllKeeps(dst, Copied(src.grid, x1, x2), if same then Live else Fixed(src.style), Cursor(x1, dx, 0));
  }

  // ----- Rows of single code points -----

  /** A row without wide cells and marks. */
  predicate Simple(g: Grid) {
    forall k :: 0 <= k < |g| ==> g[k].Cell? && g[k].marks == [] && Width(g[k].base) == 1
  }

  lemma {:induction false} PointsOfSimple(g: Grid)
    requires Simple(g)
    ensures |Points(g)| == |g| == TotalWidth(Points(g))
    ensures forall k :: 0 <= k < |g| ==> Points(g)[k] == g[k].base
  {
    if g != [] {
      PointsOfSimple(g[1..]);
      assert SlotPoints(g[0]) == [g[0].base];
      assert Points(g)[1..] == Points(g[1..]);
    }
  }

  lemma PutInSimple(r: RowValue, k: nat, c: CodePoint, st: Style)
    requires Simple(r.grid) && k < |r.grid| == |r.style| && Width(c) == 1
    ensures Put(r, k, c, st) == RowValue(r.grid[k := Cell(c, [])], r.style[k := st], r.wrap)
    ensures Simple(r.grid[k := Cell(c, [])])
  {
  }

  /** The styles after styles [sx, sx + n) were copied to `dx` one by one, read while being written. */
  function Smear(style: seq<Style>, sx: nat, dx: nat, n: nat): (r: seq<Style>)
    requires sx + n <= |style| && dx + n <= |style|
    ensures |r| == |style|
    decreases n
  {
    if n == 0 then style else Smear(style[dx := style[sx]], sx + 1, dx + 1, n - 1)
  }

  /** Copying to the left, or in place, is not disturbed by reading styles late. */
  lemma {:induction false} SmearLeft(style: seq<Style>, sx: nat, dx: nat, n: nat)
    requires dx <= sx && sx + n <= |style|
    ensures Smear(style, sx, dx, n) == style[..dx] + style[sx..sx + n] + style[dx + n..]
    decreases n
  {
    if n > 0 {
      var s := style[dx := style[sx]];
      SmearLeft(s, sx + 1, dx + 1, n - 1);
      assert s[sx + 1..sx + n] == style[sx + 1..sx + n];
      assert style[sx..sx + n] == [style[sx]] + style[sx + 1..sx + n];
      assert s[..dx + 1] == style[..dx] + [style[sx]];
    }
  }

  lemma {:induction false} SmearKeeps(style: seq<Style>, sx: nat, dx: nat, n: nat)
    requires sx + n <= |style| && dx + n <= |style|
    ensures forall k :: 0 <= k < dx || dx + n <= k < |style| ==> Smear(style, sx, dx, n)[k] == style[k]
    decreases n
  {
    if n > 0 {
      SmearKeeps(style[dx := style[sx]], sx + 1, dx + 1, n - 1);
    }
  }

  /** After a copy to the right the target repeats what ends up in the source columns. */
  lemma {:induction false} SmearRight(style: seq<Style>, sx: nat, dx: nat, n: nat, i: nat)
    requires sx < dx && dx + n <= |style| && i < n
    ensures Smear(style, sx, dx, n)[dx + i] == Smear(style, sx, dx, n)[sx + i]
    decreases n
  {
    var s := style[dx := style[sx]];
    SmearKeeps(s, sx + 1, dx + 1, n - 1);
    if i > 0 {
      SmearRight(s, sx + 1, dx + 1, n - 1, i - 1);
    }
  }

  /** The styles in [sx, sx + n) repeat with distance `dx - sx`. */
  predicate Periodic(style: seq<Style>, sx: nat, dx: nat, n: nat)
    requires sx < dx && dx + n <= |style|
  {
    dx < sx + n ==> style[sx..sx + (sx + n - dx)] == style[dx..sx + n]
  }

  /** A copy to the right moves the styles as memmove would exactly when they repeat with the copy's distance. */
  lemma SmearIsMoveWhenPeriodic(style: seq<Style>, sx: nat, dx: nat, n: nat)
    requires sx < dx && dx + n <= |style|
    ensures Smear(style, sx, dx, n)[dx..dx + n] == style[sx..sx + n] <==> Periodic(style, sx, dx, n)
  {
    hide Smear;
    var r, d := Smear(style, sx, dx, n), dx - sx;
    SmearKeeps(style, sx, dx, n);
    if Periodic(style, sx, dx, n) {
      var moved, wanted := r[dx..dx + n], style[sx..sx + n];
      forall i | 0 <= i < n ensures moved[i] == wanted[i] {
        PeriodicSmear(style, sx, dx, n, i);
      }
    }
    if r[dx..dx + n] == style[sx..sx + n] && dx < sx + n {
      var near, far := style[sx..sx + (sx + n - dx)], style[dx..sx + n];
      forall j | 0 <= j < |near| ensures near[j] == far[j] {
        SmearRight(style, sx, dx, n, j + d);
        assert r[dx..dx + n][j + d] == style[sx..sx + n][j + d];
        assert r[dx..dx + n][j] == style[sx..sx + n][j];
      }
    }
  }

  lemma {:induction false} PeriodicSmear(style: seq<Style>, sx: nat, dx: nat, n: nat, i: nat)
    requires sx < dx && dx + n <= |style| && i < n && Periodic(style, sx, dx, n)
    ensures Smear(style, sx, dx, n)[dx + i] == style[sx + i]
    decreases i
  {
    hide Smear;
    SmearKeeps(style, sx, dx, n);
    SmearRight(style, sx, dx, n, i);
    if sx + i >= dx {
      var j := sx + i - dx;
      PeriodicSmear(style, sx, dx, n, j);
      assert style[sx..sx + (sx + n - dx)][j] == style[dx..sx + n][j];
    }
  }

  /** Of styles 1, 2, 3 the first two are copied one column to the right: the first one ends up in all columns. */
  lemma SmearsStyles()
    ensures Smear([1, 2, 3], 0, 1, 2) == [1, 1, 1] && !Periodic([1, 2, 3], 0, 1, 2)
  {
    var s: seq<Style> := [1, 2, 3];
    assert Smear(s[1 := s[0]][2 := s[0]], 2, 3, 0) == [1, 1, 1];
    assert Smear(s[1 := s[0]], 1, 2, 1) == [1, 1, 1];
    assert s[0..1][0] != s[1..2][0];
  }

  // ----- Copying between rows of single code points -----

  /** `s` with the elements from `d` on replaced by `run`. */
  function Overlay<T>(s: seq<T>, d: nat, run: seq<T>): seq<T>
    requires d + |run| <= |s|
  {
    s[..d] + run + s[d + |run|..]
  }

  lemma OverlayStep<T>(s: seq<T>, d: nat, x: T, run: seq<T>)
    requires d + 1 + |run| <= |s|
    ensures Overlay(s[d := x], d + 1, run) == Overlay(s, d, [x] + run)
  {
  }

  function CellsOf(s: seq<CodePoint>): Grid {
    seq(|s|, i requires 0 <= i < |s| => Cell(s[i], []))
  }

  /** A list of narrow code points. */
  predicate Narrow(s: seq<CodePoint>) {
    (forall i :: 0 <= i < |s| ==> Width(s[i]) == 1) && TotalWidth(s) == |s|
  }

  lemma NarrowRest(s: seq<CodePoint>)
    requires Narrow(s) && s != []
    ensures Width(s[0]) == 1 && Narrow(s[1..])
  {
  }

  /** The first of a list of narrow code points goes into the next column. */
  lemma NarrowStep(r: RowValue, s: seq<CodePoint>, from: StyleSource, cur: Cursor)
    requires CanWrite(r, s, from, cur) && cur.last <= 1 && Simple(r.grid) && Narrow(s) && s != []
    ensures var x, d := cur.sx + cur.last, cur.dx + cur.last;
      var next := Cursor(x, d, 1);
      && d < |r.grid| == |r.style| && x < |Styles(r, from)| && d + |s| <= |r.grid| && x + |s| <= |Styles(r, from)|
      && Narrow(s[1..]) && Simple(r.grid[d := Cell(s[0], [])])
      && var r' := RowValue(r.grid[d := Cell(s[0], [])], r.style[d := Styles(r, from)[x]], r.wrap);
         CanWrite(r', s[1..], from, next) && WriteAll(r, s, from, cur) == WriteAll(r', s[1..], from, next)
  {
    hide WriteAll, Put, PlaceStyle, Simple, Narrow, CanWrite, Width, TotalWidth, Styles, CellsOf;
    NarrowRest(s);
    assert Advance(cur, Width(s[0])) == Cursor(cur.sx + cur.last, cur.dx + cur.last, 1);
    WriteUnfold(r, s, from, cur);
    PutInSimple(r, cur.dx + cur.last, s[0], Styles(r, from)[cur.sx + cur.last]);
    NarrowFits(r, s, from, cur);
  }

  lemma NarrowFits(r: RowValue, s: seq<CodePoint>, from: StyleSource, cur: Cursor)
    requires CanWrite(r, s, from, cur) && Narrow(s)
    ensures cur.dx + cur.last + |s| <= |r.grid| && cur.sx + cur.last + |s| <= |Styles(r, from)| && |CellsOf(s)| == |s|
  {
  }

  lemma {:induction false} WriteNarrowGrid(r: RowValue, s: seq<CodePoint>, from: StyleSource, cur: Cursor)
    requires CanWrite(r, s, from, cur) && cur.last <= 1 && Simple(r.grid) && Narrow(s)
    ensures cur.dx + cur.last + |CellsOf(s)| <= |r.grid|
    ensures WriteAll(r, s, from, cur).grid == Overlay(r.grid, cur.dx + cur.last, CellsOf(s))
    ensures WriteAll(r, s, from, cur).wrap == r.wrap
    decreases |s|
  {
    hide WriteAll, Place, Overlay, PlaceStyle, Simple, CellsOf, Narrow, CanWrite, Styles;
    NarrowFits(r, s, from, cur);
    if s != [] {
      NarrowStep(r, s, from, cur);
      var x, d := cur.sx + cur.last, cur.dx + cur.last;
      var r' := RowValue(r.grid[d := Cell(s[0], [])], r.style[d := Styles(r, from)[x]], r.wrap);
      WriteNarrowGrid(r', s[1..], from, Cursor(x, d, 1));
      CellsOfStep(s);
      OverlayStep(r.grid, d, Cell(s[0], []), CellsOf(s[1..]));
    } else {
      NothingWritten(r, from, cur);
    }
  }

  lemma {:induction false} WriteNarrowStyle(r: RowValue, s: seq<CodePoint>, from: StyleSource, cur: Cursor)
    requires CanWrite(r, s, from, cur) && cur.last <= 1 && Simple(r.grid) && Narrow(s)
    ensures WriteAll(r, s, from, cur).style == NarrowStyles(r.style, from, cur.sx + cur.last, cur.dx + cur.last, |s|)
    decreases |s|
  {
    hide WriteAll, Place, PlaceStyle, Simple, NarrowStyles, Narrow, CanWrite, CellsOf;
    NarrowFits(r, s, from, cur);
    if s != [] {
      NarrowStep(r, s, from, cur);
      var x, d := cur.sx + cur.last, cur.dx + cur.last;
      var r' := RowValue(r.grid[d := Cell(s[0], [])], r.style[d := Styles(r, from)[x]], r.wrap);
      WriteNarrowStyle(r', s[1..], from, Cursor(x, d, 1));
      NarrowStylesStep(r.style, from, x, d, |s|);
    } else {
      NothingWritten(r, from, cur);
    }
  }

  lemma CellsOfStep(s: seq<CodePoint>)
    requires s != []
    ensures |CellsOf(s)| == |s| && CellsOf(s) == [Cell(s[0], [])] + CellsOf(s[1..])
  {
  }

  lemma NothingWritten(r: RowValue, from: StyleSource, cur: Cursor)
    requires CanWrite(r, [], from, cur)
    ensures WriteAll(r, [], from, cur) == r
    ensures r.grid == Overlay(r.grid, cur.dx + cur.last, CellsOf([]))
    ensures r.style == NarrowStyles(r.style, from, cur.sx + cur.last, cur.dx + cur.last, 0)
  {
  }

  function NarrowStyles(style: seq<Style>, from: StyleSource, x: nat, d: nat, n: nat): seq<Style>
    requires d + n <= |style| && x + n <= |if from.Live? then style else from.style|
  {
    if from.Live? then Smear(style, x, d, n) else Overlay(style, d, from.style[x..x + n])
  }

  lemma NarrowStylesStep(style: seq<Style>, from: StyleSource, x: nat, d: nat, n: nat)
    requires 0 < n && d + n <= |style| && x + n <= |if from.Live? then style else from.style|
    ensures var st := if from.Live? then style[x] else from.style[x];
      NarrowStyles(style, from, x, d, n) == NarrowStyles(style[d := st], from, x + 1, d + 1, n - 1)
  {
    if from.Fixed? {
      OverlayStep(style, d, from.style[x], from.style[x + 1..x + n]);
      assert from.style[x..x + n] == [from.style[x]] + from.style[x + 1..x + n];
    }
  }

  /** On rows of single code points a copy moves the text as memmove would; styles move likewise unless
      the copy goes to the right within one row, where they are smeared. */
  lemma CopySimple(dst: RowValue, src: RowValue, same: bool, x1: nat, x2: nat, dx: nat)
    requires CanCopy(dst, src, same, x1, x2, dx) && Simple(dst.grid) && Simple(src.grid)
    ensures CopyInterval(dst, src, same, x1, x2, dx) == RowValue(
      Overlay(dst.grid, dx, src.grid[x1..x2]),
      if same && x1 < dx then Smear(dst.style, x1, dx, x2 - x1) else Overlay(dst.style, dx, src.style[x1..x2]),
      dst.wrap)
  {
    hide Smear, Overlay, Copied, WriteAll, Simple, WellFormed, Narrow, TotalWidth;
    var p := Copied(src.grid, x1, x2);
    CopiedOfSimple(src.grid, x1, x2);
    CopiedFits(src.grid, x1, x2);
    var from := if same then Live else Fixed(src.style);
    WriteNarrowGrid(dst, p, from, Cursor(x1, dx, 0));
    WriteNarrowStyle(dst, p, from, Cursor(x1, dx, 0));
    if same && dx <= x1 {
      SmearIsOverlay(dst.style, x1, dx, x2 - x1);
    }
  }

  lemma SmearIsOverlay(style: seq<Style>, sx: nat, dx: nat, n: nat)
    requires dx <= sx && sx + n <= |style|
    ensures Smear(style, sx, dx, n) == Overlay(style, dx, style[sx..sx + n])
  {
    SmearLeft(style, sx, dx, n);
  }

  lemma CopiedOfSimple(g: Grid, x1: nat, x2: nat)
    requires WellFormed(g) && Simple(g) && x1 <= x2 <= |g|
    ensures Narrow(Copied(g, x1, x2)) && CellsOf(Copied(g, x1, x2)) == g[x1..x2]
  {
    var cells := g[x1..x2];
    assert forall k :: 0 <= k < |cells| ==> cells[k] == g[x1 + k];
    PointsOfSimple(cells);
    assert Copied(g, x1, x2) == Points(cells);
  }
}
