/** Inserting and deleting lines as list operations on the text of the scrolling region (sections 8.3.67 and 8.3.32 of
    ECMA-48). */
module LineOps {
  import opened Common
  import opened WcWidth
  import opened Utf16
  import opened Row
  import opened CellCopy
  import P = Page
  import TextStyle
  import opened Display
  import opened TerminalState
  import opened Commands

  /** The text of the rows of the screen. */
  function Text(t: Terminal): (g: seq<Grid>)
    ensures |g| == |Active(t.screens).screen|
  {
    Grids(Active(t.screens).screen)
  }

  function Grids(rows: seq<RowValue>): (g: seq<Grid>)
    ensures |g| == |rows| && forall i :: 0 <= i < |rows| ==> g[i] == rows[i].grid
  {
    seq(|rows|, i requires 0 <= i < |rows| => rows[i].grid)
  }

  function BlankLines(k: nat, columns: nat): (g: seq<Grid>)
    ensures |g| == k
  {
    seq(k, _ => Blanks(columns))
  }

  /** The text that is left when the last `k` lines above `bottom` are blanked. */
  function WithoutLast(g: seq<Grid>, bottom: nat, k: nat, columns: nat): (r: seq<Grid>)
    requires k <= bottom <= |g|
    ensures |r| == |g|
  {
    g[..bottom - k] + BlankLines(k, columns) + g[bottom..]
  }

  /** `k` blank lines go in front of line `row`, and the last `k` lines above `bottom` go away. */
  function Insert(g: seq<Grid>, row: nat, bottom: nat, k: nat, columns: nat): (r: seq<Grid>)
    requires row + k <= bottom <= |g|
    ensures |r| == |g|
  {
    g[..row] + BlankLines(k, columns) + g[row..bottom - k] + g[bottom..]
  }

  /** `k` lines from `row` on go away, and `k` blank lines come in above `bottom`. */
  function Delete(g: seq<Grid>, row: nat, bottom: nat, k: nat, columns: nat): (r: seq<Grid>)
    requires row + k <= bottom <= |g|
    ensures |r| == |g|
  {
    g[..row] + g[row + k..bottom] + BlankLines(k, columns) + g[bottom..]
  }

  /** Lines [from, to) lend no marks to the lines `k` above them, when these are copied over them. */
  predicate CleanDown(g: seq<Grid>, from: nat, to: int, k: nat)
    requires k <= from && to <= |g|
  {
    forall i :: from <= i < to ==> Clean(g[i], g[i - k])
  }

  /** Nor to the lines `k` below them. */
  predicate CleanUp(g: seq<Grid>, from: nat, to: int, k: nat)
    requires to + k <= |g|
  {
    forall i :: from <= i < to ==> Clean(g[i], g[i + k])
  }

  /** Copying whole rows: wide characters take over marks of the rows they come to. */
  lemma CopiedRow(s: Screens, b: P.Block, i: nat)
    requires Ok(s) && P.Fits(b, s.columns, s.rows) && b.sx == b.dx == 0 && b.w == s.columns && i < s.rows
    ensures |Active(s).screen| == s.rows && P.GoodRow(Active(s).screen[i], s.columns)
    ensures b.dy <= i < b.dy + b.h ==> P.GoodRow(Active(s).screen[b.sy + i - b.dy], s.columns)
    ensures Active(Copy(s, b)).screen[i].grid ==
      if b.dy <= i < b.dy + b.h then RowOver(Active(s).screen[i].grid, Active(s).screen[b.sy + i - b.dy].grid)
      else Active(s).screen[i].grid
  {
    ActiveIsGood(s);
    hide Ok, P.Good, P.BlockCopy, P.GoodRow, RowOver;
    P.WholeRowsMove(Active(s), b, i);
  }

  lemma ScreenFits(s: Screens)
    requires Ok(s)
    ensures |Active(s).screen| == s.rows && forall j :: 0 <= j < s.rows ==> |Active(s).screen[j].grid| == s.columns
  {
    ActiveIsGood(s);
    assert forall j :: 0 <= j < s.rows ==> P.GoodRow(Active(s).screen[j], s.columns);
    hide Ok, P.Good;
  }

  /** Clearing `h` whole rows. */
  lemma ClearedRow(s: Screens, y: nat, h: int, st: Style, i: nat)
    requires Ok(s) && y + h <= s.rows && y <= s.rows && i < s.rows && TextStyle.IsEncoded(st)
    ensures Active(Clear(s, 0, y, s.columns, h, st)).screen[i].grid ==
      if y <= i < y + h then Blanks(s.columns) else Active(s).screen[i].grid
  {
    LatinIsNarrow(SPACE);
    var p := Active(s);
    assert P.GoodRow(p.screen[i], s.columns);
    hide P.Good, P.BlockSet, WellFormed, P.FillRow;
    if h > 0 {
      P.BlockSetRows(p, 0, y, s.columns, h, SPACE, st, i);
      P.FillWholeRow(p.screen[i], SPACE, st);
    }
  }

  lemma InsertAt(g: seq<Grid>, row: nat, bottom: nat, k: nat, columns: nat, i: nat)
    requires row + k <= bottom <= |g| && i < |g|
    ensures Insert(g, row, bottom, k, columns)[i] ==
      if i < row then g[i] else if i < row + k then Blanks(columns) else if i < bottom then g[i - k] else g[i]
  {
  }

  lemma DeleteAt(g: seq<Grid>, row: nat, bottom: nat, k: nat, columns: nat, i: nat)
    requires row + k <= bottom <= |g| && i < |g|
    ensures Delete(g, row, bottom, k, columns)[i] ==
      if i < row then g[i] else if i < bottom - k then g[i + k] else if i < bottom then Blanks(columns) else g[i]
  {
  }

  /** The screens after `k` lines were inserted at `row` by copying and clearing. */
  ghost function Inserted(s: Screens, row: nat, bottom: nat, k: nat, st: Style): (s': Screens)
    requires Ok(s) && TextStyle.IsEncoded(st) && row + k <= bottom <= s.rows
    ensures Ok(s') && OnlyActive(s, s')
  {
    hide Ok;
    Clear(Copy(s, P.Block(0, row, s.columns, bottom - row - k, 0, row + k)), 0, row, s.columns, k, st)
  }

  ghost function Deleted(s: Screens, row: nat, bottom: nat, k: nat, st: Style): (s': Screens)
    requires Ok(s) && TextStyle.IsEncoded(st) && row + k <= bottom <= s.rows
    ensures Ok(s') && OnlyActive(s, s')
  {
    hide Ok;
    Clear(Copy(s, P.Block(0, row + k, s.columns, bottom - row - k, 0, row)), 0, bottom - k, s.columns, k, st)
  }

  lemma InsertedRow(s: Screens, row: nat, bottom: nat, k: nat, st: Style, i: nat)
    requires Ok(s) && TextStyle.IsEncoded(st) && row + k <= bottom <= s.rows && i < s.rows
    ensures |Active(s).screen| == s.rows && forall j :: 0 <= j < s.rows ==> |Active(s).screen[j].grid| == s.columns
    ensures Active(Inserted(s, row, bottom, k, st)).screen[i].grid ==
      if i < row then Active(s).screen[i].grid
      else if i < row + k then Blanks(s.columns)
      else if i < bottom then RowOver(Active(s).screen[i].grid, Active(s).screen[i - k].grid)
      else Active(s).screen[i].grid
  {
    hide Ok, Copy, Clear, Blanks, RowOver;
    var b := P.Block(0, row, s.columns, bottom - row - k, 0, row + k);
    ScreenFits(s);
    CopiedRow(s, b, i);
    ClearedRow(Copy(s, b), row, k, st, i);
  }

  lemma DeletedRow(s: Screens, row: nat, bottom: nat, k: nat, st: Style, i: nat)
    requires Ok(s) && TextStyle.IsEncoded(st) && row + k <= bottom <= s.rows && i < s.rows
    ensures |Active(s).screen| == s.rows && forall j :: 0 <= j < s.rows ==> |Active(s).screen[j].grid| == s.columns
    ensures Active(Deleted(s, row, bottom, k, st)).screen[i].grid ==
      if i < row then Active(s).screen[i].grid
      else if i < bottom - k then RowOver(Active(s).screen[i].grid, Active(s).screen[i + k].grid)
      else if i < bottom then Blanks(s.columns)
      else Active(s).screen[i].grid
  {
    hide Ok, Copy, Clear, Blanks, RowOver;
    var b := P.Block(0, row + k, s.columns, bottom - row - k, 0, row);
    ScreenFits(s);
    CopiedRow(s, b, i);
    ClearedRow(Copy(s, b), bottom - k, k, st, i);
  }

  lemma InsertedTextAt(s: Screens, row: nat, bottom: nat, k: nat, st: Style, i: nat)
    requires Ok(s) && TextStyle.IsEncoded(st) && row + k <= bottom <= s.rows && i < s.rows
    ensures |Active(s).screen| == s.rows == |Active(Inserted(s, row, bottom, k, st)).screen|
    ensures var g := Grids(Active(s).screen);
      (Grids(Active(Inserted(s, row, bottom, k, st)).screen)[i] == Insert(g, row, bottom, k, s.columns)[i] <==>
          (row + k <= i < bottom ==> Clean(g[i], g[i - k])))
  {
    ActiveIsGood(s);
    ActiveIsGood(Inserted(s, row, bottom, k, st));
    InsertedRow(s, row, bottom, k, st, i);
    hide Ok, Inserted, Insert, Blanks, Active, RowOver, Clean;
    var g := Grids(Active(s).screen);
    InsertAt(g, row, bottom, k, s.columns, i);
    if row + k <= i < bottom {
      RowOverExactly(g[i], g[i - k]);
    }
  }

  lemma DeletedTextAt(s: Screens, row: nat, bottom: nat, k: nat, st: Style, i: nat)
    requires Ok(s) && TextStyle.IsEncoded(st) && row + k <= bottom <= s.rows && i < s.rows
    ensures |Active(s).screen| == s.rows == |Active(Deleted(s, row, bottom, k, st)).screen|
    ensures var g := Grids(Active(s).screen);
      (Grids(Active(Deleted(s, row, bottom, k, st)).screen)[i] == Delete(g, row, bottom, k, s.columns)[i] <==>
          (row <= i < bottom - k ==> Clean(g[i], g[i + k])))
  {
    ActiveIsGood(s);
    ActiveIsGood(Deleted(s, row, bottom, k, st));
    DeletedRow(s, row, bottom, k, st, i);
    hide Ok, Deleted, Delete, Blanks, Active, RowOver, Clean;
    var g := Grids(Active(s).screen);
    DeleteAt(g, row, bottom, k, s.columns, i);
    if row <= i < bottom - k {
      RowOverExactly(g[i], g[i + k]);
    }
  }

  lemma SameExactly<T>(a: seq<T>, b: seq<T>)
    requires |a| == |b|
    ensures a == b <==> forall i :: 0 <= i < |a| ==> a[i] == b[i]
  {
  }

  /** The text after lines were inserted is that of a list insertion exactly when no line takes over marks. */
  lemma InsertedText(s: Screens, row: nat, bottom: nat, k: nat, st: Style)
    requires Ok(s) && TextStyle.IsEncoded(st) && row + k <= bottom <= s.rows
    ensures |Active(s).screen| == s.rows
    ensures var g := Grids(Active(s).screen);
      Grids(Active(Inserted(s, row, bottom, k, st)).screen) == Insert(g, row, bottom, k, s.columns) <==>
      CleanDown(g, row + k, bottom, k)
  {
    assert 0 < s.rows;
    hide Ok, Inserted, Insert, Active, Clean, Grids;
    InsertedTextAt(s, row, bottom, k, st, 0);
    var g := Grids(Active(s).screen);
    var g', wanted := Grids(Active(Inserted(s, row, bottom, k, st)).screen), Insert(g, row, bottom, k, s.columns);
    if g' == wanted {
      forall i | row + k <= i < bottom ensures Clean(g[i], g[i - k]) {
        InsertedTextAt(s, row, bottom, k, st, i);
      }
    }
    if CleanDown(g, row + k, bottom, k) {
      forall i | 0 <= i < s.rows ensures g'[i] == wanted[i] {
        InsertedTextAt(s, row, bottom, k, st, i);
      }
    }
  }

  lemma DeletedText(s: Screens, row: nat, bottom: nat, k: nat, st: Style)
    requires Ok(s) && TextStyle.IsEncoded(st) && row + k <= bottom <= s.rows
    ensures |Active(s).screen| == s.rows
    ensures var g := Grids(Active(s).screen);
      Grids(Active(Deleted(s, row, bottom, k, st)).screen) == Delete(g, row, bottom, k, s.columns) <==>
      CleanUp(g, row, bottom - k, k)
  {
    assert 0 < s.rows;
    hide Ok, Deleted, Delete, Active, Clean, Grids;
    DeletedTextAt(s, row, bottom, k, st, 0);
    var g := Grids(Active(s).screen);
    var g', wanted := Grids(Active(Deleted(s, row, bottom, k, st)).screen), Delete(g, row, bottom, k, s.columns);
    if g' == wanted {
      forall i | row <= i < bottom - k ensures Clean(g[i], g[i + k]) {
        DeletedTextAt(s, row, bottom, k, st, i);
      }
    }
    if CleanUp(g, row, bottom - k, k) {
      forall i | 0 <= i < s.rows ensures g'[i] == wanted[i] {
        DeletedTextAt(s, row, bottom, k, st, i);
      }
    }
  }

  /** How many of `n` lines are inserted or deleted at the cursor. */
  function Lines(t: Terminal, n: int): (k: nat)
    requires 0 < n && t.cursor.row < t.margins.bottom
    ensures t.cursor.row + k <= t.margins.bottom
  {
    Min(n, t.margins.bottom - t.cursor.row)
  }

  /** IL inserts lines, exactly when no line that moves down takes over marks. */
  lemma InsertLinesInserts(t: Terminal, n: int)
    requires Inv(t) && 0 < n && t.cursor.row < t.margins.bottom
    ensures t.margins.bottom <= |Text(t)|
    ensures Text(InsertLines(t, n)) == Insert(Text(t), t.cursor.row, t.margins.bottom, Lines(t, n), Columns(t)) <==>
      CleanDown(Text(t), t.cursor.row + Lines(t, n), t.margins.bottom, Lines(t, n))
  {
    hide Ok, P.Good, Inserted, Insert, Blanks, CleanDown, InsertLines;
    InsertIsInserted(t, n);
    InsertedText(t.screens, t.cursor.row, t.margins.bottom, Lines(t, n), CurrentStyle(t));
  }

  /** DL deletes lines, exactly when no line that moves up takes over marks. */
  lemma DeleteLinesDeletes(t: Terminal, n: int)
    requires Inv(t) && 0 < n && t.cursor.row < t.margins.bottom
    ensures t.margins.bottom <= |Text(t)|
    ensures Text(DeleteLines(t, n)) == Delete(Text(t), t.cursor.row, t.margins.bottom, Lines(t, n), Columns(t)) <==>
      CleanUp(Text(t), t.cursor.row, t.margins.bottom - Lines(t, n), Lines(t, n))
  {
    hide Ok, P.Good, Deleted, Delete, Blanks, CleanUp, DeleteLines;
    DeleteIsDeleted(t, n);
    DeletedText(t.screens, t.cursor.row, t.margins.bottom, Lines(t, n), CurrentStyle(t));
  }

  /** SU is that many scrolls: their effect on the screen and the history is that of P.ScrollsAreList. */
  lemma {:induction false} ScrollUpScrolls(t: Terminal, n: nat)
    requires Inv(t)
    ensures Ok(t.screens) && t.margins.top < t.margins.bottom <= |Active(t.screens).screen|
    ensures Active(ScrollUpLines(t, n).screens) ==
      P.Scrolls(Active(t.screens), t.margins.top, t.margins.bottom, CurrentStyle(t), n)
    decreases n
  {
    hide Inv, P.Good, P.ScrollDownOneLine, P.Scrolls, Ok, TextStyle.IsEncoded, Active, TerminalState.ScrollDownOneLine;
    RegionFits(t);
    if n > 0 {
      OneScroll(t);
      RegionFits(TerminalState.ScrollDownOneLine(t));
      ScrollUpScrolls(TerminalState.ScrollDownOneLine(t), n - 1);
      P.ScrollsFromFront(Active(t.screens), t.margins.top, t.margins.bottom, CurrentStyle(t), n);
    } else {
      NoScroll(t);
    }
  }

  lemma RegionFits(t: Terminal)
    requires Inv(t)
    ensures Ok(t.screens) && t.margins.top < t.margins.bottom <= |Active(t.screens).screen| && P.Good(Active(t.screens))
  {
    hide P.Good, Styled;
  }

  lemma NoScroll(t: Terminal)
    requires Inv(t)
    ensures P.Good(Active(t.screens)) && t.margins.top < t.margins.bottom <= |Active(t.screens).screen|
    ensures P.Scrolls(Active(t.screens), t.margins.top, t.margins.bottom, CurrentStyle(t), 0) == Active(t.screens)
  {
    hide P.Good, Styled;
  }

  lemma OneScroll(t: Terminal)
    requires Inv(t)
    ensures P.Good(Active(t.screens)) && t.margins.top < t.margins.bottom <= |Active(t.screens).screen|
    ensures var t' := TerminalState.ScrollDownOneLine(t);
      && t' == t.(screens := t'.screens)
      && Active(t'.screens) ==
         P.ScrollDownOneLine(Active(t.screens), t.margins.top, t.margins.bottom, CurrentStyle(t))
  {
    hide P.Good, Styled, P.ScrollDownOneLine;
  }

  /** SD inserts lines at the top margin, under the same condition. */
  lemma ScrollDownInserts(t: Terminal, n: int)
    requires Inv(t) && 0 < n
    ensures t.margins.top < t.margins.bottom <= |Text(t)|
    ensures var top, bottom, k := t.margins.top, t.margins.bottom, Min(n, t.margins.bottom - t.margins.top);
      Text(ScrollDownLines(t, n)) == Insert(Text(t), top, bottom, k, Columns(t)) <==>
      CleanDown(Text(t), top + k, bottom, k)
  {
    hide Ok, P.Good, Copy, Clear, Insert, Blanks, CleanDown;
    InsertedText(t.screens, t.margins.top, t.margins.bottom, Min(n, t.margins.bottom - t.margins.top), CurrentStyle(t));
  }

  /** RI at the top margin inserts a line there, under the same condition; elsewhere it only moves the cursor. */
  lemma ReverseIndexInserts(t: Terminal)
    requires Inv(t)
    ensures t.margins.top < t.margins.bottom <= |Text(t)|
    ensures var top, bottom := t.margins.top, t.margins.bottom;
      if t.cursor.row <= top then
        Text(ReverseIndex(t)) == Insert(Text(t), top, bottom, 1, Columns(t)) <==> CleanDown(Text(t), top + 1, bottom, 1)
      else Text(ReverseIndex(t)) == Text(t)
  {
    hide Ok, P.Good, Copy, Clear, Insert, Blanks, CleanDown;
    InsertedText(t.screens, t.margins.top, t.margins.bottom, 1, CurrentStyle(t));
  }

  /** A line of the region after lines were inserted and deleted again: it went down and came back up. */
  lemma ReturnedRow(s: Screens, row: nat, bottom: nat, k: nat, st: Style, i: nat, g: seq<Grid>, g': seq<Grid>)
    requires Ok(s) && TextStyle.IsEncoded(st) && row + k <= bottom <= s.rows && row <= i < bottom - k
    requires g == Grids(Active(s).screen)
    requires g' == Grids(Active(Deleted(Inserted(s, row, bottom, k, st), row, bottom, k, st)).screen)
    requires |g| == |g'| == s.rows && forall j :: 0 <= j < |g| ==> |g[j]| == s.columns
    ensures g'[i] == g[i] <==> Returns(g, row, k, i)
  {
    hide Inserted, Deleted, Active, RowOver, Clean, Blanks, Ok;
    var s1 := Inserted(s, row, bottom, k, st);
    InsertedRow(s, row, bottom, k, st, i);
    InsertedRow(s, row, bottom, k, st, i + k);
    DeletedRow(s1, row, bottom, k, st, i);
    var dst := Active(s1).screen[i].grid;
    assert row + k <= i ==> dst == RowOver(g[i], g[i - k]);
    ComesBack(g[i], g[i + k], dst, i < row + k, s.columns);
  }

  lemma ComesBack(src: Grid, via: Grid, dst: Grid, blank: bool, columns: nat)
    requires |src| == |via| == |dst| == columns && (blank ==> dst == Blanks(columns))
    ensures RowOver(dst, RowOver(via, src)) == src <==> Clean(via, src) && (!blank ==> Clean(dst, src))
  {
    hide RowOver, Clean, Blanks;
    BlanksAreClean(columns, src);
    RowOverTwice(dst, via, src);
  }

  /** The other lines: above and below the region nothing happens, and its last lines are blank. */
  lemma OtherRow(s: Screens, row: nat, bottom: nat, k: nat, st: Style, i: nat)
    requires Ok(s) && TextStyle.IsEncoded(st) && row + k <= bottom <= s.rows && i < s.rows
    requires !(row <= i < bottom - k)
    ensures |Active(s).screen| == s.rows
    ensures Active(Deleted(Inserted(s, row, bottom, k, st), row, bottom, k, st)).screen[i].grid ==
      if bottom - k <= i < bottom then Blanks(s.columns) else Active(s).screen[i].grid
  {
    hide Inserted, Deleted, Active, RowOver, Clean, Blanks, P.Good;
    InsertedRow(s, row, bottom, k, st, i);
    DeletedRow(Inserted(s, row, bottom, k, st), row, bottom, k, st, i);
  }

  /** Lines of the region lend no marks to those that move over them, down by `k` and then up again. */
  predicate CleanReturn(g: seq<Grid>, row: nat, bottom: nat, k: nat)
    requires row + k <= bottom <= |g|
  {
    CleanDown(g, row + k, bottom, k) && CleanUp(g, row, bottom - 2 * k, k)
  }

  /** Line `i` on its way down and up. */
  predicate Returns(g: seq<Grid>, row: nat, k: nat, i: nat)
    requires i + k < |g| && forall j :: 0 <= j < |g| ==> |g[j]| == |g[0]|
  {
    Clean(g[i + k], g[i]) && (row + k <= i ==> Clean(RowOver(g[i], g[i - k]), g[i]))
  }

  lemma ReturnExactly(g: seq<Grid>, row: nat, bottom: nat, k: nat)
    requires row + k <= bottom <= |g| && forall j :: 0 <= j < |g| ==> |g[j]| == |g[0]|
    ensures CleanReturn(g, row, bottom, k) <==> forall i :: row <= i < bottom - k ==> Returns(g, row, k, i)
  {
    hide Clean, RowOver;
    if CleanDown(g, row + k, bottom, k) {
      forall i | row <= i < bottom - k ensures Clean(g[i + k], g[i]) {
        assert Clean(g[i + k], g[(i + k) - k]);
      }
      forall i | row + k <= i < bottom ensures RowOver(g[i], g[i - k]) == g[i - k] {
        RowOverExactly(g[i], g[i - k]);
      }
      forall i | row + k <= i < bottom - k && CleanUp(g, row, bottom - 2 * k, k) ensures Clean(g[i - k], g[i]) {
        assert Clean(g[i - k], g[(i - k) + k]);
      }
    }
    if forall i :: row <= i < bottom - k ==> Returns(g, row, k, i) {
      forall i | row + k <= i < bottom ensures Clean(g[i], g[i - k]) && RowOver(g[i], g[i - k]) == g[i - k] {
        assert Returns(g, row, k, i - k);
        RowOverExactly(g[i], g[i - k]);
      }
      forall i | row <= i < bottom - 2 * k ensures Clean(g[i], g[i + k]) {
        assert Returns(g, row, k, i + k);
      }
    }
  }

  lemma WithoutLastAt(g: seq<Grid>, bottom: nat, k: nat, columns: nat, i: nat)
    requires k <= bottom <= |g| && i < |g|
    ensures WithoutLast(g, bottom, k, columns)[i] == if bottom - k <= i < bottom then Blanks(columns) else g[i]
  {
  }

  lemma ReturnedTextAt(s: Screens, row: nat, bottom: nat, k: nat, st: Style, i: nat)
    requires Ok(s) && TextStyle.IsEncoded(st) && row + k <= bottom <= s.rows && i < s.rows
    ensures |Active(s).screen| == s.rows && forall j :: 0 <= j < s.rows ==> |Active(s).screen[j].grid| == s.columns
    ensures |Active(Deleted(Inserted(s, row, bottom, k, st), row, bottom, k, st)).screen| == s.rows
    ensures var g := Grids(Active(s).screen);
      Grids(Active(Deleted(Inserted(s, row, bottom, k, st), row, bottom, k, st)).screen)[i] ==
        WithoutLast(g, bottom, k, s.columns)[i] <==>
      (row <= i < bottom - k ==> Returns(g, row, k, i))
  {
    ActiveIsGood(s);
    ActiveIsGood(Deleted(Inserted(s, row, bottom, k, st), row, bottom, k, st));
    ScreenFits(s);
    hide Ok, Inserted, Deleted, Active, RowOver, Clean, Blanks, WithoutLast, P.Good;
    var g, s' := Grids(Active(s).screen), Deleted(Inserted(s, row, bottom, k, st), row, bottom, k, st);
    WithoutLastAt(g, bottom, k, s.columns, i);
    if row <= i < bottom - k {
      ReturnedRow(s, row, bottom, k, st, i, g, Grids(Active(s').screen));
    } else {
      OtherRow(s, row, bottom, k, st, i);
    }
  }

  lemma DeletedAfterInserted(s: Screens, row: nat, bottom: nat, k: nat, st: Style)
    requires Ok(s) && TextStyle.IsEncoded(st) && row + k <= bottom <= s.rows
    ensures |Active(s).screen| == s.rows
    ensures var g := Grids(Active(s).screen);
      Grids(Active(Deleted(Inserted(s, row, bottom, k, st), row, bottom, k, st)).screen) ==
        WithoutLast(g, bottom, k, s.columns) <==>
      CleanReturn(g, row, bottom, k)
  {
    var s' := Deleted(Inserted(s, row, bottom, k, st), row, bottom, k, st);
    assert 0 < s.rows;
    hide Ok, Inserted, Deleted, Active, CleanReturn, WithoutLast, Returns, Grids;
    ReturnedTextAt(s, row, bottom, k, st, 0);
    var g := Grids(Active(s).screen);
    ReturnExactly(g, row, bottom, k);
    SameExactly(Grids(Active(s').screen), WithoutLast(g, bottom, k, s.columns));
    forall i | 0 <= i < s.rows
      ensures Grids(Active(s').screen)[i] == WithoutLast(g, bottom, k, s.columns)[i] <==>
        (row <= i < bottom - k ==> Returns(g, row, k, i))
    {
      ReturnedTextAt(s, row, bottom, k, st, i);
    }
  }

  /** `n` lines inserted and then deleted at the same place restore the text of the region, except that its last lines,
      as many as were inserted, are blank: exactly when no line takes over marks on its way down and up. */
  lemma DeleteUndoesInsert(t: Terminal, n: int)
    requires Inv(t) && 0 < n && t.cursor.row < t.margins.bottom
    ensures t.margins.bottom <= |Text(t)|
    ensures var k, bottom := Lines(t, n), t.margins.bottom;
      Text(DeleteLines(InsertLines(t, n), n)) == WithoutLast(Text(t), bottom, k, Columns(t)) <==>
      CleanReturn(Text(t), t.cursor.row, bottom, k)
  {
    hide Ok, P.Good, SavedOk, ParserOk, Inserted, Deleted, BlankLines, Active, Grids, InsertLines, DeleteLines,
      CleanReturn;
    var row, bottom, k, st := t.cursor.row, t.margins.bottom, Lines(t, n), CurrentStyle(t);
    DeletedAfterInserted(t.screens, row, bottom, k, st);
    InsertIsInserted(t, n);
    DeleteIsDeleted(InsertLines(t, n), n);
  }

  lemma InsertIsInserted(t: Terminal, n: int)
    requires Inv(t) && 0 < n && t.cursor.row < t.margins.bottom
    ensures InsertLines(t, n) ==
      t.(screens := Inserted(t.screens, t.cursor.row, t.margins.bottom, Lines(t, n), CurrentStyle(t)))
  {
    hide Ok, Copy, Clear;
  }

  lemma DeleteIsDeleted(t: Terminal, n: int)
    requires Inv(t) && 0 < n && t.cursor.row < t.margins.bottom
    ensures DeleteLines(t, n).screens ==
      Deleted(t.screens, t.cursor.row, t.margins.bottom, Lines(t, n), CurrentStyle(t))
  {
    hide Ok, Copy, Clear;
  }

  /** Below the bottom margin both do nothing to the screen. */
  lemma NothingBelowMargin(t: Terminal, n: int)
    requires Inv(t) && 0 < n && t.margins.bottom <= t.cursor.row
    ensures InsertLines(t, n) == t && DeleteLines(t, n).screens == t.screens
  {
    ActiveIsGood(t.screens);
    hide P.Good;
    NothingCopied(t.screens, t.cursor.row, t.margins.bottom);
    NothingCopied(t.screens, t.margins.bottom, t.cursor.row);
  }

  lemma NothingCopied(s: Screens, sy: nat, dy: nat)
    requires Ok(s) && sy <= s.rows && dy <= s.rows
    ensures Copy(s, P.Block(0, sy, s.columns, 0, 0, dy)) == s
  {
    hide P.Good;
  }
}
