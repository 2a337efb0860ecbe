/** Erasing cell by cell, as the selective and the rectangular forms do: what happens to every cell, and which protected
    cells survive. */
module EraseOps {
  import opened Common
  import opened WcWidth
  import opened Utf16
  import opened Row
  import P = Page
  import TextStyle
  import opened Display
  import opened TerminalState
  import opened Commands
  import CellOps

  // ----- One row -----

  /** Columns [col, endCol) of a row, from left to right. */
  function EraseColumns(r: RowValue, col: nat, endCol: int, e: Erasure): (r': RowValue)
    requires endCol <= |r.grid| == |r.style| && Width(e.fill) == 1
    ensures |r'.grid| == |r.grid| == |r'.style|
    decreases endCol - col
  {
    if col >= endCol then r else EraseColumns(EraseColumn(r, col, e), col + 1, endCol, e)
  }

  function EraseColumn(r: RowValue, col: nat, e: Erasure): (r': RowValue)
    requires col < |r.grid| == |r.style| && Width(e.fill) == 1
    ensures |r'.grid| == |r.grid| == |r'.style|
  {
    if Spared(r.style[col], e) then r else Put(r, col, e.fill, NewStyle(r.style[col], e))
  }

  /** A selective form skips a column whose style is protected. */
  predicate Spared(st: Style, e: Erasure) {
    e.selective && IsProtected(st)
  }

  function NewStyle(st: Style, e: Erasure): Style {
    if e.keepStyle then st else e.st
  }

  /** The columns that are written to, told from the row as it was. */
  predicate Hit(style: seq<Style>, col: nat, endCol: int, e: Erasure, k: int) {
    col <= k < endCol && 0 <= k < |style| && !Spared(style[k], e)
  }

  /** What becomes of column `k`: where it is written to, the fill; a wide character of which only one column is written
      to leaves a space in the other one. */
  function ErasedCell(r: RowValue, col: nat, endCol: int, e: Erasure, k: nat): Slot
    requires k < |r.grid|
  {
    if Hit(r.style, col, endCol, e, k) then Cell(e.fill, [])
    else if (r.grid[k].Rest? && Hit(r.style, col, endCol, e, k - 1)) ||
            (WideAt(r.grid, k) && Hit(r.style, col, endCol, e, k + 1)) then BLANK
    else r.grid[k]
  }

  /** Only the space to the left of a column written to takes its style. */
  function ErasedStyle(r: RowValue, col: nat, endCol: int, e: Erasure, k: nat): Style
    requires k < |r.grid| == |r.style|
  {
    if Hit(r.style, col, endCol, e, k) then NewStyle(r.style[k], e)
    else if WideAt(r.grid, k) && Hit(r.style, col, endCol, e, k + 1) then NewStyle(r.style[k + 1], e)
    else r.style[k]
  }

  /** One column: what changes and what does not. */
  lemma OneErased(r: RowValue, col: nat, e: Erasure, k: nat)
    requires WellFormed(r.grid) && col < |r.grid| == |r.style| && Width(e.fill) == 1 && k < |r.grid|
    ensures WellFormed(EraseColumn(r, col, e).grid)
    ensures EraseColumn(r, col, e).grid[k] == ErasedCell(r, col, col + 1, e, k)
    ensures EraseColumn(r, col, e).style[k] == ErasedStyle(r, col, col + 1, e, k)
  {
    hide WellFormed, Place, IsProtected;
    PlaceKeeps(r.grid, col, e.fill);
    PlaceNarrowAt(r.grid, col, e.fill, k);
    Neighbours(r.grid, col);
    Neighbours(r.grid, k);
  }

  /** The columns still to be written to do not depend on the first one having been written to. */
  lemma HitLater(r: RowValue, col: nat, endCol: int, e: Erasure, k: int)
    requires WellFormed(r.grid) && col < endCol <= |r.grid| == |r.style| && Width(e.fill) == 1
    ensures Hit(EraseColumn(r, col, e).style, col + 1, endCol, e, k) <==>
      k != col && Hit(r.style, col, endCol, e, k)
    ensures Hit(r.style, col, col + 1, e, k) <==> k == col && Hit(r.style, col, endCol, e, k)
    ensures Hit(r.style, col, endCol, e, k) ==> col <= k < endCol
  {
    hide WellFormed, Place, IsProtected, EraseColumn;
    if col < k < |r.grid| {
      OneErased(r, col, e, k);
    }
  }

  lemma LaterCell(r: RowValue, col: nat, endCol: int, e: Erasure, k: nat)
    requires WellFormed(r.grid) && col < endCol <= |r.grid| == |r.style| && Width(e.fill) == 1 && k < |r.grid|
    ensures var r1 := EraseColumn(r, col, e);
      && ErasedCell(r1, col + 1, endCol, e, k) == ErasedCell(r, col, endCol, e, k)
      && ErasedStyle(r1, col + 1, endCol, e, k) == ErasedStyle(r, col, endCol, e, k)
  {
    hide WellFormed, EraseColumn, Hit;
    LatinIsNarrow(SPACE);
    HitLater(r, col, endCol, e, k - 1);
    HitLater(r, col, endCol, e, k);
    HitLater(r, col, endCol, e, k + 1);
    HitLater(r, col, endCol, e, k + 2);
    OneErased(r, col, e, k);
    Neighbours(r.grid, k);
    Neighbours(EraseColumn(r, col, e).grid, k);
    if k + 1 < |r.grid| {
      OneErased(r, col, e, k + 1);
      Neighbours(r.grid, k + 1);
    }
  }

  /** Every column after part of a row was erased. */
  lemma {:induction false} ErasedColumn(r: RowValue, col: nat, endCol: int, e: Erasure, k: nat)
    requires WellFormed(r.grid) && endCol <= |r.grid| == |r.style| && Width(e.fill) == 1 && k < |r.grid|
    ensures WellFormed(EraseColumns(r, col, endCol, e).grid)
    ensures EraseColumns(r, col, endCol, e).grid[k] == ErasedCell(r, col, endCol, e, k)
    ensures EraseColumns(r, col, endCol, e).style[k] == ErasedStyle(r, col, endCol, e, k)
    decreases endCol - col
  {
    hide WellFormed, EraseColumn, ErasedCell, ErasedStyle;
    if col < endCol {
      OneErased(r, col, e, k);
      LaterCell(r, col, endCol, e, k);
      ErasedColumn(EraseColumn(r, col, e), col + 1, endCol, e, k);
    } else {
      NothingHit(r, col, endCol, e, k);
    }
  }

  lemma NothingHit(r: RowValue, col: nat, endCol: int, e: Erasure, k: nat)
    requires endCol <= col && k < |r.grid| == |r.style|
    ensures ErasedCell(r, col, endCol, e, k) == r.grid[k] && ErasedStyle(r, col, endCol, e, k) == r.style[k]
  {
  }

  /** A protected character survives a selective erasure exactly when it is narrow, or its second column is protected,
      too, or lies outside the erased columns. Writing a wide character protects its first column only. */
  lemma ProtectedSurvivesExactly(r: RowValue, col: nat, endCol: int, e: Erasure, k: nat)
    requires WellFormed(r.grid) && endCol <= |r.grid| == |r.style| && Width(e.fill) == 1 && k < |r.grid|
    requires e.selective && IsProtected(r.style[k]) && r.grid[k].Cell?
    ensures WideAt(r.grid, k) ==> k + 1 < |r.grid|
    ensures EraseColumns(r, col, endCol, e).grid[k] == r.grid[k] <==>
      !WideAt(r.grid, k) || !(col <= k + 1 < endCol) || IsProtected(r.style[k + 1])
  {
    LatinIsNarrow(SPACE);
    Neighbours(r.grid, k);
    hide WellFormed, IsProtected, EraseColumns;
    ErasedColumn(r, col, endCol, e, k);
  }

  // ----- The screen -----

  lemma CellErased(s: Screens, row: nat, col: nat, e: Erasure, i: nat)
    requires Ok(s) && row < s.rows && col < s.columns && ErasureOk(e) && i < s.rows
    ensures |Active(EraseCell(s, row, col, e)).screen| == |Active(s).screen| == s.rows
    ensures P.GoodRow(Active(s).screen[row], s.columns)
    ensures Active(EraseCell(s, row, col, e)).screen[i] ==
      if i == row then EraseColumn(Active(s).screen[i], col, e) else Active(s).screen[i]
  {
    ActiveIsGood(s);
    assert P.GoodRow(Active(s).screen[row], s.columns);
    hide Ok, P.Good, TextStyle.IsEncoded, IsProtected, WellFormed;
  }

  /** Erasing part of a row of the screen. */
  lemma {:induction false} RowErased(s: Screens, row: nat, col: nat, endCol: int, e: Erasure, i: nat)
    requires Ok(s) && row < s.rows && endCol <= s.columns && ErasureOk(e) && i < s.rows
    ensures |Active(EraseRow(s, row, col, endCol, e)).screen| == |Active(s).screen| == s.rows
    ensures P.GoodRow(Active(s).screen[i], s.columns)
    ensures Active(EraseRow(s, row, col, endCol, e)).screen[i] ==
      if i == row then EraseColumns(Active(s).screen[i], col, endCol, e) else Active(s).screen[i]
    decreases endCol - col
  {
    ActiveIsGood(s);
    assert P.GoodRow(Active(s).screen[i], s.columns);
    hide Ok, P.Good, TextStyle.IsEncoded, EraseCell, EraseColumn, WellFormed, Active;
    if col < endCol {
      CellErased(s, row, col, e, i);
      RowErased(EraseCell(s, row, col, e), row, col + 1, endCol, e, i);
    }
  }

  /** Erasing an area erases the same columns of each of its rows. */
  lemma {:induction false} AreaErased(s: Screens, a: Area, row: nat, e: Erasure, i: nat)
    requires Ok(s) && a.endRow <= s.rows && a.endCol <= s.columns && ErasureOk(e) && i < s.rows
    ensures var s' := EraseArea(s, row, a.endRow, a.startCol, a.endCol, e);
      && |Active(s').screen| == |Active(s).screen| == s.rows
      && P.GoodRow(Active(s).screen[i], s.columns)
      && Active(s').screen[i] ==
         if row <= i < a.endRow then EraseColumns(Active(s).screen[i], a.startCol, a.endCol, e)
         else Active(s).screen[i]
    decreases a.endRow - row
  {
    ActiveIsGood(s);
    assert P.GoodRow(Active(s).screen[i], s.columns);
    hide Ok, P.Good, TextStyle.IsEncoded, EraseRow, EraseColumns, WellFormed, Active;
    if row < a.endRow {
      RowErased(s, row, a.startCol, a.endCol, e, i);
      AreaErased(EraseRow(s, row, a.startCol, a.endCol, e), a, row + 1, e, i);
    }
  }

  /** Row `i` of the screen. */
  function RowAt(s: Screens, i: nat): (r: RowValue)
    requires Ok(s) && i < s.rows
    ensures P.GoodRow(r, s.columns)
  {
    ActiveIsGood(s);
    assert P.GoodRow(Active(s).screen[i], s.columns);
    Active(s).screen[i]
  }

  /** A row of which an area was erased, if it goes through the row. */
  predicate ErasedRow(r: RowValue, r': RowValue, a: Area, e: Erasure, i: nat)
    requires |r.grid| == |r.style| == |r'.grid| == |r'.style|
  {
    forall k :: 0 <= k < |r.grid| ==>
      if a.startRow <= i < a.endRow then
        && r'.grid[k] == ErasedCell(r, a.startCol, a.endCol, e, k)
        && r'.style[k] == ErasedStyle(r, a.startCol, a.endCol, e, k)
      else r'.grid[k] == r.grid[k] && r'.style[k] == r.style[k]
  }

  lemma AreaErasedAt(s: Screens, a: Area, e: Erasure, i: nat)
    requires Ok(s) && a.endRow <= s.rows && a.endCol <= s.columns && ErasureOk(e) && i < s.rows
    ensures ErasedRow(RowAt(s, i), RowAt(EraseArea(s, a.startRow, a.endRow, a.startCol, a.endCol, e), i), a, e, i)
  {
    AreaErased(s, a, a.startRow, e, i);
    hide Ok, ErasureOk, EraseArea, EraseColumns, ErasedCell, ErasedStyle, WellFormed;
    assert Width(e.fill) == 1 by { FillIsNarrow(e); }
    var r := RowAt(s, i);
    if a.startRow <= i < a.endRow {
      forall k | 0 <= k < |r.grid|
        ensures EraseColumns(r, a.startCol, a.endCol, e).grid[k] == ErasedCell(r, a.startCol, a.endCol, e, k)
        ensures EraseColumns(r, a.startCol, a.endCol, e).style[k] == ErasedStyle(r, a.startCol, a.endCol, e, k)
      {
        ErasedColumn(r, a.startCol, a.endCol, e, k);
      }
    }
  }

  lemma FillIsNarrow(e: Erasure)
    requires ErasureOk(e)
    ensures Width(e.fill) == 1
  {
  }

  /** DECSED and DECSEL. */
  lemma SelectiveEraseErases(t: Terminal, arg: int, justRow: bool, i: nat)
    requires Inv(t) && i < Rows(t)
    ensures Ok(t.screens) && Ok(SelectiveErase(t, arg, justRow).screens)
    ensures ErasedRow(RowAt(t.screens, i), RowAt(SelectiveErase(t, arg, justRow).screens, i),
                      AreaToErase(t, arg, justRow), Erasure(SPACE, CurrentStyle(t), true, false), i)
  {
    LatinIsNarrow(SPACE);
    CellOps.CursorFits(t);
    var a := AreaToErase(t, arg, justRow);
    hide Ok, EraseArea, ErasedRow, RowAt;
    AreaErasedAt(t.screens, a, Erasure(SPACE, CurrentStyle(t), true, false), i);
  }

  /** DECERA, DECSERA and DECFRA. */
  lemma EraseRectangleErases(t: Terminal, index: nat, e: Erasure, i: nat)
    requires Inv(t) && index <= 1 && ErasureOk(e) && i < Rows(t)
    ensures Ok(t.screens) && Ok(EraseRectangle(t, index, e).screens)
    ensures ErasedRow(RowAt(t.screens, i), RowAt(EraseRectangle(t, index, e).screens, i), AreaOfArgs(t, index), e, i)
  {
    CellOps.CursorFits(t);
    var a := AreaOfArgs(t, index);
    hide Ok, EraseArea, ErasedRow, RowAt, ErasureOk, AreaOfArgs;
    AreaErasedAt(t.screens, a, e, i);
  }

  /** The rectangle is the one asked for, from the corner of the margins on in origin mode, as far as it is inside. */
  lemma AreaIsAsked(t: Terminal, index: nat, i: nat, k: nat)
    requires Inv(t) && index <= 1 && i < Rows(t) && k < Columns(t)
    ensures var a, m := AreaOfArgs(t, index), Effective(t);
      && (a.startRow <= i < a.endRow <==>
            i < m.bottom && Arg(t, index, 1) <= i + 1 - m.top <= Arg(t, index + 2, Rows(t)))
      && (a.startCol <= k < a.endCol <==>
            k < m.right && Arg(t, index + 1, 1) <= k + 1 - m.left <= Arg(t, index + 3, Columns(t)))
  {
    EffectiveFits(t);
    hide Inv, Arg, Effective;
  }

  /** A wide character written to a blank row with a protected style is not protected against erasing both its columns:
      the second one has kept the style of the blank. */
  lemma ProtectedWideLost(columns: nat, c: CodePoint, blank: Style, protected: Style, e: Erasure)
    requires 2 <= columns && Width(c) == 2 && Width(e.fill) == 1 && e.selective
    requires IsProtected(protected) && !IsProtected(blank)
    ensures var r := Put(BlankRow(columns, blank, false), 0, c, protected);
      && WideAt(r.grid, 0) && r.style[0] == protected && EraseColumns(r, 0, 2, e).grid[0] == BLANK
  {
    LatinIsNarrow(SPACE);
    var b := BlankRow(columns, blank, false);
    var r := Put(b, 0, c, protected);
    PlaceKeeps(b.grid, 0, c);
    hide WellFormed, IsProtected, EraseColumns;
    ErasedColumn(r, 0, 2, e, 0);
  }

  // ----- What DECSED erases -----

  predicate InArea(a: Area, i: nat, k: nat) {
    a.startRow <= i < a.endRow && a.startCol <= k < a.endCol
  }

  /** The columns that ED erases. */
  predicate InDisplay(t: Terminal, arg: int, i: nat, k: nat)
    requires Inv(t) && i < Rows(t)
  {
    var r := CellOps.DisplayRange(t, arg, i); r.from <= k < r.to
  }

  /** DECSED goes through the columns that ED erases exactly when there are no whole lines above or below the cursor, or
      the cursor's line is erased as a whole, too: on the other lines it uses the columns of the cursor's line. */
  lemma SelectiveIsDisplayExactly(t: Terminal, arg: int)
    requires Inv(t)
    ensures t.cursor.row < Rows(t) && t.cursor.col < Columns(t)
    ensures (forall i: nat, k: nat :: i < Rows(t) && k < Columns(t) ==>
        (InArea(AreaToErase(t, arg, false), i, k) <==> InDisplay(t, arg, i, k))) <==>
      match arg
      case 0 => t.cursor.col == 0 || t.cursor.row == Rows(t) - 1
      case 1 => t.cursor.col == Columns(t) - 1 || t.cursor.row == 0
      case _ => true
  {
    CellOps.CursorFits(t);
    hide Ok, SavedOk, TextStyle.IsEncoded;
    var a, row, col := AreaToErase(t, arg, false), t.cursor.row, t.cursor.col;
    if arg == 0 && 0 < col && row < Rows(t) - 1 {
      assert !InArea(a, row + 1, 0) && InDisplay(t, arg, row + 1, 0);
    }
    if arg == 1 && col < Columns(t) - 1 && 0 < row {
      assert !InArea(a, 0, Columns(t) - 1) && InDisplay(t, arg, 0, Columns(t) - 1);
    }
  }

  /** With the cursor in the second column of the top line, DECSED spares the first column of the line below. */
  lemma SelectiveSparesColumn(t: Terminal)
    requires Inv(t) && t.cursor.row == 0 && t.cursor.col == 1
    ensures 1 < Rows(t) && !InArea(AreaToErase(t, 0, false), 1, 0) && InDisplay(t, 0, 1, 0)
  {
    CellOps.CursorFits(t);
    hide Ok, SavedOk, TextStyle.IsEncoded;
  }
}
