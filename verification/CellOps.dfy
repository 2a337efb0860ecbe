/** Erasing, inserting and deleting cells: what these commands do to every cell of the screen. */
module CellOps {
  import opened Common
  import opened WcWidth
  import opened Utf16
  import opened Row
  import opened CellCopy
  import opened CharOps
  import P = Page
  import Styles
  import TextStyle
  import opened Display
  import opened Sgr
  import opened TerminalState
  import opened Commands

  // ----- Erasing -----

  lemma GridFits(s: Screens, i: nat)
    requires Ok(s) && i < s.rows
    ensures |Active(s).screen| == s.rows && |Active(s).screen[i].grid| == s.columns == Active(s).columns
    ensures WellFormed(Active(s).screen[i].grid) && |Active(s).screen[i].style| == s.columns
  {
    ActiveIsGood(s);
    assert P.GoodRow(Active(s).screen[i], s.columns);
  }

  /** Row `i` of the screen. */
  function GridAt(s: Screens, i: nat): (g: Grid)
    requires Ok(s) && i < s.rows
    ensures |g| == s.columns
  {
    GridFits(s, i);
    Active(s).screen[i].grid
  }

  /** Column `k` of row `i` of the screen. */
  function CellAt(s: Screens, i: nat, k: nat): Slot
    requires Ok(s) && i < s.rows && k < s.columns
  {
    GridAt(s, i)[k]
  }

  /** Clearing a rectangle. */
  lemma ClearedCell(s: Screens, x: nat, y: nat, w: nat, h: int, st: Style, i: nat, k: nat)
    requires Ok(s) && x + w <= s.columns && y + h <= s.rows && TextStyle.IsEncoded(st) && i < s.rows && k < s.columns
    ensures CellAt(Clear(s, x, y, w, h, st), i, k) ==
      if y <= i < y + h then Erased(GridAt(s, i), Range(x, x + w), k) else CellAt(s, i, k)
  {
    LatinIsNarrow(SPACE);
    ActiveIsGood(s);
    GridFits(s, i);
    hide Ok, P.Good, P.BlockSet, WellFormed, P.FillRow, TextStyle.IsEncoded;
    if h > 0 {
      P.BlockSetRows(Active(s), x, y, w, h, SPACE, st, i);
      if w > 0 {
        P.FillRowAt(Active(s).screen[i], x, w, SPACE, st, k);
      } else {
        NothingFilled(Active(s).screen[i], x, st);
      }
    }
  }

  lemma NothingFilled(r: RowValue, x: nat, st: Style)
    requires x <= |r.grid| == |r.style| && Width(SPACE) == 1
    ensures P.FillRow(r, x, 0, SPACE, st) == r
  {
  }

  /** The columns of the cursor's row that EL erases. */
  function LineRange(t: Terminal, arg: int): Range {
    match arg
    case 0 => Range(t.cursor.col, Columns(t))
    case 1 => Range(0, t.cursor.col + 1)
    case 2 => Range(0, Columns(t))
    case _ => Range(0, 0)
  }

  /** The columns of row `i` that ED erases. */
  function DisplayRange(t: Terminal, arg: int, i: nat): Range {
    if arg !in {0, 1, 2} then Range(0, 0)
    else if i == t.cursor.row then LineRange(t, arg)
    else if arg == 2 || (arg == 0 && i > t.cursor.row) || (arg == 1 && i < t.cursor.row) then Range(0, Columns(t))
    else Range(0, 0)
  }

  lemma CursorFits(t: Terminal)
    requires Inv(t)
    ensures Ok(t.screens) && t.cursor.row < Rows(t) && t.cursor.col < Columns(t) && TextStyle.IsEncoded(CurrentStyle(t))
  {
    hide Ok, PenOk, TextStyle.IsEncoded;
  }

  /** One more rectangle cleared with the current style. */
  lemma BlockCleared(t: Terminal, x: nat, y: nat, w: nat, h: int, i: nat, k: nat)
    requires Inv(t) && x + w <= Columns(t) && y + h <= Rows(t) && i < Rows(t) && k < Columns(t)
    ensures Ok(t.screens) && Ok(BlockClear(t, x, y, w, h).screens)
    ensures CellAt(BlockClear(t, x, y, w, h).screens, i, k) ==
      if y <= i < y + h then Erased(GridAt(t.screens, i), Range(x, x + w), k) else CellAt(t.screens, i, k)
  {
    hide Ok, PenOk, TextStyle.IsEncoded, Clear, Erased, GridAt, SavedOk;
    CursorFits(t);
    ClearedCell(t.screens, x, y, w, h, CurrentStyle(t), i, k);
  }

  /** EL erases from the cursor to the end, from the start to the cursor, or the whole line. */
  lemma EraseInLineErases(t: Terminal, arg: int, i: nat, k: nat)
    requires Inv(t) && i < Rows(t) && k < Columns(t)
    ensures Ok(t.screens) && Ok(EraseInLine(t, arg).screens) && t.cursor.col < Columns(t)
    ensures CellAt(EraseInLine(t, arg).screens, i, k) ==
      if i == t.cursor.row then Erased(GridAt(t.screens, i), LineRange(t, arg), k) else CellAt(t.screens, i, k)
  {
    hide Inv, Ok, BlockClear, Erased, GridAt;
    CursorFits(t);
    var r := LineRange(t, arg);
    if arg in {0, 1, 2} {
      BlockCleared(t, r.from, t.cursor.row, r.to - r.from, 1, i, k);
    } else {
      NothingErased(GridAt(t.screens, i), k);
    }
  }

  lemma NothingErased(g: Grid, k: nat)
    requires k < |g|
    ensures Erased(g, Range(0, 0), k) == g[k]
  {
  }

  /** ED erases the same columns of the cursor's line, and all lines below or above it. */
  lemma EraseInDisplayErases(t: Terminal, arg: int, i: nat, k: nat)
    requires Inv(t) && i < Rows(t) && k < Columns(t)
    ensures Ok(t.screens) && Ok(EraseInDisplay(t, arg).screens) && t.cursor.col < Columns(t)
    ensures CellAt(EraseInDisplay(t, arg).screens, i, k) == Erased(GridAt(t.screens, i), DisplayRange(t, arg, i), k)
  {
    hide Inv, Ok, BlockClear, Erased, GridAt;
    CursorFits(t);
    NothingErased(GridAt(t.screens, i), k);
    var row, col := t.cursor.row, t.cursor.col;
    match arg
    case 0 =>
      TwiceCleared(t, col, row, Columns(t) - col, 1, 0, row + 1, Columns(t), Rows(t) - (row + 1), i, k);
    case 1 =>
      TwiceCleared(t, 0, 0, Columns(t), row, 0, row, col + 1, 1, i, k);
    case 2 =>
      BlockCleared(t, 0, 0, Columns(t), Rows(t), i, k);
    case 3 =>
      HistoryForgotten(t, i, k);
    case _ =>
  }

  lemma HistoryForgotten(t: Terminal, i: nat, k: nat)
    requires Inv(t) && i < Rows(t) && k < Columns(t)
    ensures Ok(t.screens) && Ok(ClearTranscript(t).screens)
    ensures CellAt(ClearTranscript(t).screens, i, k) == CellAt(t.screens, i, k)
  {
    hide Ok, PenOk, SavedOk;
  }

  /** Two rectangles in different rows. */
  lemma TwiceCleared(
    t: Terminal, x: nat, y: nat, w: nat, h: nat, x': nat, y': nat, w': nat, h': nat, i: nat, k: nat)
    requires Inv(t) && x + w <= Columns(t) && y + h <= Rows(t) && x' + w' <= Columns(t) && y + h <= y'
    requires y' + h' <= Rows(t)
    requires i < Rows(t) && k < Columns(t)
    ensures var t' := BlockClear(BlockClear(t, x, y, w, h), x', y', w', h');
      && Ok(t.screens) && Ok(t'.screens)
      && CellAt(t'.screens, i, k) ==
         if y <= i < y + h then Erased(GridAt(t.screens, i), Range(x, x + w), k)
         else if y' <= i < y' + h' then Erased(GridAt(t.screens, i), Range(x', x' + w'), k)
         else CellAt(t.screens, i, k)
  {
    hide Inv, Ok, BlockClear, Erased, GridAt;
    BlockCleared(t, x, y, w, h, i, k);
    var t1 := BlockClear(t, x, y, w, h);
    BlockCleared(t1, x', y', w', h', i, k);
    if y' <= i < y' + h' {
      forall j | 0 <= j < Columns(t) ensures GridAt(t1.screens, i)[j] == GridAt(t.screens, i)[j] {
        BlockCleared(t, x, y, w, h, i, j);
      }
      assert GridAt(t1.screens, i) == GridAt(t.screens, i);
    }
  }

  /** ECH erases up to `n` columns from the cursor on. */
  lemma EraseCharactersErases(t: Terminal, n: int, i: nat, k: nat)
    requires Inv(t) && 0 < n && i < Rows(t) && k < Columns(t)
    ensures Ok(t.screens) && Ok(EraseCharacters(t, n).screens)
    ensures var to := Min(t.cursor.col + n, Columns(t));
      CellAt(EraseCharacters(t, n).screens, i, k) ==
        if i == t.cursor.row then Erased(GridAt(t.screens, i), Range(t.cursor.col, to), k) else CellAt(t.screens, i, k)
  {
    hide Inv, Ok, BlockClear, Erased, GridAt;
    CursorFits(t);
    BlockCleared(AboutToWrap(t, false), t.cursor.col, t.cursor.row, Min(n, Columns(t) - t.cursor.col), 1, i, k);
  }

  // ----- Inserting and deleting characters -----

  /** Copying a rectangle. */
  lemma CopiedCell(s: Screens, b: P.Block, i: nat, k: nat)
    requires Ok(s) && P.Fits(b, s.columns, s.rows) && i < s.rows && k < s.columns
    ensures CellAt(Copy(s, b), i, k) ==
      if b.dy <= i < b.dy + b.h then
        Written(GridAt(s, i), CellsRead(GridAt(s, b.sy + i - b.dy), b.sx, b.sx + b.w), b.dx, k)
      else CellAt(s, i, k)
  {
    ActiveIsGood(s);
    hide Ok, P.Good, P.BlockCopy, WellFormed, Written, CellsRead, Styles.PageEncoded;
    P.BlockCopyCell(Active(s), b, i, k);
  }

  lemma ShiftedInRow(s: Screens, row: nat, from: nat, w: nat, to: nat, i: nat)
    requires Ok(s) && row < s.rows && from + w <= s.columns && to + w <= s.columns && i < s.rows
    ensures GridAt(Copy(s, P.Block(from, row, w, 1, to, row)), i) ==
      if i == row then Shifted(GridAt(s, i), from, w, to) else GridAt(s, i)
  {
    hide Ok, GridAt, Written, CellsRead;
    var g, g' := GridAt(s, i), GridAt(Copy(s, P.Block(from, row, w, 1, to, row)), i);
    forall k | 0 <= k < s.columns ensures g'[k] == if i == row then Shifted(g, from, w, to)[k] else g[k] {
      CopiedCell(s, P.Block(from, row, w, 1, to, row), i, k);
    }
    if i == row {
      assert g' == Shifted(g, from, w, to);
    } else {
      assert g' == g;
    }
  }

  /** Clearing columns of a row. */
  lemma BlankedInRow(s: Screens, x: nat, row: nat, w: nat, st: Style, i: nat)
    requires Ok(s) && x + w <= s.columns && row < s.rows && TextStyle.IsEncoded(st) && i < s.rows
    ensures GridAt(Clear(s, x, row, w, 1, st), i) ==
      if i == row then Blanked(GridAt(s, i), Range(x, x + w)) else GridAt(s, i)
  {
    hide Ok, TextStyle.IsEncoded, Clear, Erased;
    var g, g' := GridAt(s, i), GridAt(Clear(s, x, row, w, 1, st), i);
    forall k | 0 <= k < s.columns ensures g'[k] == if i == row then Erased(g, Range(x, x + w), k) else g[k] {
      ClearedCell(s, x, row, w, 1, st, i, k);
    }
    if i == row {
      assert g' == Blanked(g, Range(x, x + w));
    } else {
      assert g' == g;
    }
  }

  /** How many of `n` characters are inserted or deleted at the cursor. */
  function Characters(t: Terminal, n: int): (k: nat)
    requires 0 < n && t.cursor.col < Columns(t)
    ensures t.cursor.col + k <= Columns(t) && 0 < k
  {
    Min(n, Columns(t) - t.cursor.col)
  }

  lemma InsertIsCopyAndClear(t: Terminal, n: int)
    requires Inv(t) && 0 < n && t.cursor.col < Columns(t)
    ensures var row, col, k := t.cursor.row, t.cursor.col, Characters(t, n);
      InsertCharacters(t, n).screens ==
        Clear(Copy(t.screens, P.Block(col, row, Columns(t) - col - k, 1, col + k, row)), col, row, k, 1,
              CurrentStyle(t))
  {
    hide Ok, Clear, Copy, TextStyle.IsEncoded;
  }

  lemma DeleteIsCopyAndClear(t: Terminal, n: int)
    requires Inv(t) && 0 < n && t.cursor.col < Columns(t)
    ensures var row, col, k := t.cursor.row, t.cursor.col, Characters(t, n);
      var w := Columns(t) - col - k;
      DeleteCharacters(t, n).screens ==
        Clear(Copy(t.screens, P.Block(col + k, row, w, 1, col, row)), col + w, row, k, 1, CurrentStyle(t))
  {
    hide Ok, Clear, Copy, TextStyle.IsEncoded;
  }

  /** ICH on the cells of every line. */
  lemma CharactersInserted(t: Terminal, n: int, i: nat)
    requires Inv(t) && 0 < n && i < Rows(t)
    ensures t.cursor.row < Rows(t) && t.cursor.col < Columns(t)
    ensures Ok(t.screens) && Ok(InsertCharacters(t, n).screens)
    ensures GridAt(InsertCharacters(t, n).screens, i) ==
      if i == t.cursor.row then Inserted(GridAt(t.screens, i), t.cursor.col, Characters(t, n)) else GridAt(t.screens, i)
  {
    hide Inv, Ok, Clear, Copy, TextStyle.IsEncoded, GridAt, PenStyle, InsertCharacters, Shifted, Blanked;
    CursorFits(t);
    InsertIsCopyAndClear(t, n);
    var row, col, k := t.cursor.row, t.cursor.col, Characters(t, n);
    var w := Columns(t) - col - k;
    ShiftedInRow(t.screens, row, col, w, col + k, i);
    BlankedInRow(Copy(t.screens, P.Block(col, row, w, 1, col + k, row)), col, row, k, CurrentStyle(t), i);
  }

  /** DCH on the cells of every line. */
  lemma CharactersDeleted(t: Terminal, n: int, i: nat)
    requires Inv(t) && 0 < n && i < Rows(t)
    ensures t.cursor.row < Rows(t) && t.cursor.col < Columns(t)
    ensures Ok(t.screens) && Ok(DeleteCharacters(t, n).screens)
    ensures GridAt(DeleteCharacters(t, n).screens, i) ==
      if i == t.cursor.row then Deleted(GridAt(t.screens, i), t.cursor.col, Characters(t, n)) else GridAt(t.screens, i)
  {
    hide Inv, Ok, Clear, Copy, TextStyle.IsEncoded, GridAt, PenStyle, DeleteCharacters, Shifted, Blanked;
    CursorFits(t);
    DeleteIsCopyAndClear(t, n);
    var row, col, k := t.cursor.row, t.cursor.col, Characters(t, n);
    var w := Columns(t) - col - k;
    ShiftedInRow(t.screens, row, col + k, w, col, i);
    BlankedInRow(Copy(t.screens, P.Block(col + k, row, w, 1, col, row)), col + w, row, k, CurrentStyle(t), i);
  }

  /** The line of the cursor. */
  function Line(t: Terminal): (g: Grid)
    requires Inv(t)
    ensures |g| == Columns(t) && WellFormed(g) && t.cursor.col < |g|
  {
    CursorFits(t);
    GridFits(t.screens, t.cursor.row);
    hide Inv, Ok, TextStyle.IsEncoded, WellFormed;
    GridAt(t.screens, t.cursor.row)
  }

  lemma LineInserted(t: Terminal, n: int)
    requires Inv(t) && 0 < n
    ensures var t1 := InsertCharacters(t, n);
      && t1.cursor.col == t.cursor.col && Characters(t1, n) == Characters(t, n)
      && Line(t1) == Inserted(Line(t), t.cursor.col, Characters(t, n))
  {
    InsertKeepsCursor(t, n);
    CursorFits(t);
    hide Inv, Ok, TextStyle.IsEncoded, GridAt, WellFormed, InsertCharacters, Inserted;
    CharactersInserted(t, n, t.cursor.row);
  }

  lemma LineDeleted(t: Terminal, n: int)
    requires Inv(t) && 0 < n
    ensures t.cursor.col < Columns(t)
    ensures Line(DeleteCharacters(t, n)) == Deleted(Line(t), t.cursor.col, Characters(t, n))
  {
    DeleteKeepsCursor(t, n);
    CursorFits(t);
    hide Inv, Ok, TextStyle.IsEncoded, GridAt, WellFormed, DeleteCharacters, Deleted;
    CharactersDeleted(t, n, t.cursor.row);
  }

  /** ICH inserts spaces at the cursor exactly when it cuts no wide character and none takes over marks. */
  lemma InsertCharactersInserts(t: Terminal, n: int)
    requires Inv(t) && 0 < n
    ensures Line(InsertCharacters(t, n)) == Insert(Line(t), t.cursor.col, Characters(t, n)) <==>
      CanInsert(Line(t), t.cursor.col, Characters(t, n))
  {
    hide Inv, Line, WellFormed, InsertCharacters, Insert, Inserted, CanInsert;
    LineInserted(t, n);
    InsertExactly(Line(t), t.cursor.col, Characters(t, n));
  }

  /** DCH deletes characters at the cursor, exactly then. */
  lemma DeleteCharactersDeletes(t: Terminal, n: int)
    requires Inv(t) && 0 < n
    ensures Line(DeleteCharacters(t, n)) == Delete(Line(t), t.cursor.col, Characters(t, n)) <==>
      CanDelete(Line(t), t.cursor.col, Characters(t, n))
  {
    hide Inv, Line, WellFormed, DeleteCharacters, Delete, Deleted, CanDelete;
    LineDeleted(t, n);
    DeleteExactly(Line(t), t.cursor.col, Characters(t, n));
  }

  /** `n` characters inserted and then deleted restore the line, except that its last columns, as many as were inserted,
      are blank: exactly when both commands do what they should. */
  lemma DeleteUndoesInsert(t: Terminal, n: int)
    requires Inv(t) && 0 < n
    ensures Line(DeleteCharacters(InsertCharacters(t, n), n)) == WithoutLast(Line(t), Characters(t, n)) <==>
      CanReturn(Line(t), t.cursor.col, Characters(t, n))
  {
    hide Inv, Line, WellFormed, InsertCharacters, DeleteCharacters, Inserted, Deleted, WithoutLast, CanReturn;
    LineInserted(t, n);
    LineDeleted(InsertCharacters(t, n), n);
    ReturnExactly(Line(t), t.cursor.col, Characters(t, n));
  }

  lemma InsertKeepsCursor(t: Terminal, n: int)
    requires Inv(t) && 0 < n
    ensures var t1 := InsertCharacters(t, n);
      t1.cursor.row == t.cursor.row && t1.cursor.col == t.cursor.col && Rows(t1) == Rows(t) && Columns(t1) == Columns(t)
  {
    hide Ok, Clear, Copy, TextStyle.IsEncoded;
  }

  lemma DeleteKeepsCursor(t: Terminal, n: int)
    requires Inv(t) && 0 < n
    ensures var t1 := DeleteCharacters(t, n);
      t1.cursor.row == t.cursor.row && t1.cursor.col == t.cursor.col && Rows(t1) == Rows(t) && Columns(t1) == Columns(t)
  {
    hide Ok, Clear, Copy, TextStyle.IsEncoded;
  }
}
