/** Moving the cursor and the columns of the screen by one: backspace, the index sequences, and inserting and deleting
    columns. */
module MotionOps {
  import opened Common
  import opened WcWidth
  import opened Utf16
  import opened Row
  import P = Page
  import TextStyle
  import CellCopy
  import CharOps
  import opened Display
  import opened CsiArgs
  import opened TerminalState
  import opened Commands
  import opened Interpreter
  import opened Sequences
  import opened CursorOps
  import opened CellOps
  import WriteOps
  import ModeOps

  // ----- Backspace -----

  /** The row above the cursor is continued on the cursor's row. */
  predicate Continued(t: Terminal) {
    0 < t.cursor.row <= |Active(t.screens).screen| && Active(t.screens).screen[t.cursor.row - 1].wrap
  }

  /** BS moves left. From the first column it moves to the end of the row above if that is continued, which then it is
      not any more. */
  lemma BacksUp(t: Terminal)
    requires Inv(t)
    ensures t.cursor.col > 0 ==> Yields(t, [8], t.(cursor := Cursor(t.cursor.row, t.cursor.col - 1, false)))
    ensures t.cursor.col == 0 && !Continued(t) ==> Yields(t, [8], t)
    ensures t.cursor.col == 0 && Continued(t) ==>
      var row: nat := t.cursor.row - 1;
      var r := Active(t.screens).screen[row];
      row < |Active(t.screens).screen| && 0 < Columns(t) &&
      Yields(t, [8], t.(screens := WriteOps.WithRow(t.screens, row, r.(wrap := false)),
                        cursor := Cursor(row, Columns(t) - 1, false)))
  {
    hide Inv, Yields, Backspace;
    FeedControl(t, 8);
    BackspaceMoves(t);
    ModeOps.TwoRows(t);
  }

  lemma BackspaceMoves(t: Terminal)
    requires Inv(t)
    ensures t.cursor.row < |Active(t.screens).screen| && 0 < Columns(t)
    ensures Backspace(t) ==
      if t.cursor.col > 0 then t.(cursor := Cursor(t.cursor.row, t.cursor.col - 1, false))
      else if Continued(t) then
        var r := Active(t.screens).screen[t.cursor.row - 1];
        t.(screens := WriteOps.WithRow(t.screens, t.cursor.row - 1, r.(wrap := false)),
           cursor := Cursor(t.cursor.row - 1, Columns(t) - 1, false))
      else t
  {
    CursorInside(t);
    WriteOps.Fits(t);
    hide Ok, SavedOk, P.Good, P.GoodRow;
  }

  // ----- To the bottom -----

  /** ESC F is meant for the lower left corner, but the source gives row and column the wrong way round: the cursor
      always ends in the top row of the screen, and the region has at least two. */
  lemma GoesToTopRow(t: Terminal)
    requires Inv(t) && CanStart(t)
    ensures 0 < t.margins.bottom && 0 < Columns(t)
    ensures Yields(t, [ESC, 70],
                   EscapeOver(t).(cursor := Cursor(0, Min(t.margins.bottom - 1, Columns(t) - 1), false)))
  {
    hide Inv, Yields, NoArgs;
    ModeOps.TwoRows(t);
    CursorInside(t);
    FeedEscMotion(t, 70);
  }

  // ----- Reverse index -----

  /** RI above the top margin, or on it, inserts a line at the margin, as `LineOps.ReverseIndexInserts` says;
      elsewhere it moves up, and a pending wrap stays pending. */
  lemma ReverseIndexMoves(t: Terminal)
    requires Inv(t) && CanStart(t)
    ensures Inv(EscapeOver(t)) && Yields(t, [ESC, 77], ReverseIndex(EscapeOver(t)))
    ensures t.cursor.row > t.margins.top ==>
      ReverseIndex(EscapeOver(t)) == EscapeOver(t).(cursor := t.cursor.(row := t.cursor.row - 1))
    ensures t.cursor.row <= t.margins.top ==>
      ReverseIndex(EscapeOver(t)) == EscapeOver(t).(screens := ReverseIndex(EscapeOver(t)).screens)
  {
    hide Inv, Yields, NoArgs, ReverseIndex;
    FeedEscMotion(t, 77);
    EscapedKeeps(t);
    ReverseIndexKeeps(EscapeOver(t));
    ReverseIndexFinishes(t);
  }

  lemma EscapedKeeps(t: Terminal)
    requires Inv(t)
    ensures Inv(Escaped(t)) && Inv(EscapeOver(t))
  {
    hide Ok;
  }

  lemma ReverseIndexKeeps(t: Terminal)
    requires Inv(t)
    ensures t.cursor.row > t.margins.top ==> ReverseIndex(t) == t.(cursor := t.cursor.(row := t.cursor.row - 1))
    ensures t.cursor.row <= t.margins.top ==> ReverseIndex(t) == t.(screens := ReverseIndex(t).screens)
  {
    hide Ok, Copy, Clear;
  }

  lemma ReverseIndexFinishes(t: Terminal)
    requires Inv(t) && Inv(Escaped(t)) && Inv(EscapeOver(t))
    ensures Finish(ReverseIndex(Escaped(t))) == ReverseIndex(EscapeOver(t))
  {
    hide Ok, Copy, Clear, NoArgs;
  }

  // ----- Columns -----

  /** Copying the columns from `from` on of rows [top, bottom) within each row. */
  lemma ShiftedRows(s: Screens, top: nat, bottom: nat, from: nat, w: nat, to: nat, i: nat)
    requires Ok(s) && top <= bottom <= s.rows && from + w <= s.columns && to + w <= s.columns && i < s.rows
    ensures var s' := Copy(s, P.Block(from, top, w, bottom - top, to, top));
      && s'.rows == s.rows && s'.columns == s.columns
      && GridAt(s', i) == if top <= i < bottom then CharOps.Shifted(GridAt(s, i), from, w, to) else GridAt(s, i)
  {
    hide Ok, GridAt, CellCopy.Written, CellCopy.CellsRead;
    var b := P.Block(from, top, w, bottom - top, to, top);
    var g, g' := GridAt(s, i), GridAt(Copy(s, b), i);
    forall k | 0 <= k < s.columns
      ensures g'[k] == if top <= i < bottom then CharOps.Shifted(g, from, w, to)[k] else g[k]
    {
      CellOps.CopiedCell(s, b, i, k);
    }
    if top <= i < bottom {
      assert g' == CharOps.Shifted(g, from, w, to);
    } else {
      assert g' == g;
    }
  }

  /** Clearing columns of rows [top, bottom). */
  lemma BlankedRows(s: Screens, x: nat, top: nat, w: nat, bottom: nat, st: Style, i: nat)
    requires Ok(s) && x + w <= s.columns && top <= bottom <= s.rows && TextStyle.IsEncoded(st) && i < s.rows
    ensures GridAt(Clear(s, x, top, w, bottom - top, st), i) ==
      if top <= i < bottom then CharOps.Blanked(GridAt(s, i), CharOps.Range(x, x + w)) else GridAt(s, i)
  {
    hide Ok, TextStyle.IsEncoded, Clear, CharOps.Erased, GridAt;
    var g, g' := GridAt(s, i), GridAt(Clear(s, x, top, w, bottom - top, st), i);
    forall k | 0 <= k < s.columns
      ensures g'[k] == if top <= i < bottom then CharOps.Erased(g, CharOps.Range(x, x + w), k) else g[k]
    {
      ClearedCell(s, x, top, w, bottom - top, st, i, k);
    }
    if top <= i < bottom {
      assert g' == CharOps.Blanked(g, CharOps.Range(x, x + w));
    } else {
      assert g' == g;
    }
  }

  /** `k` blank columns have come in at column `col` of rows [top, bottom). */
  predicate ColumnsInserted(s: Screens, s': Screens, top: nat, bottom: nat, col: nat, k: nat)
    requires Ok(s) && Ok(s') && s'.rows == s.rows && s'.columns == s.columns && col + k <= s.columns
  {
    forall i :: 0 <= i < s.rows ==>
      GridAt(s', i) == if top <= i < bottom then CharOps.Inserted(GridAt(s, i), col, k) else GridAt(s, i)
  }

  /** `k` columns have gone at column `col` of rows [top, bottom), and blank ones have come in at the end. */
  predicate ColumnsDeleted(s: Screens, s': Screens, top: nat, bottom: nat, col: nat, k: nat)
    requires Ok(s) && Ok(s') && s'.rows == s.rows && s'.columns == s.columns && col + k <= s.columns
  {
    forall i :: 0 <= i < s.rows ==>
      GridAt(s', i) == if top <= i < bottom then CharOps.Deleted(GridAt(s, i), col, k) else GridAt(s, i)
  }

  ghost function Inserting(s: Screens, top: nat, bottom: nat, col: nat, k: nat, st: Style): (s': Screens)
    requires Ok(s) && top <= bottom <= s.rows && col + k <= s.columns && TextStyle.IsEncoded(st)
    ensures Ok(s') && s'.rows == s.rows && s'.columns == s.columns
  {
    hide Ok, TextStyle.IsEncoded;
    Clear(Copy(s, P.Block(col, top, s.columns - col - k, bottom - top, col + k, top)), col, top, k, bottom - top, st)
  }

  lemma InsertingRow(s: Screens, s': Screens, top: nat, bottom: nat, col: nat, k: nat, st: Style, i: nat)
    requires Ok(s) && top <= bottom <= s.rows && col + k <= s.columns && TextStyle.IsEncoded(st) && i < s.rows
    requires s' == Inserting(s, top, bottom, col, k, st)
    ensures GridAt(s', i) == if top <= i < bottom then CharOps.Inserted(GridAt(s, i), col, k) else GridAt(s, i)
  {
    hide Ok, Clear, Copy, TextStyle.IsEncoded, GridAt, CharOps.Shifted, CharOps.Blanked, Active, WithActive, OnlyActive,
      CharOps.Inserted, Inserting, CharOps.Erased, CellCopy.Written, CellCopy.CellsRead;
    var w := s.columns - col - k;
    InsertingIs(s, top, bottom, col, k, st);
    ShiftedRows(s, top, bottom, col, w, col + k, i);
    BlankedRows(Copy(s, P.Block(col, top, w, bottom - top, col + k, top)), col, top, k, bottom, st, i);
    InsertedIs(GridAt(s, i), col, k);
  }

  lemma InsertingIs(s: Screens, top: nat, bottom: nat, col: nat, k: nat, st: Style)
    requires Ok(s) && top <= bottom <= s.rows && col + k <= s.columns && TextStyle.IsEncoded(st)
    ensures var s1 := Copy(s, P.Block(col, top, s.columns - col - k, bottom - top, col + k, top));
      s1.rows == s.rows && s1.columns == s.columns &&
      Inserting(s, top, bottom, col, k, st) == Clear(s1, col, top, k, bottom - top, st)
  {
    hide Ok, Clear, Copy, TextStyle.IsEncoded;
  }

  lemma InsertedIs(g: Grid, col: nat, k: nat)
    requires col + k <= |g|
    ensures CharOps.Inserted(g, col, k) ==
      CharOps.Blanked(CharOps.Shifted(g, col, |g| - col - k, col + k), CharOps.Range(col, col + k))
  {
  }

  lemma InsertingInserts(s: Screens, top: nat, bottom: nat, col: nat, k: nat, st: Style)
    requires Ok(s) && top <= bottom <= s.rows && col + k <= s.columns && TextStyle.IsEncoded(st)
    ensures ColumnsInserted(s, Inserting(s, top, bottom, col, k, st), top, bottom, col, k)
  {
    hide Ok, TextStyle.IsEncoded, GridAt, CharOps.Inserted, Inserting;
    forall i | 0 <= i < s.rows
      ensures GridAt(Inserting(s, top, bottom, col, k, st), i) ==
        if top <= i < bottom then CharOps.Inserted(GridAt(s, i), col, k) else GridAt(s, i)
    {
      InsertingRow(s, Inserting(s, top, bottom, col, k, st), top, bottom, col, k, st, i);
    }
  }

  ghost function Deleting(s: Screens, top: nat, bottom: nat, col: nat, k: nat, st: Style): (s': Screens)
    requires Ok(s) && top <= bottom <= s.rows && col + k <= s.columns && TextStyle.IsEncoded(st)
    ensures Ok(s') && s'.rows == s.rows && s'.columns == s.columns
  {
    hide Ok, TextStyle.IsEncoded;
    Clear(Copy(s, P.Block(col + k, top, s.columns - col - k, bottom - top, col, top)), s.columns - k, top, k,
          bottom - top, st)
  }

  lemma DeletingRow(s: Screens, top: nat, bottom: nat, col: nat, k: nat, st: Style, i: nat)
    requires Ok(s) && top <= bottom <= s.rows && col + k <= s.columns && TextStyle.IsEncoded(st) && i < s.rows
    ensures GridAt(Deleting(s, top, bottom, col, k, st), i) ==
      if top <= i < bottom then CharOps.Deleted(GridAt(s, i), col, k) else GridAt(s, i)
  {
    hide Ok, Clear, Copy, TextStyle.IsEncoded, GridAt, CharOps.Shifted, CharOps.Blanked, Active, WithActive, OnlyActive,
      CharOps.Erased, CellCopy.Written, CellCopy.CellsRead;
    var w := s.columns - col - k;
    ShiftedRows(s, top, bottom, col + k, w, col, i);
    BlankedRows(Copy(s, P.Block(col + k, top, w, bottom - top, col, top)), s.columns - k, top, k, bottom, st, i);
  }

  lemma DeletingDeletes(s: Screens, top: nat, bottom: nat, col: nat, k: nat, st: Style)
    requires Ok(s) && top <= bottom <= s.rows && col + k <= s.columns && TextStyle.IsEncoded(st)
    ensures ColumnsDeleted(s, Deleting(s, top, bottom, col, k, st), top, bottom, col, k)
  {
    hide Ok, TextStyle.IsEncoded, GridAt, CharOps.Deleted, Deleting;
    forall i | 0 <= i < s.rows
      ensures GridAt(Deleting(s, top, bottom, col, k, st), i) ==
        if top <= i < bottom then CharOps.Deleted(GridAt(s, i), col, k) else GridAt(s, i)
    {
      DeletingRow(s, top, bottom, col, k, st, i);
    }
  }

  /** The region of the index sequences, and their style: that of the pen without its effects. */
  lemma RegionFits(t: Terminal)
    requires Inv(t)
    ensures Ok(t.screens) && TextStyle.IsEncoded(BlankStyle(t)) && TextStyle.IsEncoded(CurrentStyle(t))
    ensures t.margins.top <= t.margins.bottom <= Rows(t) && 2 <= Columns(t)
    ensures t.cursor.row < Rows(t) && t.cursor.col < Columns(t)
  {
    ModeOps.EncodedStyle(t);
    hide TextStyle.IsEncoded, BlankStyle;
  }

  lemma BackIndexMoves(t: Terminal)
    requires Inv(t) && t.cursor.col > 0
    ensures BackIndex(t) == t.(cursor := t.cursor.(col := t.cursor.col - 1))
  {
    hide Ok, Copy, Clear, BlankStyle;
  }

  lemma CopyIsEdit(t: Terminal, b: P.Block)
    requires Inv(t) && P.Fits(b, Columns(t), Rows(t))
    ensures Ok(t.screens) && Inv(BlockCopy(t, b.sx, b.sy, b.w, b.h, b.dx, b.dy))
    ensures BlockCopy(t, b.sx, b.sy, b.w, b.h, b.dx, b.dy) == t.(screens := Copy(t.screens, b))
  {
    hide Copy, Styled;
    assert P.Block(b.sx, b.sy, b.w, b.h, b.dx, b.dy) == b;
  }

  lemma EditIs(t: Terminal, s: Screens)
    requires Inv(t) && Ok(s) && OnlyActive(t.screens, s)
    ensures Edit(t, s) == t.(screens := s)
  {
    hide Inv, Ok;
  }

  lemma BackIndexInserts(t: Terminal)
    requires Inv(t) && t.cursor.col == 0
    ensures BackIndex(t) ==
      (RegionFits(t); t.(screens := Inserting(t.screens, t.margins.top, t.margins.bottom, 0, 1, BlankStyle(t))))
  {
    hide Inv, Ok, Copy, Clear, TextStyle.IsEncoded, BlankStyle, BlockCopy, Edit;
    RegionFits(t);
    CursorInside(t);
    var top, bottom := t.margins.top, t.margins.bottom;
    var b := P.Block(0, top, Columns(t) - 1, bottom - top, 1, top);
    CopyIsEdit(t, b);
    var t1 := BlockCopy(t, b.sx, b.sy, b.w, b.h, b.dx, b.dy);
    EditIs(t1, Clear(t1.screens, 0, top, 1, bottom - top, BlankStyle(t)));
  }

  lemma ForwardIndexMoves(t: Terminal)
    requires Inv(t) && t.cursor.col < Columns(t) - 1
    ensures ForwardIndex(t) == t.(cursor := t.cursor.(col := t.cursor.col + 1))
  {
    hide Ok, Copy, Clear, BlankStyle;
  }

  lemma ForwardIndexDeletes(t: Terminal)
    requires Inv(t) && t.cursor.col == Columns(t) - 1
    ensures ForwardIndex(t) ==
      (RegionFits(t); t.(screens := Deleting(t.screens, t.margins.top, t.margins.bottom, 0, 1, BlankStyle(t))))
  {
    hide Inv, Ok, Copy, Clear, TextStyle.IsEncoded, BlankStyle, BlockCopy, Edit;
    RegionFits(t);
    CursorInside(t);
    var top, bottom := t.margins.top, t.margins.bottom;
    var b := P.Block(1, top, Columns(t) - 1, bottom - top, 0, top);
    CopyIsEdit(t, b);
    var t1 := BlockCopy(t, b.sx, b.sy, b.w, b.h, b.dx, b.dy);
    EditIs(t1, Clear(t1.screens, Columns(t) - 1, top, 1, bottom - top, BlankStyle(t)));
  }

  // ----- The sequences -----

  const DECBI: CodePoint := 54
  const DECFI: CodePoint := 57

  /** The style of the blank column has the colours of the pen, but none of its effects. */
  lemma StyleOver(t: Terminal)
    ensures BlankStyle(t) == TextStyle.Encode(t.pen.fore, t.pen.back, 0)
    ensures BlankStyle(EscapeOver(t)) == BlankStyle(t) && BlankStyle(Escaped(t)) == BlankStyle(t)
  {
  }

  /** DECBI moves left; from the first column it makes the region move right instead. */
  lemma MovesBack(t: Terminal)
    requires Inv(t) && CanStart(t)
    ensures t.cursor.col > 0 ==>
      Yields(t, [ESC, DECBI], EscapeOver(t).(cursor := t.cursor.(col := t.cursor.col - 1)))
    ensures t.cursor.col == 0 ==>
      (RegionFits(t);
       var s' := Inserting(t.screens, t.margins.top, t.margins.bottom, 0, 1, BlankStyle(t));
       && Yields(t, [ESC, DECBI], EscapeOver(t).(screens := s'))
       && ColumnsInserted(t.screens, s', t.margins.top, t.margins.bottom, 0, 1))
  {
    hide Inv, Ok, Yields, NoArgs, BackIndex, BlankStyle, Inserting, ColumnsInserted, TextStyle.IsEncoded;
    RegionFits(t);
    FeedEscMotion(t, DECBI);
    StyleOver(t);
    if t.cursor.col > 0 {
      BackIndexMoves(Escaped(t));
    } else {
      BackIndexInserts(Escaped(t));
      InsertingInserts(t.screens, t.margins.top, t.margins.bottom, 0, 1, BlankStyle(t));
    }
  }

  /** DECFI moves right; from the last column it makes the region move left instead. */
  lemma MovesForward(t: Terminal)
    requires Inv(t) && CanStart(t)
    ensures t.cursor.col < Columns(t) - 1 ==>
      Yields(t, [ESC, DECFI], EscapeOver(t).(cursor := t.cursor.(col := t.cursor.col + 1)))
    ensures t.cursor.col == Columns(t) - 1 ==>
      (RegionFits(t);
       var s' := Deleting(t.screens, t.margins.top, t.margins.bottom, 0, 1, BlankStyle(t));
       && Yields(t, [ESC, DECFI], EscapeOver(t).(screens := s'))
       && ColumnsDeleted(t.screens, s', t.margins.top, t.margins.bottom, 0, 1))
  {
    hide Inv, Ok, Yields, NoArgs, ForwardIndex, BlankStyle, Deleting, ColumnsDeleted, TextStyle.IsEncoded;
    RegionFits(t);
    FeedEscMotion(t, DECFI);
    StyleOver(t);
    if t.cursor.col < Columns(t) - 1 {
      ForwardIndexMoves(Escaped(t));
    } else {
      ForwardIndexDeletes(Escaped(t));
      DeletingDeletes(t.screens, t.margins.top, t.margins.bottom, 0, 1, BlankStyle(t));
    }
  }

  /** How many of `n` columns are inserted or deleted at the cursor. */
  function Fitting(t: Terminal, n: nat): (k: nat)
    requires t.cursor.col <= Columns(t)
    ensures t.cursor.col + k <= Columns(t)
  {
    Min(n, Columns(t) - t.cursor.col)
  }

  /** The columns from the one `k` to the right of the cursor on are copied to the cursor, on all rows; nothing is
      blanked for them. */
  predicate ColumnsMovedLeft(s: Screens, s': Screens, col: nat, k: nat)
    requires Ok(s) && Ok(s') && s'.rows == s.rows && s'.columns == s.columns && col + k <= s.columns
  {
    forall i :: 0 <= i < s.rows ==>
      GridAt(s', i) == CharOps.Shifted(GridAt(s, i), col + k, s.columns - col - k, col)
  }

  lemma InsertColumnsIs(t: Terminal, n: nat)
    requires Inv(t) && 0 < n
    ensures InsertColumns(t, n) ==
      (RegionFits(t);
       t.(screens := Inserting(t.screens, 0, Rows(t), t.cursor.col, Fitting(t, n), CurrentStyle(t))))
  {
    hide Inv, Ok, Copy, Clear, TextStyle.IsEncoded, BlockCopy, BlankStyle, Edit;
    RegionFits(t);
    CursorInside(t);
    var col, k := t.cursor.col, Fitting(t, n);
    var b := P.Block(col, 0, Columns(t) - col - k, Rows(t), col + k, 0);
    CopyIsEdit(t, b);
    var t1 := BlockCopy(t, b.sx, b.sy, b.w, b.h, b.dx, b.dy);
    EditIs(t1, Clear(t1.screens, col, 0, k, Rows(t), CurrentStyle(t)));
  }

  lemma DeleteColumnsIs(t: Terminal, n: nat)
    requires Inv(t) && 0 < n
    ensures Ok(t.screens) && t.cursor.col <= Columns(t)
    ensures DeleteColumns(t, n) == t.(screens := Moving(t.screens, t.cursor.col, Fitting(t, n)))
  {
    hide Inv, Ok, Copy, TextStyle.IsEncoded, BlockCopy, BlankStyle;
    RegionFits(t);
    CursorInside(t);
    var col, k := t.cursor.col, Fitting(t, n);
    CopyIsEdit(t, P.Block(col + k, 0, Columns(t) - col - k, Rows(t), col, 0));
  }

  /** The columns from col + k on moved to col, on all rows. */
  ghost function Moving(s: Screens, col: nat, k: nat): (s': Screens)
    requires Ok(s) && col + k <= s.columns
    ensures Ok(s') && s'.rows == s.rows && s'.columns == s.columns
  {
    Copy(s, P.Block(col + k, 0, s.columns - col - k, s.rows, col, 0))
  }

  lemma MovedLeft(s: Screens, col: nat, k: nat)
    requires Ok(s) && col + k <= s.columns
    ensures ColumnsMovedLeft(s, Moving(s, col, k), col, k)
  {
    hide Ok, Copy, GridAt, CharOps.Shifted, CellCopy.Written, CellCopy.CellsRead;
    forall i | 0 <= i < s.rows
      ensures GridAt(Moving(s, col, k), i) ==
        CharOps.Shifted(GridAt(s, i), col + k, s.columns - col - k, col)
    {
      ShiftedRows(s, 0, s.rows, col + k, s.columns - col - k, col, i);
    }
  }

  /** So DECDC deletes columns, with blank ones at the end, exactly on lines whose last columns are blank already. */
  lemma MovedLeftIsDeletedExactly(g: Grid, col: nat, k: nat)
    requires WellFormed(g) && col + k <= |g| && 0 < k
    ensures CharOps.Shifted(g, col + k, |g| - col - k, col) == CharOps.Deleted(g, col, k) <==>
      forall j :: |g| - k <= j < |g| ==> g[j] == BLANK || (j == |g| - k && g[j].Rest? && col + k < |g|)
  {
    CharOps.StopAtCell(g, |g|);
    hide WellFormed;
    var n, h := |g|, CharOps.Shifted(g, col + k, |g| - col - k, col);
    forall j | n - k <= j < n
      ensures h[j] == if j == n - k && g[j].Rest? && col + k < n then BLANK else g[j]
    {
    }
    assert CharOps.Deleted(g, col, k) == CharOps.Blanked(h, CharOps.Range(n - k, n));
    if forall j :: n - k <= j < n ==> h[j] == BLANK {
      assert CharOps.Blanked(h, CharOps.Range(n - k, n)) == h;
    }
    if CharOps.Blanked(h, CharOps.Range(n - k, n)) == h {
      assert forall j :: n - k <= j < n ==> h[j] == CharOps.Erased(h, CharOps.Range(n - k, n), j) == BLANK;
    }
  }

  const QUOTE: CodePoint := 39
  const DECIC: CodePoint := 125
  const DECDC: CodePoint := 126

  lemma QuoteReads(t: Terminal, params: seq<Param>)
    requires Inv(t)
    ensures ReadBoth(t, params, QUOTE) == t.(parser := Parser(SingleQuote, Meaning(params), t.parser.collected))
    ensures ArgsOk(ReadBoth(t, params, QUOTE).parser.args)
    ensures Arg(ReadBoth(t, params, QUOTE), 0, 1) == Count(params)
  {
    MeaningIsOk(params);
    hide Inv;
  }

  lemma QuoteEnds(t: Terminal)
    requires Inv(t) && t.parser.state == SingleQuote
    ensures EndOfSequence(t, DECIC) == InsertColumns(t, Arg(t, 0, 1))
    ensures EndOfSequence(t, DECDC) == DeleteColumns(t, Arg(t, 0, 1))
  {
    hide Inv, InsertColumns, DeleteColumns, Arg;
  }

  /** DECIC inserts columns at the cursor on all rows. */
  lemma InsertsColumns(t: Terminal, params: seq<Param>)
    requires Inv(t) && CanStart(t)
    ensures (RegionFits(t);
      var k := Fitting(t, Count(params));
      var s' := Inserting(t.screens, 0, Rows(t), t.cursor.col, k, CurrentStyle(t));
      && Yields(t, IntermediateSequence(params, QUOTE, DECIC), Over(t, params).(screens := s'))
      && ColumnsInserted(t.screens, s', 0, Rows(t), t.cursor.col, k))
  {
    hide Inv, Ok, Yields, Meaning, IntermediateSequence, InsertColumns, Inserting, ColumnsInserted, TextStyle.IsEncoded,
      EndOfSequence, ReadBoth;
    RegionFits(t);
    FeedIntermediate(t, params, QUOTE, DECIC);
    QuoteReads(t, params);
    var r := ReadBoth(t, params, QUOTE);
    QuoteEnds(r);
    InsertColumnsIs(r, Count(params));
    InsertingInserts(t.screens, 0, Rows(t), t.cursor.col, Fitting(t, Count(params)), CurrentStyle(t));
  }

  /** DECDC moves the columns to the right of those deleted to the left, on all rows. */
  lemma DeletesColumns(t: Terminal, params: seq<Param>)
    requires Inv(t) && CanStart(t)
    ensures (RegionFits(t);
      var k := Fitting(t, Count(params));
      var s' := Moving(t.screens, t.cursor.col, k);
      && Yields(t, IntermediateSequence(params, QUOTE, DECDC), Over(t, params).(screens := s'))
      && s'.rows == Rows(t) && s'.columns == Columns(t) && ColumnsMovedLeft(t.screens, s', t.cursor.col, k))
  {
    hide Inv, Ok, Yields, Meaning, IntermediateSequence, DeleteColumns, Moving, ColumnsMovedLeft, TextStyle.IsEncoded,
      EndOfSequence, ReadBoth;
    RegionFits(t);
    FeedIntermediate(t, params, QUOTE, DECDC);
    QuoteReads(t, params);
    var r := ReadBoth(t, params, QUOTE);
    QuoteEnds(r);
    DeleteColumnsIs(r, Count(params));
    MovedLeft(t.screens, t.cursor.col, Fitting(t, Count(params)));
  }
}
