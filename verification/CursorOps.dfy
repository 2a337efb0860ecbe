/** Moving the cursor: what every sequence that moves it does to the terminal, from its first character to its last. */
module CursorOps {
  import opened Common
  import opened Utf16
  import opened Display
  import opened CsiArgs
  import opened TerminalState
  import opened Commands
  import opened Interpreter
  import opened Sequences

  lemma CursorInside(t: Terminal)
    requires Inv(t)
    ensures t.cursor.row < Rows(t) && t.cursor.col < Columns(t) && Columns(t) == |t.tabStop|
    ensures t.margins.left == 0 && t.margins.right == Columns(t) && t.margins.top + 2 <= t.margins.bottom <= Rows(t)
  {
  }

  /** The terminal with its cursor moved, and no wrap pending, after a sequence that does nothing else. */
  function Moved(t: Terminal, params: seq<Param>, row: nat, col: nat): Terminal {
    Over(t, params).(cursor := Cursor(row, col, false))
  }

  /** The numeric parameter: at least one. */
  function Count(params: seq<Param>): (n: nat)
    ensures 0 < n
  {
    Nth(params, 0, 1)
  }

  // ----- Along the row or the column -----

  const CUU: CodePoint := 65
  const CUD: CodePoint := 66
  const CUF: CodePoint := 67
  const CUB: CodePoint := 68
  const CHA: CodePoint := 71
  const HPR: CodePoint := 97
  const VPA: CodePoint := 100

  /** CUU: up, as far as the screen goes. */
  lemma CursorUp(t: Terminal, params: seq<Param>)
    requires Inv(t) && CanStart(t)
    ensures var row, col, n := t.cursor.row, t.cursor.col, Count(params);
      Yields(t, ControlSequence(params, CUU), Moved(t, params, Max(0, row - n), col))
  {
    hide Inv, Yields, ControlSequence, Meaning;
    CursorInside(t);
    FeedStep(t, params, CUU);
    ArgIsNth(t, params, 0, 1);
  }

  /** CUD: down, as far as the screen goes. */
  lemma CursorDown(t: Terminal, params: seq<Param>)
    requires Inv(t) && CanStart(t)
    ensures var row, col, n := t.cursor.row, t.cursor.col, Count(params);
      Yields(t, ControlSequence(params, CUD), Moved(t, params, Min(Rows(t) - 1, row + n), col))
  {
    hide Inv, Yields, ControlSequence, Meaning;
    CursorInside(t);
    FeedStep(t, params, CUD);
    ArgIsNth(t, params, 0, 1);
  }

  /** CUF: to the right, as far as the screen goes. */
  lemma CursorForward(t: Terminal, params: seq<Param>)
    requires Inv(t) && CanStart(t)
    ensures var row, col, n := t.cursor.row, t.cursor.col, Count(params);
      Yields(t, ControlSequence(params, CUF), Moved(t, params, row, Min(Columns(t) - 1, col + n)))
  {
    hide Inv, Yields, ControlSequence, Meaning;
    CursorInside(t);
    FeedStep(t, params, CUF);
    ArgIsNth(t, params, 0, 1);
  }

  /** HPR: the same. */
  lemma PositionForward(t: Terminal, params: seq<Param>)
    requires Inv(t) && CanStart(t)
    ensures var row, col, n := t.cursor.row, t.cursor.col, Count(params);
      Yields(t, ControlSequence(params, HPR), Moved(t, params, row, Min(Columns(t) - 1, col + n)))
  {
    hide Inv, Yields, ControlSequence, Meaning;
    CursorInside(t);
    FeedStep(t, params, HPR);
    ArgIsNth(t, params, 0, 1);
  }

  /** CUB: to the left, as far as the screen goes. */
  lemma CursorBackward(t: Terminal, params: seq<Param>)
    requires Inv(t) && CanStart(t)
    ensures var row, col, n := t.cursor.row, t.cursor.col, Count(params);
      Yields(t, ControlSequence(params, CUB), Moved(t, params, row, Max(0, col - n)))
  {
    hide Inv, Yields, ControlSequence, Meaning;
    CursorInside(t);
    FeedStep(t, params, CUB);
    ArgIsNth(t, params, 0, 1);
  }

  /** CHA: to column `n`, counted from one, or else to the last one. */
  lemma CursorColumn(t: Terminal, params: seq<Param>)
    requires Inv(t) && CanStart(t)
    ensures var row, col, n := t.cursor.row, t.cursor.col, Count(params);
      Yields(t, ControlSequence(params, CHA), Moved(t, params, row, Min(n, Columns(t)) - 1))
  {
    hide Inv, Yields, ControlSequence, Meaning;
    CursorInside(t);
    FeedStep(t, params, CHA);
    ArgIsNth(t, params, 0, 1);
  }

  /** VPA: to row `n`, counted from one, or else to the last one. */
  lemma CursorRow(t: Terminal, params: seq<Param>)
    requires Inv(t) && CanStart(t)
    ensures var row, col, n := t.cursor.row, t.cursor.col, Count(params);
      Yields(t, ControlSequence(params, VPA), Moved(t, params, Min(n, Rows(t)) - 1, col))
  {
    hide Inv, Yields, ControlSequence, Meaning;
    CursorInside(t);
    FeedStep(t, params, VPA);
    ArgIsNth(t, params, 0, 1);
  }

  // ----- To a position -----

  const CNL: CodePoint := 69
  const CPL: CodePoint := 70
  const HPA: CodePoint := 96
  const VPR: CodePoint := 101
  const HVP: CodePoint := 102

  /** The first row and the one behind the last that positions refer to: in origin mode those of the scrolling region.
      */
  function TopRow(t: Terminal): nat {
    if Has(t, OriginMode) then t.margins.top else 0
  }

  function BottomRow(t: Terminal): nat {
    if Has(t, OriginMode) then t.margins.bottom else Rows(t)
  }

  /** Row `row` below the top one, or else the nearest row there is. */
  function RowBelow(t: Terminal, row: int): (r: nat)
  {
    Max(TopRow(t), Min(TopRow(t) + row, BottomRow(t) - 1))
  }

  /** CUP: to the row and column given, counted from one. */
  lemma CursorPosition(t: Terminal, params: seq<Param>)
    requires Inv(t) && CanStart(t)
    ensures var row, col, n := t.cursor.row, t.cursor.col, Count(params);
      Yields(t, ControlSequence(params, CUP),
             Moved(t, params, RowBelow(t, n - 1), Min(Nth(params, 1, 1), Columns(t)) - 1))
  {
    hide Inv, Yields, ControlSequence, Meaning;
    CursorInside(t);
    FeedPosition(t, params, CUP);
    ArgIsNth(t, params, 0, 1);
    ArgIsNth(t, params, 1, 1);
  }

  /** HVP: the same. */
  lemma HorizontalVerticalPosition(t: Terminal, params: seq<Param>)
    requires Inv(t) && CanStart(t)
    ensures var row, col, n := t.cursor.row, t.cursor.col, Count(params);
      Yields(t, ControlSequence(params, HVP),
             Moved(t, params, RowBelow(t, n - 1), Min(Nth(params, 1, 1), Columns(t)) - 1))
  {
    hide Inv, Yields, ControlSequence, Meaning;
    CursorInside(t);
    FeedPosition(t, params, HVP);
    ArgIsNth(t, params, 0, 1);
    ArgIsNth(t, params, 1, 1);
  }

  /** CNL: to the start of a row further down. */
  lemma CursorNextLine(t: Terminal, params: seq<Param>)
    requires Inv(t) && CanStart(t)
    ensures var row, col, n := t.cursor.row, t.cursor.col, Count(params);
      Yields(t, ControlSequence(params, CNL), Moved(t, params, RowBelow(t, row + n), 0))
  {
    hide Inv, Yields, ControlSequence, Meaning;
    CursorInside(t);
    FeedPosition(t, params, CNL);
    ArgIsNth(t, params, 0, 1);
    ArgIsNth(t, params, 1, 1);
  }

  /** CPL: to the start of a row further up. */
  lemma CursorPreviousLine(t: Terminal, params: seq<Param>)
    requires Inv(t) && CanStart(t)
    ensures var row, col, n := t.cursor.row, t.cursor.col, Count(params);
      Yields(t, ControlSequence(params, CPL), Moved(t, params, RowBelow(t, row - n), 0))
  {
    hide Inv, Yields, ControlSequence, Meaning;
    CursorInside(t);
    FeedPosition(t, params, CPL);
    ArgIsNth(t, params, 0, 1);
    ArgIsNth(t, params, 1, 1);
  }

  /** HPA: to a column. */
  lemma HorizontalPosition(t: Terminal, params: seq<Param>)
    requires Inv(t) && CanStart(t)
    ensures var row, col, n := t.cursor.row, t.cursor.col, Count(params);
      Yields(t, ControlSequence(params, HPA), Moved(t, params, RowBelow(t, row), Min(n, Columns(t)) - 1))
  {
    hide Inv, Yields, ControlSequence, Meaning;
    CursorInside(t);
    FeedPosition(t, params, HPA);
    ArgIsNth(t, params, 0, 1);
    ArgIsNth(t, params, 1, 1);
  }

  /** VPR: down. */
  lemma VerticalPosition(t: Terminal, params: seq<Param>)
    requires Inv(t) && CanStart(t)
    ensures var row, col, n := t.cursor.row, t.cursor.col, Count(params);
      Yields(t, ControlSequence(params, VPR), Moved(t, params, RowBelow(t, row + n), col))
  {
    hide Inv, Yields, ControlSequence, Meaning;
    CursorInside(t);
    FeedPosition(t, params, VPR);
    ArgIsNth(t, params, 0, 1);
    ArgIsNth(t, params, 1, 1);
  }

  /** In origin mode these four add the top margin to a row that already counts from the top of the screen. So HPA
      keeps the cursor's row exactly when the region starts at the top of the screen, or the cursor is on its last
      row. */
  lemma RowIsKeptExactly(t: Terminal)
    requires Inv(t)
    ensures RowBelow(t, t.cursor.row) == t.cursor.row <==>
      (TopRow(t) == 0 && t.cursor.row < BottomRow(t)) || t.cursor.row == BottomRow(t) - 1
  {
  }
}
