/** What the control functions of a terminal do to its state. */
module Commands {
  import opened Common
  import opened WcWidth
  import opened Utf16
  import opened Row
  import P = Page
  import TextStyle
  import opened Display
  import opened Sgr
  import opened CsiArgs
  import opened TerminalState

  // ----- Erasing -----

  function BlockClear(t: Terminal, x: nat, y: nat, w: nat, h: int): (t': Terminal)
    requires Inv(t) && x + w <= Columns(t) && y + h <= Rows(t)
    ensures Inv(t') && Stays(t, t') && SameExceptScreen(t, t')
  {
    Edit(t, Clear(t.screens, x, y, w, h, CurrentStyle(t)))
  }

  predicate SameExceptScreen(t: Terminal, t': Terminal) {
    t' == t.(screens := t'.screens)
  }

  /** ED, and whether its argument is a known one. */
  function EraseInDisplay(t: Terminal, arg: int): (t': Terminal)
    requires Inv(t)
    ensures Inv(t') && Stays(t, t')
  {
    hide Ok, PenOk, SavedOk, ArgsOk;
    var row, col := t.cursor.row, t.cursor.col;
    match arg
    case 0 =>
      var t1 := BlockClear(t, col, row, Columns(t) - col, 1);
      AboutToWrap(BlockClear(t1, 0, row + 1, Columns(t), Rows(t) - (row + 1)), false)
    case 1 =>
      AboutToWrap(BlockClear(BlockClear(t, 0, 0, Columns(t), row), 0, row, col + 1, 1), false)
    case 2 =>
      AboutToWrap(BlockClear(t, 0, 0, Columns(t), Rows(t)), false)
    case 3 =>
      AboutToWrap(ClearTranscript(t), false)
    case _ => t
  }

  function ClearTranscript(t: Terminal): (t': Terminal)
    requires Inv(t)
    ensures Inv(t') && Stays(t, t')
  {
    hide PenOk, ArgsOk, Ok;
    t.(screens := ForgetHistory(t.screens))
  }

  /** EL. */
  function EraseInLine(t: Terminal, arg: int): (t': Terminal)
    requires Inv(t)
    ensures Inv(t') && Stays(t, t')
  {
    hide Ok, PenOk, SavedOk, ArgsOk;
    var row, col := t.cursor.row, t.cursor.col;
    match arg
    case 0 => AboutToWrap(BlockClear(t, col, row, Columns(t) - col, 1), false)
    case 1 => AboutToWrap(BlockClear(t, 0, row, col + 1, 1), false)
    case 2 => AboutToWrap(BlockClear(t, 0, row, Columns(t), 1), false)
    case _ => t
  }

  /** ECH. */
  function EraseCharacters(t: Terminal, n: int): (t': Terminal)
    requires Inv(t) && 0 < n
    ensures Inv(t') && Stays(t, t')
  {
    BlockClear(AboutToWrap(t, false), t.cursor.col, t.cursor.row, Min(n, Columns(t) - t.cursor.col), 1)
  }

  /** What to write over erased cells, and which of them: the selective forms skip the columns whose style is protected,
      and one of them keeps the styles. */
  datatype Erasure = Erasure(fill: CodePoint, st: Style, selective: bool, keepStyle: bool)

  ghost predicate ErasureOk(e: Erasure) {
    Width(e.fill) == 1 && TextStyle.IsEncoded(e.st)
  }

  predicate IsProtected(st: Style) {
    TextStyle.DecodeEffect(st) & TextStyle.PROTECTED != 0
  }

  function EraseCell(s: Screens, row: nat, col: nat, e: Erasure): (s': Screens)
    requires Ok(s) && row < s.rows && col < s.columns && ErasureOk(e)
    ensures Ok(s') && OnlyActive(s, s')
  {
    hide Ok, TextStyle.IsEncoded, IsProtected;
    var st := StyleAt(s, row, col);
    if !e.selective || !IsProtected(st) then SetChar(s, col, row, e.fill, if e.keepStyle then st else e.st) else s
  }

  function EraseRow(s: Screens, row: nat, col: nat, endCol: int, e: Erasure): (s': Screens)
    requires Ok(s) && row < s.rows && endCol <= s.columns && ErasureOk(e)
    ensures Ok(s') && OnlyActive(s, s')
    decreases endCol - col
  {
    hide Ok, ErasureOk;
    if col >= endCol then s else EraseRow(EraseCell(s, row, col, e), row, col + 1, endCol, e)
  }

  /** Rows [row, endRow) and columns [col, endCol), cell by cell. */
  function EraseArea(s: Screens, row: nat, endRow: int, col: nat, endCol: int, e: Erasure): (s': Screens)
    requires Ok(s) && endRow <= s.rows && endCol <= s.columns && ErasureOk(e)
    ensures Ok(s') && OnlyActive(s, s')
    decreases endRow - row
  {
    hide Ok, ErasureOk;
    if row >= endRow then s else EraseArea(EraseRow(s, row, col, endCol, e), row + 1, endRow, col, endCol, e)
  }

  /** The rows and columns that DECSED or DECSEL erases; none for an unknown argument. */
  datatype Area = Area(startRow: nat, endRow: nat, startCol: nat, endCol: nat)

  function AreaToErase(t: Terminal, arg: int, justRow: bool): (a: Area)
    requires Inv(t)
    ensures a.endRow <= Rows(t) && a.endCol <= Columns(t)
  {
    hide Ok, PenOk, SavedOk, ArgsOk;
    var row, col := t.cursor.row, t.cursor.col;
    var firstRow, endRow := if justRow then row else 0, if justRow then row + 1 else Rows(t);
    match arg
    case 0 => Area(row, endRow, col, Columns(t))
    case 1 => Area(firstRow, row + 1, 0, col + 1)
    case 2 => Area(firstRow, endRow, 0, Columns(t))
    case _ => Area(0, 0, 0, 0)
  }

  /** DECSED and DECSEL. */
  function SelectiveErase(t: Terminal, arg: int, justRow: bool): (t': Terminal)
    requires Inv(t)
    ensures Inv(t') && Stays(t, t')
  {
    LatinIsNarrow(SPACE);
    var t1, a := AboutToWrap(t, false), AreaToErase(t, arg, justRow);
    var e := Erasure(SPACE, CurrentStyle(t), true, false);
    Edit(t1, EraseArea(t1.screens, a.startRow, a.endRow, a.startCol, a.endCol, e))
  }

  // ----- Inserting and deleting -----

  ghost function BlockCopy(t: Terminal, sx: nat, sy: nat, w: nat, h: nat, dx: nat, dy: nat): (t': Terminal)
    requires Inv(t) && P.Fits(P.Block(sx, sy, w, h, dx, dy), Columns(t), Rows(t))
    ensures Inv(t') && Stays(t, t') && SameExceptScreen(t, t')
  {
    Edit(t, Copy(t.screens, P.Block(sx, sy, w, h, dx, dy)))
  }

  /** ICH. */
  ghost function InsertCharacters(t: Terminal, n: int): (t': Terminal)
    requires Inv(t) && 0 < n
    ensures Inv(t') && Stays(t, t')
  {
    hide Ok, PenOk, SavedOk, ArgsOk;
    var row, col := t.cursor.row, t.cursor.col;
    var columnsAfterCursor := Columns(t) - col;
    var spacesToInsert := Min(n, columnsAfterCursor);
    var t1 := BlockCopy(AboutToWrap(t, false), col, row, columnsAfterCursor - spacesToInsert, 1, col + spacesToInsert,
      row);
    BlockClear(t1, col, row, spacesToInsert, 1)
  }

  /** DCH. */
  ghost function DeleteCharacters(t: Terminal, n: int): (t': Terminal)
    requires Inv(t) && 0 < n
    ensures Inv(t') && Stays(t, t')
  {
    hide Ok, PenOk, SavedOk, ArgsOk;
    var row, col := t.cursor.row, t.cursor.col;
    var cellsAfterCursor := Columns(t) - col;
    var cellsToDelete := Min(n, cellsAfterCursor);
    var cellsToMove := cellsAfterCursor - cellsToDelete;
    var t1 := BlockCopy(AboutToWrap(t, false), col + cellsToDelete, row, cellsToMove, 1, col, row);
    BlockClear(t1, col + cellsToMove, row, cellsToDelete, 1)
  }

  /** IL: below the bottom margin the numbers are negative and nothing happens. */
  ghost function InsertLines(t: Terminal, n: int): (t': Terminal)
    requires Inv(t) && 0 < n
    ensures Inv(t') && Stays(t, t') && SameExceptScreen(t, t')
  {
    hide Ok, PenOk, SavedOk, ArgsOk;
    var row := t.cursor.row;
    var linesAfterCursor := t.margins.bottom - row;
    var linesToInsert := Min(n, linesAfterCursor);
    var t1 := BlockCopy(t, 0, row, Columns(t), linesAfterCursor - linesToInsert, 0, row + linesToInsert);
    BlockClear(t1, 0, row, Columns(t), linesToInsert)
  }

  /** DL. */
  ghost function DeleteLines(t: Terminal, n: int): (t': Terminal)
    requires Inv(t) && 0 < n
    ensures Inv(t') && Stays(t, t')
  {
    hide Ok, PenOk, SavedOk, ArgsOk;
    var row := t.cursor.row;
    var linesAfterCursor := t.margins.bottom - row;
    var linesToDelete := Min(n, linesAfterCursor);
    var linesToMove := linesAfterCursor - linesToDelete;
    var t1 := BlockCopy(AboutToWrap(t, false), 0, row + linesToDelete, Columns(t), linesToMove, 0, row);
    BlockClear(t1, 0, row + linesToMove, Columns(t), linesToDelete)
  }

  /** SU. */
  function ScrollUpLines(t: Terminal, n: int): (t': Terminal)
    requires Inv(t)
    ensures Inv(t') && Stays(t, t')
    decreases n
  {
    hide Inv;
    if n <= 0 then t else ScrollUpLines(ScrollDownOneLine(t), n - 1)
  }

  /** SD. */
  ghost function ScrollDownLines(t: Terminal, n: int): (t': Terminal)
    requires Inv(t) && 0 < n
    ensures Inv(t') && Stays(t, t') && SameExceptScreen(t, t')
  {
    hide Ok, PenOk, SavedOk, ArgsOk;
    var top, lines := t.margins.top, t.margins.bottom - t.margins.top;
    var linesToScroll := Min(lines, n);
    var t1 := BlockCopy(t, 0, top, Columns(t), lines - linesToScroll, 0, top + linesToScroll);
    BlockClear(t1, 0, top, Columns(t), linesToScroll)
  }

  /** RI. */
  ghost function ReverseIndex(t: Terminal): (t': Terminal)
    requires Inv(t)
    ensures Inv(t') && Stays(t, t')
  {
    hide Ok, PenOk, SavedOk, ArgsOk;
    var top, bottom := t.margins.top, t.margins.bottom;
    if t.cursor.row <= top then
      BlockClear(BlockCopy(t, 0, top, Columns(t), bottom - (top + 1), 0, top + 1), 0, top, Columns(t), 1)
    else MoveTo(t, t.cursor.row - 1, t.cursor.col)
  }

  /** The style of the blank column that DECBI and DECFI insert. */
  function BlankStyle(t: Terminal): (st: Style)
    ensures PenOk(t.pen) ==> TextStyle.IsEncoded(st)
  {
    hide PenStyle, PenOk;
    NoEffectKeeps(t.pen);
    PenStyle(t.pen.(effect := 0))
  }

  lemma NoEffectKeeps(p: Pen)
    ensures PenOk(p) ==> PenOk(p.(effect := 0))
  {
  }

  /** DECBI. */
  ghost function BackIndex(t: Terminal): (t': Terminal)
    requires Inv(t)
    ensures Inv(t') && Stays(t, t')
  {
    hide Ok, PenOk, SavedOk, ArgsOk;
    var m := t.margins;
    if t.cursor.col > m.left then MoveTo(t, t.cursor.row, t.cursor.col - 1)
    else
      var t1 := BlockCopy(t, m.left, m.top, m.right - m.left - 1, m.bottom - m.top, m.left + 1, m.top);
      Edit(t1, Clear(t1.screens, m.left, m.top, 1, m.bottom - m.top, BlankStyle(t)))
  }

  /** DECFI. */
  ghost function ForwardIndex(t: Terminal): (t': Terminal)
    requires Inv(t)
    ensures Inv(t') && Stays(t, t')
  {
    hide Ok, PenOk, SavedOk, ArgsOk;
    var m := t.margins;
    if t.cursor.col < m.right - 1 then MoveTo(t, t.cursor.row, t.cursor.col + 1)
    else
      var t1 := BlockCopy(t, m.left + 1, m.top, m.right - m.left - 1, m.bottom - m.top, m.left, m.top);
      Edit(t1, Clear(t1.screens, m.right - 1, m.top, 1, m.bottom - m.top, BlankStyle(t)))
  }

  /** DECIC. */
  ghost function InsertColumns(t: Terminal, n: int): (t': Terminal)
    requires Inv(t) && 0 < n
    ensures Inv(t') && Stays(t, t')
  {
    hide Ok, PenOk, SavedOk, ArgsOk;
    var columnsAfterCursor := t.margins.right - t.cursor.col;
    var columnsToInsert := Min(n, columnsAfterCursor);
    var t1 := BlockCopy(t, t.cursor.col, 0, columnsAfterCursor - columnsToInsert, Rows(t),
      t.cursor.col + columnsToInsert, 0);
    BlockClear(t1, t.cursor.col, 0, columnsToInsert, Rows(t))
  }

  /** DECDC. */
  ghost function DeleteColumns(t: Terminal, n: int): (t': Terminal)
    requires Inv(t) && 0 < n
    ensures Inv(t') && Stays(t, t')
  {
    var columnsAfterCursor := t.margins.right - t.cursor.col;
    var columnsToDelete := Min(n, columnsAfterCursor);
    BlockCopy(t, t.cursor.col + columnsToDelete, 0, columnsAfterCursor - columnsToDelete, Rows(t), t.cursor.col, 0)
  }

  /** REP. */
  ghost function Repeat(t: Terminal, c: CodePoint, n: int): (t': Terminal)
    requires Inv(t)
    ensures Inv(t') && Stays(t, t')
    decreases n
  {
    hide Inv, EmitCodePoint;
    if n <= 0 then t else Repeat(EmitCodePoint(t, c), c, n - 1)
  }

  // ----- Rectangles -----

  /** The argument at `index`, which stands for `defaultValue` when it is missing or zero. */
  function Arg(t: Terminal, index: nat, defaultValue: int): (n: int)
    requires Inv(t) && index < MAX_ESCAPE_PARAMETERS && 0 < defaultValue
    ensures 0 < n
  {
    GetArg(t.parser.args, index, defaultValue, true)
  }

  /** The rectangle that DECCRA copies and where to, clipped to the screen. */
  function BlockToCopy(t: Terminal): (b: P.Block)
    requires Inv(t)
    ensures P.Fits(b, Columns(t), Rows(t))
  {
    hide Ok, PenOk, SavedOk, ArgsOk;
    var m, rows, columns := Effective(t), Rows(t), Columns(t);
    var topSource := Min(Arg(t, 0, 1) - 1 + m.top, rows);
    var leftSource := Min(Arg(t, 1, 1) - 1 + m.left, columns);
    var bottomSource := Min(Max(Arg(t, 2, rows) + m.top, topSource), rows);
    var rightSource := Min(Max(Arg(t, 3, columns) + m.left, leftSource), columns);
    var destinationTop := Min(Arg(t, 5, 1) - 1 + m.top, rows);
    var destinationLeft := Min(Arg(t, 6, 1) - 1 + m.left, columns);
    var heightToCopy := Min(rows - destinationTop, bottomSource - topSource);
    var widthToCopy := Min(columns - destinationLeft, rightSource - leftSource);
    P.Block(leftSource, topSource, widthToCopy, heightToCopy, destinationLeft, destinationTop)
  }

  /** DECCRA. */
  ghost function CopyRectangle(t: Terminal): (t': Terminal)
    requires Inv(t)
    ensures Inv(t') && Stays(t, t')
  {
    Edit(t, Copy(t.screens, BlockToCopy(t)))
  }

  /** The area of DECERA, DECSERA and DECFRA, given by four arguments from `index` on. */
  function AreaOfArgs(t: Terminal, index: nat): (a: Area)
    requires Inv(t) && index <= 1
    ensures a.endRow <= Rows(t) && a.endCol <= Columns(t)
  {
    EffectiveFits(t);
    hide Ok, PenOk, SavedOk, ArgsOk, Effective;
    var m := Effective(t);
    var top := Min(Arg(t, index, 1) + m.top, m.bottom + 1);
    var left := Min(Arg(t, index + 1, 1) + m.left, m.right + 1);
    var bottom := Min(Arg(t, index + 2, Rows(t)) + m.top, m.bottom);
    var right := Min(Arg(t, index + 3, Columns(t)) + m.left, m.right);
    Area(top - 1, bottom, left - 1, right)
  }

  /** DECERA, DECSERA and DECFRA. */
  function EraseRectangle(t: Terminal, index: nat, e: Erasure): (t': Terminal)
    requires Inv(t) && index <= 1 && ErasureOk(e)
    ensures Inv(t') && Stays(t, t')
  {
    var a := AreaOfArgs(t, index);
    Edit(t, EraseArea(t.screens, a.startRow, a.endRow, a.startCol, a.endCol, e))
  }

  function FillRectangle(t: Terminal): (t': Terminal)
    requires Inv(t)
    ensures Inv(t') && Stays(t, t')
  {
    var c := GetArg(t.parser.args, 0, -1, true);
    if 32 <= c <= 126 || 160 <= c <= 255 then
      LatinIsNarrow(c);
      EraseRectangle(t, 1, Erasure(c, CurrentStyle(t), false, false))
    else t
  }

  /** The attribute bits of DECCARA and DECRARA, and whether they are set or cleared. */
  function Attribute(code: int, reverse: bool): (r: (bv32, bool)) {
    match code
    case 0 => (TextStyle.BOLD | TextStyle.UNDERLINE | TextStyle.BLINK | TextStyle.INVERSE, reverse)
    case 1 => (TextStyle.BOLD, true)
    case 4 => (TextStyle.UNDERLINE, true)
    case 5 => (TextStyle.BLINK, true)
    case 7 => (TextStyle.INVERSE, true)
    case 22 => (TextStyle.BOLD, false)
    case 24 => (TextStyle.UNDERLINE, false)
    case 25 => (TextStyle.BLINK, false)
    case 27 => (TextStyle.INVERSE, false)
    case _ => (0, true)
  }

  /** The first line that DECCARA and DECRARA work on and the one behind the last, which origin mode moves down by the
      top margin. */
  function AttributeLines(t: Terminal): (r: (nat, nat))
    requires Inv(t)
  {
    EffectiveFits(t);
    hide Inv, Arg, Effective;
    var m := Effective(t);
    (Min(Arg(t, 0, 1) - 1, m.bottom) + m.top, Min(Arg(t, 2, Rows(t)) + 1, m.bottom - 1) + m.top)
  }

  function AttributeColumns(t: Terminal): (r: (nat, nat))
    requires Inv(t)
    ensures r.1 <= Columns(t)
  {
    EffectiveFits(t);
    LeftMarginIsFirst(t);
    hide Inv, Arg, Effective;
    var m := Effective(t);
    (Min(Arg(t, 1, 1) - 1, m.right) + m.left, Min(Arg(t, 3, Columns(t)) + 1, m.right - 1) + m.left)
  }

  lemma LeftMarginIsFirst(t: Terminal)
    requires Inv(t)
    ensures Effective(t).left == 0
  {
    hide Ok, PenOk, SavedOk, ArgsOk;
  }

  /** The area is on the screen, as it always is outside origin mode; if not, the source throws or goes on below. */
  predicate AttributeFits(t: Terminal)
    requires Inv(t)
  {
    AttributeLines(t).1 <= Rows(t)
  }

  lemma FitsOutsideOriginMode(t: Terminal)
    requires Inv(t) && !Has(t, OriginMode)
    ensures AttributeFits(t)
  {
    hide Ok, PenOk, SavedOk, ArgsOk, Arg;
  }

  function AttributeArea(t: Terminal, code: int, reverse: bool): (e: P.Change)
    requires Inv(t)
    ensures e.bottom == AttributeLines(t).1 && e.right <= Columns(t) && e.rightMargin <= Columns(t)
  {
    EffectiveFits(t);
    hide Inv, AttributeLines, AttributeColumns, Effective;
    var (bits, setOrClear) := Attribute(code, reverse);
    var (top, bottom) := AttributeLines(t);
    var (left, right) := AttributeColumns(t);
    P.Change(bits, setOrClear, reverse, Has(t, RectangularChange), Effective(t).left, Effective(t).right,
             top, left, bottom, right)
  }

  function ChangeAttribute(t: Terminal, code: int, reverse: bool): (t': Terminal)
    requires Inv(t) && AttributeFits(t)
    ensures Inv(t') && Stays(t, t') && SameExceptScreen(t, t')
  {
    if reverse && !Attribute(code, reverse).1 then t
    else
      ActiveIsGood(t.screens);
      Edit(t, ChangeEffects(t.screens, AttributeArea(t, code, reverse)))
  }

  lemma StillFits(t: Terminal, t': Terminal)
    requires Inv(t) && Inv(t') && SameExceptScreen(t, t') && Rows(t') == Rows(t) && Columns(t') == Columns(t)
    ensures AttributeFits(t') <==> AttributeFits(t)
  {
    hide Inv;
  }

  /** DECCARA and DECRARA apply the attributes from the fifth argument on. */
  function ChangeAttributes(t: Terminal, i: nat, reverse: bool): (t': Terminal)
    requires Inv(t) && (4 <= t.parser.args.index ==> AttributeFits(t))
    ensures Inv(t') && Stays(t, t')
    decreases MAX_ESCAPE_PARAMETERS - i
  {
    if t.parser.args.index < 4 || i > LastArg(t.parser.args) then t
    else
      var code := GetArg(t.parser.args, i, 0, false);
      hide Inv, ChangeAttribute, AttributeFits;
      StillFits(t, ChangeAttribute(t, code, reverse));
      ChangeAttributes(ChangeAttribute(t, code, reverse), i + 1, reverse)
  }

  // ----- DEC private modes -----

  function ModeFlag(bit: int): Option<Flag> {
    match bit
    case 1 => Some(ApplicationCursorKeys)
    case 5 => Some(ReverseVideo)
    case 6 => Some(OriginMode)
    case 7 => Some(AutoWrap)
    case 25 => Some(CursorEnabled)
    case 66 => Some(ApplicationKeypad)
    case 69 => Some(LeftRightMargins)
    case 1000 => Some(MousePressRelease)
    case 1002 => Some(MouseButtonEvent)
    case 1004 => Some(SendFocusEvents)
    case 1006 => Some(MouseSgr)
    case 2004 => Some(BracketedPaste)
    case _ => None
  }

  /** DECCOLM: the number of columns does not change, but its side effects happen. */
  function ColumnMode(t: Terminal): (t': Terminal)
    requires Inv(t)
    ensures Inv(t') && Stays(t, t')
  {
    hide Ok, PenOk, SavedOk, ArgsOk;
    var t1 := SetFlag(SetMargins(t, FullMargins(t)), LeftRightMargins, false);
    SetCursorRowCol(BlockClear(t1, 0, 0, Columns(t), Rows(t)), 0, 0)
  }

  /** Shows the alternate screen, brought to the right size, once the main screen's cursor is saved. */
  function ToAlternate(t: Terminal): (t': Terminal)
    requires Inv(t) && !t.screens.onAlt && t.savedMain.row < Rows(t) && t.savedMain.col < Columns(t)
    ensures Inv(t') && t'.screens.onAlt && t'.screens.main == t.screens.main && t'.savedMain == t.savedMain
    ensures t'.screens.columns == t.screens.columns && t'.screens.rows == t.screens.rows
  {
    ActiveIsGood(t.screens);
    var (s, resized, col, row) := SwitchTo(t.screens, true, t.cursor.col, t.cursor.row, CurrentStyle(t));
    hide Ok, PenOk, ArgsOk;
    t.(screens := s, cursor := if resized then Cursor(row, col, t.cursor.aboutToWrap) else t.cursor)
  }

  /** Saves the main screen's cursor and shows the alternate screen, cleared. */
  function EnterAlternate(t: Terminal): (t': Terminal)
    requires Inv(t) && !t.screens.onAlt
    ensures Inv(t') && t'.screens.onAlt && t'.screens.main == t.screens.main
  {
    BlockClear(ToAlternate(SaveCursor(t)), 0, 0, Columns(t), Rows(t))
  }

  /** Shows the main screen again, with the cursor saved when it was left. If the size has changed since then, its
      place is not clipped to the new screen: the resized buffer says where it is. */
  function LeaveAlternate(t: Terminal): (t': Terminal)
    requires Inv(t) && t.screens.onAlt
    ensures Inv(t') && !t'.screens.onAlt && t'.screens.alt == t.screens.alt
  {
    var saved := t.savedMain;
    var (s, resized, col, row) := SwitchTo(t.screens, false, saved.col, saved.row, PenStyle(saved.pen));
    var t1 := RestoreCursor(ShowMain(t, s));
    if resized then PutCursor(t1, row, col) else t1
  }

  /** The main screen in place of the alternate one. */
  function ShowMain(t: Terminal, s: Screens): (t': Terminal)
    requires Inv(t) && Ok(s) && !s.onAlt && s.columns == Columns(t) && s.rows == Rows(t)
    ensures Inv(t') && t' == t.(screens := s)
  {
    hide Ok, PenOk, ArgsOk;
    t.(screens := s)
  }
}
