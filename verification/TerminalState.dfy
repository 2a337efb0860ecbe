/** The state of a TerminalEmulator as a value: cursor, margins, modes, saved cursors, and writing to the screen. */
module TerminalState {
  import opened Common
  import opened WcWidth
  import opened Utf16
  import opened Row
  import P = Page
  import TextStyle
  import opened Display
  import opened Sgr
  import opened CsiArgs
  import Utf8

  /** The bits of the DECSET flags. */
  datatype Flag =
    | ApplicationCursorKeys | ReverseVideo | OriginMode | AutoWrap | CursorEnabled | ApplicationKeypad
    | MousePressRelease | MouseButtonEvent | SendFocusEvents | MouseSgr | BracketedPaste | LeftRightMargins
    | RectangularChange

  datatype Cursor = Cursor(row: nat, col: nat, aboutToWrap: bool)

  /** The scrolling region: rows [top, bottom) and columns [left, right). */
  datatype Margins = Margins(top: nat, bottom: nat, left: nat, right: nat)

  /** Which of the character sets G0 and G1 is the line drawing one, and which is in use. */
  datatype Charset = Charset(g0: bool, g1: bool, usesG0: bool)

  /** What DECSC saves. */
  datatype Saved = Saved(row: nat, col: nat, pen: Pen, flags: set<Flag>, charset: Charset)

  datatype Modes = Modes(flags: set<Flag>, savedFlags: set<Flag>, insert: bool)

  datatype EscapeState =
    | NoEscape | Esc | Pound | SelectLeftParen | SelectRightParen | Csi | CsiQuestionMark | CsiDollar | Percent
    | Osc | OscEsc | CsiBiggerThan | DeviceControl | QuestionMarkDollar | ArgsSpace | ArgsAsterisk
    | DoubleQuote | SingleQuote | Exclamation

  /** The escape sequence under way; of string arguments only the length is kept. */
  datatype Parser = Parser(state: EscapeState, args: Args, collected: nat)

  datatype Terminal = Terminal(
    screens: Screens,
    cursor: Cursor,
    margins: Margins,
    tabStop: seq<bool>,
    pen: Pen,
    charset: Charset,
    modes: Modes,
    savedMain: Saved,
    savedAlt: Saved,
    parser: Parser,
    lastEmitted: Option<CodePoint>,
    decoder: Utf8.Decoder,
    sent: seq<CodePoint>)

  // ----- What every run keeps -----

  predicate CursorOk(c: Cursor, columns: nat, rows: nat) {
    c.row < rows && c.col < columns
  }

  /** The margins while there are no left and right margins. */
  predicate MarginsOk(m: Margins, columns: nat, rows: nat) {
    m.top + 2 <= m.bottom <= rows && m.left == 0 && m.right == columns
  }

  predicate ParserOk(p: Parser) {
    ArgsOk(p.args)
  }

  /** While the alternate screen is shown the main cursor is saved, at a place on the main buffer's own screen. */
  predicate SavedOk(t: Terminal) {
    && PenOk(t.savedMain.pen) && PenOk(t.savedAlt.pen)
    && (t.screens.onAlt ==> t.savedMain.row < |t.screens.main.screen| && t.savedMain.col < t.screens.main.columns)
  }

  ghost predicate Inv(t: Terminal) {
    && Ok(t.screens)
    && CursorOk(t.cursor, t.screens.columns, t.screens.rows)
    && MarginsOk(t.margins, t.screens.columns, t.screens.rows)
    && |t.tabStop| == t.screens.columns
    && PenOk(t.pen)
    && SavedOk(t)
    && ParserOk(t.parser)
    && Utf8.Reachable(t.decoder)
  }

  /** On the alternate screen the main screen is left alone. */
  predicate MainKept(t: Terminal, t': Terminal) {
    && t'.screens.columns == t.screens.columns && t'.screens.rows == t.screens.rows
    && (t.screens.onAlt && t'.screens.onAlt ==>
          t'.screens.main.screen == t.screens.main.screen && t'.screens.main.columns == t.screens.main.columns)
  }

  /** On the alternate screen the cursor saved for the main screen is left alone. */
  predicate SavedKept(t: Terminal, t': Terminal) {
    t.screens.onAlt && t'.screens.onAlt ==> t'.savedMain == t.savedMain
  }

  /** A step that stays on its screen and leaves the other one alone. */
  predicate Stays(t: Terminal, t': Terminal) {
    t'.screens.onAlt == t.screens.onAlt && MainKept(t, t') && SavedKept(t, t')
  }

  function Rows(t: Terminal): nat {
    t.screens.rows
  }

  function Columns(t: Terminal): nat {
    t.screens.columns
  }

  predicate Has(t: Terminal, f: Flag) {
    f in t.modes.flags
  }

  /** The style of new characters. */
  function CurrentStyle(t: Terminal): Style {
    PenStyle(t.pen)
  }

  /** The terminal after an edit of the screen that is shown. */
  function Edit(t: Terminal, s: Screens): (t': Terminal)
    requires Inv(t) && Ok(s) && OnlyActive(t.screens, s)
    ensures Inv(t') && Stays(t, t')
  {
    hide Ok, PenOk, ArgsOk, Utf8.Reachable;
    t.(screens := s)
  }

  // ----- The cursor -----

  /** Moves the cursor; a pending wrap stays pending. */
  function MoveTo(t: Terminal, row: nat, col: nat): (t': Terminal)
    requires Inv(t) && row < Rows(t) && col < Columns(t)
    ensures Inv(t') && Stays(t, t')
  {
    hide Ok, PenOk, ArgsOk, Utf8.Reachable;
    t.(cursor := t.cursor.(row := row, col := col))
  }

  /** Moves the cursor and forgets a pending wrap. */
  function PutCursor(t: Terminal, row: nat, col: nat): (t': Terminal)
    requires Inv(t) && row < Rows(t) && col < Columns(t)
    ensures Inv(t') && Stays(t, t')
  {
    hide Ok, PenOk, ArgsOk, Utf8.Reachable;
    t.(cursor := Cursor(row, col, false))
  }

  function SetCursorRow(t: Terminal, row: nat): (t': Terminal)
    requires Inv(t) && row < Rows(t)
    ensures Inv(t') && Stays(t, t')
  {
    PutCursor(t, row, t.cursor.col)
  }

  function SetCursorCol(t: Terminal, col: nat): (t': Terminal)
    requires Inv(t) && col < Columns(t)
    ensures Inv(t') && Stays(t, t')
  {
    PutCursor(t, t.cursor.row, col)
  }

  /** The nearest row and column on the screen. */
  function SetCursorRowCol(t: Terminal, row: int, col: int): (t': Terminal)
    requires Inv(t)
    ensures Inv(t') && Stays(t, t')
  {
    PutCursor(t, Max(0, Min(row, Rows(t) - 1)), Max(0, Min(col, Columns(t) - 1)))
  }

  /** The part of the screen that coordinates refer to. */
  function Effective(t: Terminal): (m: Margins)
  {
    if Has(t, OriginMode) then t.margins else Margins(0, Rows(t), 0, Columns(t))
  }

  lemma EffectiveFits(t: Terminal)
    requires Inv(t)
    ensures var m := Effective(t);
      m.top <= m.bottom <= Rows(t) && m.left <= m.right <= Columns(t) && m.top < m.bottom && m.left < m.right
  {
  }

  function SetCursorPosition(t: Terminal, x: int, y: int): (t': Terminal)
    requires Inv(t)
    ensures Inv(t') && Stays(t, t')
  {
    var m := Effective(t);
    SetCursorRowCol(t, Max(m.top, Min(m.top + y, m.bottom - 1)), Max(m.left, Min(m.left + x, m.right - 1)))
  }

  function AboutToWrap(t: Terminal, about: bool): (t': Terminal)
    requires Inv(t)
    ensures Inv(t') && Stays(t, t')
  {
    hide Ok, PenOk, ArgsOk, Utf8.Reachable;
    t.(cursor := t.cursor.(aboutToWrap := about))
  }

  // ----- Scrolling and line feeds -----

  /** Scrolls the region between the margins. */
  function ScrollDownOneLine(t: Terminal): (t': Terminal)
    requires Inv(t)
    ensures Inv(t') && Stays(t, t')
  {
    Edit(t, ScrollUp(t.screens, t.margins.top, t.margins.bottom, CurrentStyle(t)))
  }

  function Linefeed(t: Terminal): (t': Terminal)
    requires Inv(t)
    ensures Inv(t') && Stays(t, t')
  {
    hide Ok, PenOk, SavedOk, ArgsOk;
    var newCursorRow := t.cursor.row + 1;
    if t.cursor.row >= t.margins.bottom then
      // Below the scrolling region the cursor moves down, but nothing scrolls.
      if t.cursor.row != Rows(t) - 1 then SetCursorRow(t, newCursorRow) else t
    else if newCursorRow == t.margins.bottom then SetCursorRow(ScrollDownOneLine(t), t.margins.bottom - 1)
    else SetCursorRow(t, newCursorRow)
  }

  /** Back to the end of the line before, if it was wrapped automatically. */
  function PreviousLine(t: Terminal): (t': Terminal)
    requires Inv(t)
    ensures Inv(t') && Stays(t, t')
  {
    hide Ok, PenOk, SavedOk, ArgsOk;
    var previousRow := t.cursor.row - 1;
    if previousRow >= 0 && GetWrap(t.screens, previousRow) then
      SetCursorRowCol(Edit(t, SetWrap(t.screens, previousRow, false)), previousRow, t.margins.right - 1)
    else t
  }

  function Backspace(t: Terminal): (t': Terminal)
    requires Inv(t)
    ensures Inv(t') && Stays(t, t')
  {
    if t.cursor.col == t.margins.left then PreviousLine(t) else SetCursorCol(t, t.cursor.col - 1)
  }

  // ----- Tab stops -----

  function DefaultTabStops(columns: nat): seq<bool> {
    seq(columns, i => i % 8 == 0 && i != 0)
  }

  /** The column of the `n`-th tab stop after column `i - 1`, or the last column. */
  function NextTabStop(tabStop: seq<bool>, i: nat, n: int, right: nat): (col: int)
    requires right == |tabStop|
    ensures 0 < right && i < right ==> i <= col < right
    ensures 0 < right ==> 0 <= col < right
    decreases |tabStop| - i
  {
    if i >= |tabStop| then right - 1
    else if tabStop[i] then if n - 1 == 0 then Min(i, right) else NextTabStop(tabStop, i + 1, n - 1, right)
    else NextTabStop(tabStop, i + 1, n, right)
  }

  /** The column of the `n`-th tab stop before column `i + 1`, or the first column. */
  function PreviousTabStop(tabStop: seq<bool>, i: int, n: int, left: nat): (col: int)
    requires i < |tabStop| && left < |tabStop|
    ensures 0 <= col < |tabStop|
    decreases i
  {
    if i < 0 then left
    else if tabStop[i] then if n - 1 == 0 then Max(i, left) else PreviousTabStop(tabStop, i - 1, n - 1, left)
    else PreviousTabStop(tabStop, i - 1, n, left)
  }

  function SetTabStops(t: Terminal, tabStop: seq<bool>): (t': Terminal)
    requires Inv(t) && |tabStop| == Columns(t)
    ensures Inv(t') && Stays(t, t')
  {
    hide Ok, PenOk, ArgsOk, Utf8.Reachable;
    t.(tabStop := tabStop)
  }

  // ----- Writing a character -----

  /** The line drawing character set, when it is in use. */
  function Mapped(t: Terminal, c: CodePoint): CodePoint {
    var drawing := if t.charset.usesG0 then t.charset.g0 else t.charset.g1;
    if drawing && c in TABLES.lineDrawing then TABLES.lineDrawing[c] else c
  }

  function Remember(t: Terminal, c: CodePoint): (t': Terminal)
    requires Inv(t)
    ensures Inv(t') && Stays(t, t')
  {
    hide Ok, PenOk, ArgsOk, Utf8.Reachable;
    t.(lastEmitted := Some(c))
  }

  /** Wraps to the next line, marking the old one. */
  function WrapLine(t: Terminal): (t': Terminal)
    requires Inv(t)
    ensures Inv(t') && Stays(t, t') && t'.cursor.col == t.margins.left
  {
    hide Ok, PenOk, SavedOk, ArgsOk;
    var t1 := Edit(t, SetWrap(t.screens, t.cursor.row, true));
    if t.cursor.row + 1 < t.margins.bottom then MoveTo(t1, t.cursor.row + 1, t.margins.left)
    else ScrollDownOneLine(MoveTo(t1, t.cursor.row, t.margins.left))
  }

  /** In insert mode the rest of the line moves right by `w` columns. */
  ghost function MakeRoom(t: Terminal, w: nat): (t': Terminal)
    requires Inv(t)
    ensures Inv(t') && Stays(t, t') && t'.cursor == t.cursor
  {
    hide Ok, PenOk, SavedOk, ArgsOk;
    var destCol := t.cursor.col + w;
    if t.modes.insert && w > 0 && destCol < t.margins.right then
      Edit(t, Copy(t.screens, P.Block(t.cursor.col, t.cursor.row, t.margins.right - destCol, 1, destCol, t.cursor.row)))
    else t
  }

  /** Writes a character that fits at the cursor; a combining one goes to the column before. */
  function PutAtCursor(t: Terminal, c: CodePoint): (t': Terminal)
    requires Inv(t) && t.cursor.col + Width(c) <= Columns(t)
    ensures Inv(t') && Stays(t, t')
  {
    hide Ok, PenOk, SavedOk, ArgsOk;
    var offsetDueToCombiningChar := if Width(c) <= 0 && t.cursor.col > 0 && !t.cursor.aboutToWrap then 1 else 0;
    Edit(t, SetChar(t.screens, t.cursor.col - offsetDueToCombiningChar, t.cursor.row, c, CurrentStyle(t)))
  }

  /** Moves the cursor behind a character of `w` columns; in the last column the next one will wrap. */
  function Advance(t: Terminal, w: nat): (t': Terminal)
    requires Inv(t)
    ensures Inv(t') && Stays(t, t')
  {
    hide Ok, PenOk, SavedOk, ArgsOk;
    var about := if Has(t, AutoWrap) && w > 0 then t.cursor.col == t.margins.right - w else t.cursor.aboutToWrap;
    MoveTo(AboutToWrap(t, about), t.cursor.row, Min(t.cursor.col + w, t.margins.right - 1))
  }

  /** Writes a character and moves the cursor. */
  function WriteHere(t: Terminal, c: CodePoint): (t': Terminal)
    requires Inv(t) && t.cursor.col + Width(c) <= Columns(t)
    ensures Inv(t') && Stays(t, t')
  {
    Advance(PutAtCursor(t, c), Width(c))
  }

  ghost function InsertOrReplace(t: Terminal, c: CodePoint): (t': Terminal)
    requires Inv(t) && t.cursor.col + Width(c) <= Columns(t)
    ensures Inv(t') && Stays(t, t')
  {
    WriteHere(MakeRoom(t, Width(c)), c)
  }

  ghost function EmitMapped(t: Terminal, c: CodePoint): (t': Terminal)
    requires Inv(t)
    ensures Inv(t') && Stays(t, t')
  {
    assert 2 <= Columns(t);
    hide Ok, PenOk, SavedOk, ArgsOk;
    var w, autoWrap := Width(c), Has(t, AutoWrap);
    var cursorInLastColumn := t.cursor.col == t.margins.right - 1;
    // Without automatic wrapping a wide character in the last column is ignored.
    if !autoWrap && cursorInLastColumn && w == 2 then t
    else
      var t1 := if autoWrap && cursorInLastColumn && ((t.cursor.aboutToWrap && w == 1) || w == 2)
        then WrapLine(t) else t;
      InsertOrReplace(t1, c)
  }

  /** emitCodePoint. */
  ghost function EmitCodePoint(t: Terminal, c: CodePoint): (t': Terminal)
    requires Inv(t)
    ensures Inv(t') && Stays(t, t')
  {
    EmitMapped(Remember(t, c), Mapped(t, c))
  }

  // ----- Saving and restoring the cursor -----

  function ActiveSaved(t: Terminal): Saved {
    if t.screens.onAlt then t.savedAlt else t.savedMain
  }

  function SaveCursor(t: Terminal): (t': Terminal)
    requires Inv(t)
    ensures Inv(t') && Stays(t, t')
  {
    hide Ok, PenOk, ArgsOk, Utf8.Reachable;
    var saved := Saved(t.cursor.row, t.cursor.col, t.pen, t.modes.flags, t.charset);
    if t.screens.onAlt then t.(savedAlt := saved) else t.(savedMain := saved)
  }

  /** The modes that are saved with the cursor. */
  const SAVED_MODES: set<Flag> := {AutoWrap, OriginMode}

  lemma SavedPenOk(t: Terminal)
    requires Inv(t)
    ensures PenOk(ActiveSaved(t).pen)
  {
  }

  function RestoreCursor(t: Terminal): (t': Terminal)
    requires Inv(t)
    ensures Inv(t') && Stays(t, t')
  {
    var saved := ActiveSaved(t);
    SavedPenOk(t);
    hide Inv, PenOk;
    var flags := (t.modes.flags - SAVED_MODES) + (saved.flags * SAVED_MODES);
    SetCharset(SetFlags(SetPen(SetCursorRowCol(t, saved.row, saved.col), saved.pen), flags), saved.charset)
  }

  // ----- Modes -----

  function SetFlags(t: Terminal, flags: set<Flag>): (t': Terminal)
    requires Inv(t)
    ensures Inv(t') && Stays(t, t')
  {
    hide Ok, PenOk, ArgsOk, Utf8.Reachable;
    t.(modes := t.modes.(flags := flags))
  }

  /** The mouse modes exclude each other. */
  function WithFlag(flags: set<Flag>, f: Flag, set_: bool): set<Flag> {
    if !set_ then flags - {f}
    else if f == MousePressRelease then flags - {MouseButtonEvent} + {f}
    else if f == MouseButtonEvent then flags - {MousePressRelease} + {f}
    else flags + {f}
  }

  function SetFlag(t: Terminal, f: Flag, set_: bool): (t': Terminal)
    requires Inv(t)
    ensures Inv(t') && Stays(t, t')
  {
    SetFlags(t, WithFlag(t.modes.flags, f, set_))
  }

  function SetMargins(t: Terminal, m: Margins): (t': Terminal)
    requires Inv(t) && MarginsOk(m, Columns(t), Rows(t))
    ensures Inv(t') && Stays(t, t')
  {
    hide Ok, PenOk, ArgsOk, Utf8.Reachable;
    t.(margins := m)
  }

  function SetPen(t: Terminal, p: Pen): (t': Terminal)
    requires Inv(t) && PenOk(p)
    ensures Inv(t') && Stays(t, t')
  {
    hide Ok, PenOk, ArgsOk, Utf8.Reachable;
    t.(pen := p)
  }

  function SetCharset(t: Terminal, c: Charset): (t': Terminal)
    requires Inv(t)
    ensures Inv(t') && Stays(t, t')
  {
    hide Ok, PenOk, ArgsOk, Utf8.Reachable;
    t.(charset := c)
  }

  const RESET_FLAGS: set<Flag> := {AutoWrap, CursorEnabled}

  /** What a saved cursor becomes at a reset; the saved character sets stay. */
  function ResetSaved(s: Saved): Saved {
    Saved(0, 0, DEFAULT_PEN, RESET_FLAGS, s.charset)
  }

  function SetModes(t: Terminal, m: Modes): (t': Terminal)
    requires Inv(t)
    ensures Inv(t') && Stays(t, t')
  {
    hide Ok, PenOk, ArgsOk, Utf8.Reachable;
    t.(modes := m)
  }

  function ResetSavedStates(t: Terminal): (t': Terminal)
    requires Inv(t)
    ensures Inv(t') && t'.screens == t.screens
  {
    DefaultPenIsOk();
    assert P.Good(t.screens.main) && 0 < |t.screens.main.screen|;
    hide Ok, PenOk;
    t.(savedMain := ResetSaved(t.savedMain), savedAlt := ResetSaved(t.savedAlt))
  }

  /** Ends a sequence and forgets a half-read character. */
  function ResetParsing(t: Terminal): (t': Terminal)
    requires Inv(t)
    ensures Inv(t') && Stays(t, t') && t'.screens == t.screens
  {
    hide Ok, PenOk;
    t.(parser := Parser(NoEscape, t.parser.args.(index := 0), t.parser.collected), decoder := Utf8.GROUND)
  }

  function FullMargins(t: Terminal): (m: Margins)
    requires Inv(t)
    ensures MarginsOk(m, Columns(t), Rows(t))
  {
    Margins(0, Rows(t), 0, Columns(t))
  }

  /** Puts all settings back, but leaves the screens and the cursor's place alone. */
  function Reset(t: Terminal): (t': Terminal)
    requires Inv(t)
    ensures Inv(t') && t'.screens == t.screens
  {
    DefaultPenIsOk();
    var t1 := SetMargins(AboutToWrap(ResetParsing(t), false), FullMargins(t));
    var t2 := SetPen(SetTabStops(t1, DefaultTabStops(Columns(t))), DEFAULT_PEN);
    ResetSavedStates(SetModes(SetCharset(t2, Charset(false, false, true)), Modes(RESET_FLAGS, RESET_FLAGS, false)))
  }

  /** A terminal with two blank screens. */
  function New(columns: nat, total: nat, rows: nat): (t: Terminal)
    requires 2 <= columns && 2 <= rows <= total
    ensures Inv(t)
  {
    DefaultPenIsOk();
    hide Ok, PenOk;
    var charset := Charset(false, false, true);
    Terminal(Display.Initial(columns, total, rows), Cursor(0, 0, false), Margins(0, rows, 0, columns),
             DefaultTabStops(columns), DEFAULT_PEN, charset, Modes(RESET_FLAGS, RESET_FLAGS, false),
             Saved(0, 0, DEFAULT_PEN, RESET_FLAGS, charset), Saved(0, 0, DEFAULT_PEN, RESET_FLAGS, charset),
             Parser(NoEscape, Args(seq(MAX_ESCAPE_PARAMETERS, _ => 0), 0), 0), None, Utf8.GROUND, [])
  }

  // ----- Size -----

  /** resizeScreen: the active buffer takes the terminal's size, and the cursor follows. */
  function ResizeScreen(s: Screens, row: nat, col: nat, about: bool, st: Style): (r: (Screens, Cursor))
    requires OkButSize(s) && TextStyle.IsEncoded(st)
    requires (col < Active(s).columns && row < |Active(s).screen|) || (s.onAlt && col < s.columns && row < s.rows)
    ensures Ok(r.0) && OnlyActive(s, r.0) && CursorOk(r.1, s.columns, s.rows)
  {
    hide OkButSize, TextStyle.IsEncoded;
    var (s', newCol, newRow) := Display.Resize(s, col, row, st);
    (s', Cursor(newRow, newCol, about))
  }

  function ResizedTabStops(tabStop: seq<bool>, columns: nat): (r: seq<bool>)
    ensures |r| == columns
  {
    seq(columns, i requires 0 <= i < columns => if i < |tabStop| then tabStop[i] else i % 8 == 0 && i != 0)
  }

  /** A new number of rows, and margins for it; the screens follow in ResizeScreen. */
  function WithRows(t: Terminal, rows: nat): Terminal {
    if rows == Rows(t) then t
    else t.(screens := t.screens.(rows := rows), margins := t.margins.(top := 0, bottom := rows))
  }

  /** A new number of columns, with margins and tab stops for it. */
  function WithColumns(t: Terminal, columns: nat): Terminal {
    if columns == Columns(t) then t
    else
      t.(screens := t.screens.(columns := columns), margins := t.margins.(left := 0, right := columns),
         tabStop := ResizedTabStops(t.tabStop, columns))
  }

  function Sized(t: Terminal, columns: nat, rows: nat): (t': Terminal)
    requires Inv(t) && 2 <= columns && 2 <= rows <= P.Total(t.screens.main)
    ensures OkButSize(t'.screens) && |t'.tabStop| == columns && MarginsOk(t'.margins, columns, rows)
    ensures t'.screens == SetSize(t.screens, columns, rows)
    ensures t' == t.(screens := t'.screens, margins := t'.margins, tabStop := t'.tabStop)
  {
    hide PenOk, ArgsOk, Utf8.Reachable;
    WithColumns(WithRows(t, rows), columns)
  }

  /** A new size of the window. */
  function Resize(t: Terminal, columns: nat, rows: nat): (t': Terminal)
    requires Inv(t) && 2 <= columns && 2 <= rows <= P.Total(t.screens.main)
    ensures Inv(t') && Columns(t') == columns && Rows(t') == rows && t'.screens.onAlt == t.screens.onAlt
  {
    if columns == Columns(t) && rows == Rows(t) then t
    else
      ActiveIsGood(t.screens);
      var t1 := Sized(t, columns, rows);
      var (s, cursor) := ResizeScreen(t1.screens, t.cursor.row, t.cursor.col, t.cursor.aboutToWrap, CurrentStyle(t));
      hide Ok, PenOk, ArgsOk, Utf8.Reachable, Sized;
      t1.(screens := s, cursor := cursor)
  }
}
