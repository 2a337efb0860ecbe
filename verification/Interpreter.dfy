/** TerminalEmulator.processCodePoint and processByte: escape sequences and what they make the terminal do. */
module Interpreter {
  import opened Common
  import opened WcWidth
  import opened Utf16
  import opened Row
  import P = Page
  import TextStyle
  import opened Display
  import opened Sgr
  import opened CsiArgs
  import opened TerminalState
  import opened Commands
  import Utf8

  const MAX_OSC_STRING_LENGTH := 8192

  // ----- The parser -----

  function SetParser(t: Terminal, p: Parser): (t': Terminal)
    requires Inv(t) && ParserOk(p)
    ensures Inv(t') && Stays(t, t')
  {
    hide Ok, PenOk, ArgsOk, Utf8.Reachable;
    t.(parser := p)
  }

  function Goto(t: Terminal, state: EscapeState): (t': Terminal)
    requires Inv(t)
    ensures Inv(t') && Stays(t, t')
  {
    SetParser(t, t.parser.(state := state))
  }

  function Finish(t: Terminal): (t': Terminal)
    requires Inv(t)
    ensures Inv(t') && Stays(t, t')
  {
    Goto(t, NoEscape)
  }

  function StartEscapeSequence(t: Terminal): (t': Terminal)
    requires Inv(t)
    ensures Inv(t') && Stays(t, t')
  {
    SetParser(t, Parser(Esc, NoArgs(), t.parser.collected))
  }

  /** A character of the arguments; any other one ends the sequence. */
  function ArgChar(t: Terminal, b: CodePoint): (t': Terminal)
    requires Inv(t)
    ensures Inv(t') && Stays(t, t')
  {
    if IsArgChar(b) then SetParser(t, t.parser.(args := ParseArg(t.parser.args, b))) else Finish(t)
  }

  /** The first argument, of which zero counts as missing. */
  function Arg0(t: Terminal, defaultValue: int): int
    requires Inv(t)
  {
    GetArg(t.parser.args, 0, defaultValue, true)
  }

  // ----- String arguments -----

  /** Collects a character of an OSC string; when it gets too long the sequence ends. */
  function CollectOsc(t: Terminal, c: CodePoint): (t': Terminal)
    requires Inv(t)
    ensures Inv(t') && Stays(t, t')
  {
    if t.parser.collected < MAX_OSC_STRING_LENGTH then
      SetParser(t, t.parser.(collected := t.parser.collected + CharCount(c)))
    else Finish(t)
  }

  function DoOsc(t: Terminal, b: CodePoint): (t': Terminal)
    requires Inv(t)
    ensures Inv(t') && Stays(t, t')
  {
    if b == 7 then Finish(t) else if b == 27 then Goto(t, OscEsc) else CollectOsc(t, b)
  }

  function DoOscEsc(t: Terminal, b: CodePoint): (t': Terminal)
    requires Inv(t)
    ensures Inv(t') && Stays(t, t')
  {
    hide Inv;
    if b == 92 then Finish(t) else Goto(CollectOsc(CollectOsc(t, 27), b), Osc)
  }

  function DoDeviceControl(t: Terminal, b: CodePoint): (t': Terminal)
    requires Inv(t)
    ensures Inv(t') && Stays(t, t')
  {
    if b == 92 then Finish(t)
    else if t.parser.collected > MAX_OSC_STRING_LENGTH then SetParser(t, Parser(NoEscape, t.parser.args, 0))
    else SetParser(t, t.parser.(collected := t.parser.collected + CharCount(b)))
  }

  // ----- Replies -----

  /** Where the cursor is, counted from one: CPR. */
  function CursorReport(c: Cursor): seq<CodePoint> {
    [27, 91] + Decimal(c.row + 1) + [SEMICOLON] + Decimal(c.col + 1) + [82]
  }

  function Reply(t: Terminal, s: seq<CodePoint>): (t': Terminal)
    requires Inv(t)
    ensures Inv(t') && Stays(t, t')
  {
    hide Ok, PenOk, ArgsOk, Utf8.Reachable;
    t.(sent := t.sent + s)
  }

  // ----- ESC -----

  /** RIS. */
  function FullReset(t: Terminal): (t': Terminal)
    requires Inv(t)
    ensures Inv(t') && t'.screens.onAlt == t.screens.onAlt && MainKept(t, t')
  {
    var t1 := ClearTranscript(Reset(t));
    SetCursorPosition(BlockClear(t1, 0, 0, Columns(t), Rows(t)), 0, 0)
  }

  function NextLine(t: Terminal): (t': Terminal)
    requires Inv(t)
    ensures Inv(t') && Stays(t, t')
  {
    Linefeed(SetCursorCol(t, if Has(t, OriginMode) then t.margins.left else 0))
  }

  /** Escape sequences of one character that move the cursor or the screen. */
  ghost function EscMotion(t: Terminal, b: CodePoint): (t': Terminal)
    requires Inv(t)
    ensures Inv(t') && Stays(t, t')
  {
    hide Ok, PenOk, SavedOk;
    match b
    case 54 => BackIndex(t)                                         // '6', DECBI
    case 57 => ForwardIndex(t)                                      // '9', DECFI
    case 68 => Linefeed(t)                                          // 'D', IND
    case 69 => NextLine(t)                                          // 'E', NEL
    case 70 => SetCursorRowCol(t, 0, t.margins.bottom - 1)          // 'F'
    case 77 => ReverseIndex(t)                                      // 'M', RI
    case _ => t
  }

  /** Escape sequences of one character that change settings. */
  function EscSetting(t: Terminal, b: CodePoint): (t': Terminal)
    requires Inv(t)
    ensures Inv(t') && Stays(t, t')
  {
    hide Ok, PenOk, SavedOk;
    match b
    case 55 => SaveCursor(t)                                        // '7', DECSC
    case 56 => RestoreCursor(t)                                     // '8', DECRC
    case 72 => SetTabStops(t, t.tabStop[t.cursor.col := true])      // 'H', HTS
    case 61 => SetFlag(t, ApplicationKeypad, true)                  // '=', DECKPAM
    case 62 => SetFlag(t, ApplicationKeypad, false)                 // '>', DECKPNM
    case _ => t
  }

  predicate IsEscSetting(b: CodePoint) {
    b in {55, 56, 61, 62, 72}
  }

  ghost function EscCommand(t: Terminal, b: CodePoint): (t': Terminal)
    requires Inv(t)
    ensures Inv(t') && Stays(t, t')
  {
    hide Inv;
    if IsEscSetting(b) then EscSetting(t, b) else EscMotion(t, b)
  }

  function EscNext(b: CodePoint): Option<EscapeState> {
    match b
    case 35 => Some(Pound)              // '#'
    case 40 => Some(SelectLeftParen)    // '('
    case 41 => Some(SelectRightParen)   // ')'
    case 80 => Some(DeviceControl)      // 'P'
    case 91 => Some(Csi)                // '['
    case 93 => Some(Osc)                // ']'
    case _ => None
  }

  function StartString(t: Terminal, state: EscapeState): (t': Terminal)
    requires Inv(t)
    ensures Inv(t') && Stays(t, t')
  {
    SetParser(t, Parser(state, t.parser.args, 0))
  }

  ghost function DoEsc(t: Terminal, b: CodePoint): (t': Terminal)
    requires Inv(t)
    ensures Inv(t') && MainKept(t, t') && t'.screens.onAlt == t.screens.onAlt && (b != 99 ==> Stays(t, t'))
  {
    hide Inv;
    match EscNext(b)
    case Some(next) =>
      if next == Osc || next == DeviceControl then StartString(t, next) else Goto(t, next)
    case None =>
      if b == 99 then Finish(FullReset(t)) else Finish(EscCommand(t, b))   // 'c', RIS
  }

  function DoEscPound(t: Terminal, b: CodePoint): (t': Terminal)
    requires Inv(t)
    ensures Inv(t') && Stays(t, t')
  {
    LatinIsNarrow(69);
    // '8', DECALN, fills the screen with 'E'.
    if b == 56 then Finish(Edit(t, Fill(t.screens, 0, 0, Columns(t), Rows(t), 69, CurrentStyle(t)))) else Finish(t)
  }

  // ----- CSI -----

  /** DECSTBM. */
  function SetTopBottom(t: Terminal): (t': Terminal)
    requires Inv(t)
    ensures Inv(t') && Stays(t, t')
  {
    hide Ok, PenOk, SavedOk;
    var top := Max(0, Min(Arg(t, 0, 1) - 1, Rows(t) - 2));
    var bottom := Max(top + 2, Min(Arg(t, 1, Rows(t)), Rows(t)));
    SetCursorPosition(SetMargins(t, t.margins.(top := top, bottom := bottom)), 0, 0)
  }

  function NoTabStops(columns: nat): (s: seq<bool>)
    ensures |s| == columns
  {
    seq(columns, _ => false)
  }

  function ClearTabStops(t: Terminal, arg: int): (t': Terminal)
    requires Inv(t)
    ensures Inv(t') && Stays(t, t')
  {
    match arg
    case 0 => SetTabStops(t, t.tabStop[t.cursor.col := false])
    case 3 => SetTabStops(t, NoTabStops(Columns(t)))
    case _ => t
  }

  function SetMode(t: Terminal, value: bool): (t': Terminal)
    requires Inv(t)
    ensures Inv(t') && Stays(t, t')
  {
    hide Ok, PenOk, Utf8.Reachable;
    if Arg0(t, 0) == 4 then t.(modes := t.modes.(insert := value)) else t
  }

  function SelectGraphicRendition(t: Terminal): (t': Terminal)
    requires Inv(t)
    ensures Inv(t') && Stays(t, t')
  {
    var last := LastArg(t.parser.args);
    SelectKeeps(t.pen, t.parser.args.values, last, 0);
    SetPen(t, Select(t.pen, t.parser.args.values, last, 0))
  }

  /** Moving the cursor along its row or column. */
  function StepCommand(t: Terminal, b: CodePoint): (t': Terminal)
    requires Inv(t)
    ensures Inv(t') && Stays(t, t')
  {
    hide Ok, PenOk, SavedOk;
    var n, row, col := Arg(t, 0, 1), t.cursor.row, t.cursor.col;
    match b
    case 65 => SetCursorRow(t, Max(0, row - n))                            // 'A', CUU
    case 66 => SetCursorRow(t, Min(Rows(t) - 1, row + n))                  // 'B', CUD
    case 67 => SetCursorCol(t, Min(t.margins.right - 1, col + n))          // 'C', CUF
    case 97 => SetCursorCol(t, Min(t.margins.right - 1, col + n))          // 'a', HPR
    case 68 => SetCursorCol(t, Max(t.margins.left, col - n))               // 'D', CUB
    case 71 => SetCursorCol(t, Min(Max(1, n), Columns(t)) - 1)             // 'G', CHA
    case 100 => SetCursorRow(t, Min(Max(1, n), Rows(t)) - 1)               // 'd', VPA
    case _ => t
  }

  /** Moving the cursor to a tab stop. */
  function TabCommand(t: Terminal, b: CodePoint): (t': Terminal)
    requires Inv(t)
    ensures Inv(t') && Stays(t, t')
  {
    hide Ok, PenOk, SavedOk;
    var n, row, col := Arg(t, 0, 1), t.cursor.row, t.cursor.col;
    match b
    case 73 => SetCursorCol(t, NextTabStop(t.tabStop, col + 1, n, t.margins.right))          // 'I', CHT
    case 90 => MoveTo(t, row, PreviousTabStop(t.tabStop, col - 1, n, t.margins.left))        // 'Z', CBT
    case _ => t
  }

  /** Moving the cursor to a position, which depends on origin mode. */
  function PositionCommand(t: Terminal, b: CodePoint): (t': Terminal)
    requires Inv(t)
    ensures Inv(t') && Stays(t, t')
  {
    hide Ok, PenOk, SavedOk;
    var n, row, col := Arg(t, 0, 1), t.cursor.row, t.cursor.col;
    match b
    case 69 => SetCursorPosition(t, 0, row + n)                            // 'E', CNL
    case 70 => SetCursorPosition(t, 0, row - n)                            // 'F', CPL
    case 72 => SetCursorPosition(t, Arg(t, 1, 1) - 1, n - 1)               // 'H', CUP
    case 102 => SetCursorPosition(t, Arg(t, 1, 1) - 1, n - 1)              // 'f', HVP
    case 96 => SetCursorPosition(t, n - 1, row)                            // '`', HPA
    case 101 => SetCursorPosition(t, col, row + n)                         // 'e', VPR
    case _ => t
  }

  predicate Steps(b: CodePoint) {
    b in {65, 66, 67, 68, 71, 97, 100}
  }

  predicate Positions(b: CodePoint) {
    b in {69, 70, 72, 96, 101, 102}
  }

  predicate Tabs(b: CodePoint) {
    b in {73, 90}
  }

  predicate Edits(b: CodePoint) {
    b in {64, 74, 75, 76, 77, 80, 83, 84, 88, 98}
  }

  /** Changing what is on the screen. */
  ghost function EditCommand(t: Terminal, b: CodePoint): (t': Terminal)
    requires Inv(t)
    ensures Inv(t') && Stays(t, t')
  {
    hide Ok, PenOk, SavedOk;
    var n := Arg(t, 0, 1);
    match b
    case 64 => InsertCharacters(t, n)                                      // '@', ICH
    case 74 => EraseInDisplay(t, Arg0(t, 0))                               // 'J', ED
    case 75 => EraseInLine(t, Arg0(t, 0))                                  // 'K', EL
    case 76 => InsertLines(t, n)                                           // 'L', IL
    case 77 => DeleteLines(t, n)                                           // 'M', DL
    case 80 => DeleteCharacters(t, n)                                      // 'P', DCH
    case 83 => ScrollUpLines(t, n)                                         // 'S', SU
    case 84 => if t.parser.args.index == 0 then ScrollDownLines(t, n) else t   // 'T', SD
    case 88 => EraseCharacters(t, n)                                       // 'X', ECH
    case 98 => if t.lastEmitted.Some? then Repeat(t, t.lastEmitted.value, n) else t   // 'b', REP
    case _ => t
  }

  /** Margins, and saving the cursor. */
  function MarginCommand(t: Terminal, b: CodePoint): (t': Terminal)
    requires Inv(t) && !(b == 115 && Has(t, LeftRightMargins))
    ensures Inv(t') && Stays(t, t')
  {
    hide Inv;
    match b
    case 114 => SetTopBottom(t)                                            // 'r', DECSTBM
    case 115 => SaveCursor(t)                                              // 's', unless it is DECSLRM
    case 117 => RestoreCursor(t)                                           // 'u'
    case _ => t
  }

  predicate IsMarginCommand(b: CodePoint) {
    b in {114, 115, 117}
  }

  /** Tab stops, modes, the pen and replies. */
  function ModeCommand(t: Terminal, b: CodePoint): (t': Terminal)
    requires Inv(t)
    ensures Inv(t') && Stays(t, t')
  {
    hide Inv;
    match b
    case 103 => ClearTabStops(t, Arg0(t, 0))                               // 'g', TBC
    case 104 => SetMode(t, true)                                           // 'h', SM
    case 108 => SetMode(t, false)                                          // 'l', RM
    case 109 => SelectGraphicRendition(t)                                  // 'm', SGR
    case 110 => if Arg0(t, 0) == 6 then Reply(t, CursorReport(t.cursor)) else t   // 'n', DSR
    case _ => t
  }

  ghost function CsiCommand(t: Terminal, b: CodePoint): (t': Terminal)
    requires Inv(t) && !(b == 115 && Has(t, LeftRightMargins))
    ensures Inv(t') && Stays(t, t')
  {
    hide Inv;
    if Steps(b) then StepCommand(t, b)
    else if Positions(b) then PositionCommand(t, b)
    else if Tabs(b) then TabCommand(t, b)
    else if Edits(b) then EditCommand(t, b)
    else if IsMarginCommand(b) then MarginCommand(t, b)
    else ModeCommand(t, b)
  }

  function CsiNext(b: CodePoint): Option<EscapeState> {
    match b
    case 33 => Some(Exclamation)        // '!'
    case 34 => Some(DoubleQuote)        // '"'
    case 39 => Some(SingleQuote)        // '\''
    case 36 => Some(CsiDollar)          // '$'
    case 42 => Some(ArgsAsterisk)       // '*'
    case 63 => Some(CsiQuestionMark)    // '?'
    case 62 => Some(CsiBiggerThan)      // '>'
    case 32 => Some(ArgsSpace)          // ' '
    case _ => None
  }

  /** DECSLRM is not modelled. */
  predicate IsDecslrm(t: Terminal, b: CodePoint) {
    t.parser.state == Csi && b == 115 && Has(t, LeftRightMargins)
  }

  ghost function DoCsi(t: Terminal, b: CodePoint): (t': Terminal)
    requires Inv(t) && !(b == 115 && Has(t, LeftRightMargins))
    ensures Inv(t') && Stays(t, t')
  {
    hide Inv;
    if CsiNext(b).Some? then Goto(t, CsiNext(b).value)
    else if IsArgChar(b) then ArgChar(t, b)
    else Finish(CsiCommand(t, b))
  }

  // ----- CSI ? -----

  /** Without DECLRMM the left and right margins are the edges of the screen. */
  function ResetLeftRight(t: Terminal): (t': Terminal)
    requires Inv(t)
    ensures Inv(t') && Stays(t, t')
  {
    SetMargins(t, t.margins.(left := 0, right := Columns(t)))
  }

  /** DECSET or DECRST of one mode: its flag, if it has one, and what else it does. */
  function DecSetOrReset(t: Terminal, setting: bool, bit: int): (t': Terminal)
    requires Inv(t)
    ensures Inv(t') && MainKept(t, t') && SavedKept(t, t')
    ensures setting && t.screens.onAlt ==> t'.screens.onAlt
    ensures !setting && !t.screens.onAlt ==> !t'.screens.onAlt
    ensures ModeFlag(bit).Some? ==> Stays(t, t')
  {
    FlagsAreNoBuffers(bit);
    hide Inv, ModeFlag, MainKept, SavedKept, Stays;
    match ModeFlag(bit)
    case Some(f) =>
      var t1 := SetFlag(t, f, setting);
      var t2 := ModeEffect(t1, setting, bit);
      Compose(t, t1, t2);
      t2
    case None => ModeEffect(t, setting, bit)
  }

  lemma FlagsAreNoBuffers(bit: int)
    ensures ModeFlag(bit).Some? ==> bit != 47 && bit != 1047 && bit != 1049
  {
  }

  lemma Compose(t: Terminal, t1: Terminal, t2: Terminal)
    requires Stays(t, t1) && MainKept(t1, t2) && SavedKept(t1, t2)
    ensures MainKept(t, t2) && SavedKept(t, t2) && t1.screens.onAlt == t.screens.onAlt
    ensures Stays(t1, t2) ==> Stays(t, t2)
  {
  }

  function ModeEffect(t: Terminal, setting: bool, bit: int): (t': Terminal)
    requires Inv(t)
    ensures Inv(t') && MainKept(t, t') && SavedKept(t, t')
    ensures setting && t.screens.onAlt ==> t'.screens.onAlt
    ensures !setting && !t.screens.onAlt ==> !t'.screens.onAlt
    ensures bit != 47 && bit != 1047 && bit != 1049 ==> Stays(t, t')
  {
    hide Inv;
    match bit
    case 3 => ColumnMode(t)
    case 6 => if setting then SetCursorPosition(t, 0, 0) else t
    case 69 => if setting then t else ResetLeftRight(t)
    case 1048 => if setting then SaveCursor(t) else RestoreCursor(t)
    case 47 => UseAlternate(t, setting)
    case 1047 => UseAlternate(t, setting)
    case 1049 => UseAlternate(t, setting)
    case _ => t
  }

  function UseAlternate(t: Terminal, setting: bool): (t': Terminal)
    requires Inv(t)
    ensures Inv(t') && t'.screens.onAlt == setting && MainKept(t, t') && SavedKept(t, t')
  {
    hide Inv;
    if setting == t.screens.onAlt then t else if setting then EnterAlternate(t) else LeaveAlternate(t)
  }

  function DecSetAll(t: Terminal, setting: bool, i: nat): (t': Terminal)
    requires Inv(t)
    ensures Inv(t') && MainKept(t, t') && SavedKept(t, t')
    ensures setting && t.screens.onAlt ==> t'.screens.onAlt
    ensures !setting && !t.screens.onAlt ==> !t'.screens.onAlt
    decreases MAX_ESCAPE_PARAMETERS - i
  {
    hide Ok, PenOk, SavedOk;
    if i > LastArg(t.parser.args) then t
    else
      hide DecSetOrReset;
      var t1 := DecSetOrReset(t, setting, t.parser.args.values[i]);
      // The arguments stay as they are.
      DecSetAll(SetParser(t1, t.parser), setting, i + 1)
  }

  lemma DecSetAllUnfold(t: Terminal, setting: bool, i: nat)
    requires Inv(t) && i <= LastArg(t.parser.args)
    ensures var t1 := DecSetOrReset(t, setting, t.parser.args.values[i]);
      t1.parser == t.parser ==> DecSetAll(t, setting, i) == DecSetAll(t1, setting, i + 1)
  {
    assert ParserOk(t.parser);
    hide Inv, DecSetOrReset;
    var t1 := DecSetOrReset(t, setting, t.parser.args.values[i]);
    assert t1.parser == t.parser ==> SetParser(t1, t.parser) == t1;
  }

  lemma DecSetAllEnds(t: Terminal, setting: bool, i: nat)
    requires Inv(t) && i > LastArg(t.parser.args)
    ensures DecSetAll(t, setting, i) == t
  {
    hide Inv;
  }

  lemma SaveOrRestoreAllUnfold(t: Terminal, save: bool, i: nat)
    requires Inv(t) && i <= LastArg(t.parser.args)
    ensures var bit := t.parser.args.values[i];
      var t1 := if save then SaveMode(t, bit) else RestoreMode(t, bit);
      t1.parser == t.parser ==> SaveOrRestoreAll(t, save, i) == SaveOrRestoreAll(t1, save, i + 1)
  {
    assert ParserOk(t.parser);
    hide Inv, SaveMode, RestoreMode;
    var bit := t.parser.args.values[i];
    var t1 := if save then SaveMode(t, bit) else RestoreMode(t, bit);
    assert t1.parser == t.parser ==> SetParser(t1, t.parser) == t1;
  }

  lemma SaveOrRestoreAllEnds(t: Terminal, save: bool, i: nat)
    requires Inv(t) && i > LastArg(t.parser.args)
    ensures SaveOrRestoreAll(t, save, i) == t
  {
    hide Inv;
  }

  function SaveMode(t: Terminal, bit: int): (t': Terminal)
    requires Inv(t)
    ensures Inv(t') && Stays(t, t')
  {
    hide Ok, PenOk, ArgsOk, Utf8.Reachable;
    match ModeFlag(bit)
    case Some(f) => t.(modes := t.modes.(savedFlags := t.modes.savedFlags + {f}))
    case None => t
  }

  function RestoreMode(t: Terminal, bit: int): (t': Terminal)
    requires Inv(t)
    ensures Inv(t') && Stays(t, t')
  {
    match ModeFlag(bit)
    case Some(f) => DecSetOrReset(t, f in t.modes.savedFlags, bit)
    case None => t
  }

  function SaveOrRestoreAll(t: Terminal, save: bool, i: nat): (t': Terminal)
    requires Inv(t)
    ensures Inv(t') && Stays(t, t')
    decreases MAX_ESCAPE_PARAMETERS - i
  {
    hide Ok, PenOk, SavedOk;
    if i > LastArg(t.parser.args) then t
    else
      hide DecSetOrReset, ModeFlag;
      var bit := t.parser.args.values[i];
      var t1 := if save then SaveMode(t, bit) else RestoreMode(t, bit);
      SaveOrRestoreAll(SetParser(t1, t.parser), save, i + 1)
  }

  function ExtendedCursorReport(c: Cursor): seq<CodePoint> {
    [27, 91, 63] + Decimal(c.row + 1) + [SEMICOLON] + Decimal(c.col + 1) + [SEMICOLON, 49, 82]
  }

  function PrivateCommand(t: Terminal, b: CodePoint): (t': Terminal)
    requires Inv(t)
    ensures Inv(t') && MainKept(t, t') && SavedKept(t, t')
  {
    hide Inv;
    match b
    case 74 => SelectiveErase(t, Arg0(t, 0), false)                        // 'J', DECSED
    case 75 => SelectiveErase(t, Arg0(t, 0), true)                         // 'K', DECSEL
    case 104 => DecSetAll(t, true, 0)                                      // 'h', DECSET
    case 108 => DecSetAll(t, false, 0)                                     // 'l', DECRST
    case 110 => if Arg0(t, -1) == 6 then Reply(t, ExtendedCursorReport(t.cursor)) else t   // 'n', DECXCPR
    case 114 => SaveOrRestoreAll(t, false, 0)                              // 'r'
    case 115 => SaveOrRestoreAll(t, true, 0)                               // 's'
    case _ => t
  }

  predicate IsPrivateCommand(b: CodePoint) {
    b in {74, 75, 104, 108, 110, 114, 115}
  }

  function DoCsiQuestionMark(t: Terminal, b: CodePoint): (t': Terminal)
    requires Inv(t)
    ensures Inv(t') && MainKept(t, t') && SavedKept(t, t')
  {
    hide Inv;
    if IsPrivateCommand(b) then Finish(PrivateCommand(t, b))
    else if b == 36 then Goto(t, QuestionMarkDollar)                       // '$'
    else ArgChar(t, b)
  }

  // ----- Other control sequences -----

  predicate CanChange(t: Terminal, b: CodePoint)
    requires Inv(t)
  {
    (b == 114 || b == 116) && 4 <= t.parser.args.index ==> AttributeFits(t)
  }

  ghost function DoCsiDollar(t: Terminal, b: CodePoint): (t': Terminal)
    requires Inv(t) && CanChange(t, b)
    ensures Inv(t') && Stays(t, t')
  {
    hide Ok, PenOk, SavedOk, AttributeFits;
    LatinIsNarrow(SPACE);
    match b
    case 118 => CopyRectangle(t)                                                              // 'v', DECCRA
    case 123 => EraseRectangle(t, 0, Erasure(SPACE, CurrentStyle(t), true, true))             // '{', DECSERA
    case 120 => FillRectangle(t)                                                              // 'x', DECFRA
    case 122 => EraseRectangle(t, 0, Erasure(SPACE, CurrentStyle(t), false, false))           // 'z', DECERA
    case 114 => ChangeAttributes(t, 4, false)                                                 // 'r', DECCARA
    case 116 => ChangeAttributes(t, 4, true)                                                  // 't', DECRARA
    case _ => t
  }

  /** DECSCA. */
  function SelectProtection(t: Terminal): (t': Terminal)
    requires Inv(t)
    ensures Inv(t') && Stays(t, t')
  {
    var arg := Arg0(t, 0);
    ProtectionKeeps(t.pen);
    hide Inv, PenOk;
    if arg == 0 || arg == 2 then SetPen(t, t.pen.(effect := Remove(t.pen.effect, TextStyle.PROTECTED)))
    else if arg == 1 then SetPen(t, t.pen.(effect := Add(t.pen.effect, TextStyle.PROTECTED)))
    else t
  }

  lemma ProtectionKeeps(p: Pen)
    requires PenOk(p)
    ensures PenOk(p.(effect := Remove(p.effect, TextStyle.PROTECTED)))
    ensures PenOk(p.(effect := Add(p.effect, TextStyle.PROTECTED)))
  {
    LowRemove(p.effect, TextStyle.PROTECTED);
    LowAdd(p.effect, TextStyle.PROTECTED);
  }

  function SelectExtent(t: Terminal, b: CodePoint): (t': Terminal)
    requires Inv(t)
    ensures Inv(t') && Stays(t, t')
  {
    var arg := Arg0(t, 0);
    if b == 120 && 0 <= arg <= 2 then SetFlag(t, RectangularChange, arg == 2) else t   // 'x', DECSACE
  }

  ghost function DoSingleQuote(t: Terminal, b: CodePoint): (t': Terminal)
    requires Inv(t)
    ensures Inv(t') && Stays(t, t')
  {
    if b == 125 then InsertColumns(t, Arg(t, 0, 1))        // '}', DECIC
    else if b == 126 then DeleteColumns(t, Arg(t, 0, 1))   // '~', DECDC
    else t
  }

  // ----- One code point -----

  /** DECSTR and RIS. */
  predicate IsReset(t: Terminal, b: CodePoint) {
    (t.parser.state == Exclamation && b == 112) || (t.parser.state == Esc && b == 99)
  }

  /** What the model leaves out: DECSLRM, and DECCARA and DECRARA with an area that leaves the screen. */
  predicate Supported(t: Terminal, b: CodePoint)
    requires Inv(t)
  {
    !IsDecslrm(t, b) && (t.parser.state == CsiDollar ==> CanChange(t, b))
  }

  lemma CanEnd(t: Terminal, b: CodePoint)
    requires Inv(t) && Supported(t, b) && t.parser.state == CsiDollar
    ensures CanChange(t, b)
  {
  }

  /** States in which one more character ends the sequence. */
  predicate EndsSequence(state: EscapeState) {
    match state
    case SelectLeftParen | SelectRightParen | CsiDollar | DoubleQuote | SingleQuote | ArgsAsterisk => true
    case Percent | QuestionMarkDollar | ArgsSpace => true
    case _ => false
  }

  /** What the last character of such a sequence does. */
  ghost function EndOfSequence(t: Terminal, b: CodePoint): (t': Terminal)
    requires Inv(t) && (t.parser.state == CsiDollar ==> CanChange(t, b))
    ensures Inv(t') && Stays(t, t')
  {
    hide Inv;
    match t.parser.state
    case SelectLeftParen => SetCharset(t, t.charset.(g0 := b == DIGIT_0))
    case SelectRightParen => SetCharset(t, t.charset.(g1 := b == DIGIT_0))
    case CsiDollar => DoCsiDollar(t, b)
    case DoubleQuote => if b == 113 then SelectProtection(t) else t        // 'q'
    case SingleQuote => DoSingleQuote(t, b)
    case ArgsAsterisk => SelectExtent(t, b)
    case _ => t
  }

  /** Operating system commands and device control strings. */
  function StringCharacter(t: Terminal, b: CodePoint): (t': Terminal)
    requires Inv(t)
    ensures Inv(t') && Stays(t, t')
  {
    hide Inv;
    match t.parser.state
    case Osc => DoOsc(t, b)
    case OscEsc => DoOscEsc(t, b)
    case DeviceControl => DoDeviceControl(t, b)
    case _ => t
  }

  /** A character of a sequence that may go on. */
  ghost function MidSequence(t: Terminal, b: CodePoint): (t': Terminal)
    requires Inv(t) && Supported(t, b)
    ensures Inv(t') && MainKept(t, t') && (!IsReset(t, b) ==> SavedKept(t, t'))
  {
    hide Inv;
    match t.parser.state
    case Esc => DoEsc(t, b)
    case Pound => DoEscPound(t, b)
    case Csi => DoCsi(t, b)
    case Exclamation => if b == 112 then Reset(t) else Finish(t)           // 'p', DECSTR
    case CsiQuestionMark => DoCsiQuestionMark(t, b)
    case CsiBiggerThan => ArgChar(t, b)
    case _ => StringCharacter(t, b)
  }

  /** A character in the middle of an escape sequence, or outside one. */
  ghost function Dispatch(t: Terminal, b: CodePoint): (t': Terminal)
    requires Inv(t) && Supported(t, b)
    ensures Inv(t') && MainKept(t, t') && (!IsReset(t, b) ==> SavedKept(t, t'))
  {
    hide Inv;
    if t.parser.state == NoEscape then if b >= 32 then EmitCodePoint(t, b) else t
    else if EndsSequence(t.parser.state) then Finish(EndOfSequence(t, b))
    else MidSequence(t, b)
  }

  function Tab(t: Terminal): (t': Terminal)
    requires Inv(t)
    ensures Inv(t') && Stays(t, t')
  {
    MoveTo(t, t.cursor.row, NextTabStop(t.tabStop, t.cursor.col + 1, 1, t.margins.right))
  }

  function CarriageReturn(t: Terminal): (t': Terminal)
    requires Inv(t)
    ensures Inv(t') && Stays(t, t')
  {
    SetCursorCol(t, t.margins.left)
  }

  /** Control characters that act in any state; NUL does nothing. */
  predicate IsControl(b: CodePoint) {
    b == 0 || 8 <= b <= 15 || b == 24 || b == 26
  }

  ghost function Control(t: Terminal, b: CodePoint): (t': Terminal)
    requires Inv(t)
    ensures Inv(t') && Stays(t, t')
  {
    hide Inv;
    match b
    case 8 => Backspace(t)
    case 9 => Tab(t)
    case 10 => Linefeed(t)
    case 11 => Linefeed(t)
    case 12 => Linefeed(t)
    case 13 => CarriageReturn(t)
    case 14 => SetCharset(t, t.charset.(usesG0 := false))
    case 15 => SetCharset(t, t.charset.(usesG0 := true))
    case 24 => Cancel(t)
    case 26 => Cancel(t)
    case _ => t
  }

  /** BEL ends an operating system command. */
  function Bell(t: Terminal): (t': Terminal)
    requires Inv(t)
    ensures Inv(t') && Stays(t, t')
  {
    if t.parser.state == Osc then DoOsc(t, 7) else t
  }

  function Escape(t: Terminal): (t': Terminal)
    requires Inv(t)
    ensures Inv(t') && Stays(t, t')
  {
    if t.parser.state == DeviceControl then t
    else if t.parser.state == Osc then DoOsc(t, 27)
    else StartEscapeSequence(t)
  }

  /** processCodePoint. */
  ghost function ProcessCodePoint(t: Terminal, b: CodePoint): (t': Terminal)
    requires Inv(t) && Supported(t, b)
    ensures Inv(t') && MainKept(t, t') && (!IsReset(t, b) ==> SavedKept(t, t'))
  {
    hide Inv;
    if b == 7 then Bell(t) else if b == 27 then Escape(t) else if IsControl(b) then Control(t, b) else Dispatch(t, b)
  }

  /** CAN and SUB. */
  ghost function Cancel(t: Terminal): (t': Terminal)
    requires Inv(t)
    ensures Inv(t') && Stays(t, t')
  {
    hide Inv;
    if t.parser.state != NoEscape then EmitCodePoint(Finish(t), 127) else t
  }
}
