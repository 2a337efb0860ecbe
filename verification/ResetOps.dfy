/** Resets, the alignment pattern, reports and strings: what these sequences do to the terminal, from their first
    character to their last. */
module ResetOps {
  import opened Common
  import opened WcWidth
  import opened Utf16
  import opened Row
  import P = Page
  import TextStyle
  import opened Display
  import opened Sgr
  import opened CsiArgs
  import opened TerminalState
  import opened Commands
  import opened Interpreter
  import opened Sequences
  import opened CursorOps
  import ModeOps
  import CellOps
  import Utf8

  // ----- Resets -----

  /** The terminal with all settings as they are in a new one. The screens, the cursor's place and the character sets
      that were saved are left alone. */
  predicate SettingsAreNew(t: Terminal, t': Terminal) {
    && t'.cursor == t.cursor.(aboutToWrap := false) && t'.margins == Margins(0, Rows(t), 0, Columns(t))
    && t'.tabStop == DefaultTabStops(Columns(t)) && t'.pen == DEFAULT_PEN && t'.charset == Charset(false, false, true)
    && t'.modes == Modes({AutoWrap, CursorEnabled}, {AutoWrap, CursorEnabled}, false)
    && t'.savedMain == Saved(0, 0, DEFAULT_PEN, {AutoWrap, CursorEnabled}, t.savedMain.charset)
    && t'.savedAlt == Saved(0, 0, DEFAULT_PEN, {AutoWrap, CursorEnabled}, t.savedAlt.charset)
    && t'.parser.state == NoEscape && t'.decoder == Utf8.GROUND
    && t'.lastEmitted == t.lastEmitted && t'.sent == t.sent && t'.screens == t.screens
  }

  lemma ResetRenews(t: Terminal)
    requires Inv(t)
    ensures SettingsAreNew(t, Reset(t))
  {
    hide Ok, PenOk, ArgsOk;
  }

  const DECSTR: CodePoint := 112

  /** DECSTR: ESC [ ! p. */
  lemma SoftResets(t: Terminal)
    requires Inv(t) && CanStart(t)
    ensures exists t' :: Yields(t, [ESC, LEFT_BRACKET] + [33] + [DECSTR], t') && SettingsAreNew(t, t')
  {
    hide Inv, Feed, CanFeed, Supported, ProcessCodePoint, Reset, NoArgs, SettingsAreNew;
    StartCsi(t);
    var t1 := Feed(t, [ESC, LEFT_BRACKET]);
    AfterBracket(t1, 33);
    FeedOne(t1, 33);
    FeedConcat(t, [ESC, LEFT_BRACKET], [33]);
    var t2 := ProcessCodePoint(t1, 33);
    SoftReset(t2);
    FeedOne(t2, DECSTR);
    FeedConcat(t, [ESC, LEFT_BRACKET] + [33], [DECSTR]);
    ResetRenews(t2);
    SameSettings(t, t2, Reset(t2));
  }

  lemma SameSettings(t: Terminal, t1: Terminal, t': Terminal)
    requires t1 == t.(parser := t1.parser) && SettingsAreNew(t1, t')
    ensures SettingsAreNew(t, t')
  {
  }

  lemma SoftReset(t: Terminal)
    requires Inv(t) && t.parser.state == Exclamation
    ensures Supported(t, DECSTR) && ProcessCodePoint(t, DECSTR) == Reset(t)
  {
    hide Inv, Reset;
  }

  const RIS: CodePoint := 99

  /** RIS resets the settings, forgets the history, blanks the screen that is shown and sends the cursor to its top left
      corner. */
  lemma Resets(t: Terminal)
    requires Inv(t) && CanStart(t)
    ensures exists t' :: Yields(t, [ESC, RIS], t') && AllNew(t, t')
  {
    hide Inv, Yields, NoArgs, FullReset, DoEsc, AllNew;
    EscapedKeeps(t);
    FeedEscape(t, RIS);
    FullResetRenews(Escaped(t));
    FinishedReset(t);
  }

  /** The terminal as if it were new, but for its history's slots and what was saved. */
  predicate AllNew(t: Terminal, t': Terminal) {
    && t'.screens.main.history == [] && t'.screens.rows == Rows(t) && t'.screens.columns == Columns(t)
    && ModeOps.BlankScreen(t'.screens, TextStyle.NORMAL)
    && SettingsAreNew(t, t'.(screens := t.screens, cursor := t.cursor.(aboutToWrap := false)))
    && t'.cursor == Cursor(0, 0, false)
  }

  lemma EscapedKeeps(t: Terminal)
    requires Inv(t)
    ensures Inv(Escaped(t))
  {
    hide Ok;
  }

  lemma FinishedReset(t: Terminal)
    requires Inv(t) && Inv(Escaped(t)) && AllNew(Escaped(t), FullReset(Escaped(t)))
    ensures AllNew(t, DoEsc(Escaped(t), RIS))
  {
    hide Inv, FullReset, NoArgs, ModeOps.BlankScreen;
  }

  lemma FullResetRenews(t: Terminal)
    requires Inv(t)
    ensures AllNew(t, FullReset(t))
  {
    ResetRenews(t);
    hide Inv, Reset, ModeOps.BlankScreen, ClearTranscript, BlockClear, SetCursorPosition;
    var t1 := ClearTranscript(Reset(t));
    Forgets(Reset(t));
    var t2 := BlockClear(t1, 0, 0, Columns(t), Rows(t));
    Blanks(t1);
    ModeOps.HomePosition(t2);
  }

  lemma Forgets(t: Terminal)
    requires Inv(t)
    ensures var t1 := ClearTranscript(t);
      && t1 == t.(screens := t1.screens) && t1.screens.main.history == []
      && t1.screens == t.screens.(main := t1.screens.main)
  {
    hide Ok, PenOk, P.Good;
  }

  lemma Blanks(t: Terminal)
    requires Inv(t)
    ensures var t1 := BlockClear(t, 0, 0, Columns(t), Rows(t));
      && t1 == t.(screens := WithActive(t.screens, Active(t1.screens)))
      && ModeOps.BlankScreen(t1.screens, CurrentStyle(t))
      && Active(t1.screens).history == Active(t.screens).history
  {
    ModeOps.EncodedStyle(t);
    ModeOps.ScreensOk(t);
    ModeOps.ClearingBlanks(t.screens, CurrentStyle(t));
    hide Ok, PenOk, Clear, ModeOps.BlankScreen;
  }

  // ----- The alignment pattern -----

  const DECALN: CodePoint := 56

  /** The screen that is shown is full of the letter E. */
  predicate FullOfE(s: Screens, st: Style) {
    && |Active(s).screen| == s.rows
    && forall i, k :: 0 <= i < s.rows && 0 <= k < s.columns ==>
      && |Active(s).screen[i].grid| == |Active(s).screen[i].style| == s.columns
      && Active(s).screen[i].grid[k] == Cell(69, []) && Active(s).screen[i].style[k] == st
  }

  lemma FillsWithE(s: Screens, st: Style)
    requires Ok(s) && TextStyle.IsEncoded(st)
    ensures Width(69) == 1 && FullOfE(Fill(s, 0, 0, s.columns, s.rows, 69, st), st)
    ensures Fill(s, 0, 0, s.columns, s.rows, 69, st) == WithActive(s, Active(Fill(s, 0, 0, s.columns, s.rows, 69, st)))
  {
    LatinIsNarrow(69);
    ActiveIsGood(s);
    hide P.Good, P.BlockSet, TextStyle.IsEncoded, Styled, WellFormed, P.FillRow;
    var p := Active(s);
    forall i | 0 <= i < s.rows
      ensures P.BlockSet(p, 0, 0, s.columns, s.rows, 69, st).screen[i] ==
        RowValue(seq(s.columns, _ => Cell(69, [])), seq(s.columns, _ => st), p.screen[i].wrap)
    {
      P.BlockSetRows(p, 0, 0, s.columns, s.rows, 69, st, i);
      P.FillWholeRow(p.screen[i], 69, st);
    }
  }

  /** DECALN: ESC # 8. */
  lemma FillsScreen(t: Terminal)
    requires Inv(t) && CanStart(t)
    ensures exists s ::
              && FullOfE(s, CurrentStyle(t)) && s == WithActive(t.screens, Active(s))
              && Yields(t, [ESC, 35] + [DECALN], EscapeOver(t).(screens := s))
  {
    ModeOps.EncodedStyle(t);
    ModeOps.ScreensOk(t);
    FillsWithE(t.screens, CurrentStyle(t));
    hide Inv, Yields, NoArgs, DoEsc, FullOfE, TextStyle.IsEncoded, Ok, Fill;
    EscapedKeeps(t);
    FeedEscape(t, 35);
    PoundFollows(t);
    var t1 := DoEsc(Escaped(t), 35);
    Aligned(t1);
    var s := Fill(t.screens, 0, 0, Columns(t), Rows(t), 69, CurrentStyle(t));
    YieldsConcat(t, [ESC, 35], t1, [DECALN], EscapeOver(t).(screens := s));
  }

  lemma PoundFollows(t: Terminal)
    requires Inv(t) && Inv(Escaped(t))
    ensures DoEsc(Escaped(t), 35) == t.(parser := Parser(Pound, NoArgs(), t.parser.collected))
  {
    hide Inv, NoArgs;
  }

  lemma Aligned(t: Terminal)
    requires Inv(t) && t.parser.state == Pound
    ensures Ok(t.screens) && TextStyle.IsEncoded(CurrentStyle(t)) && Width(69) == 1
    ensures var s := Fill(t.screens, 0, 0, Columns(t), Rows(t), 69, CurrentStyle(t));
      Yields(t, [DECALN], t.(screens := s, parser := t.parser.(state := NoEscape)))
  {
    hide Inv, Feed, CanFeed, Supported, ProcessCodePoint, Ok, Fill, TextStyle.IsEncoded, DoEscPound;
    AlignmentFills(t);
    AlignmentActs(t);
    FeedOne(t, DECALN);
  }

  lemma AlignmentActs(t: Terminal)
    requires Inv(t) && t.parser.state == Pound
    ensures Supported(t, DECALN) && ProcessCodePoint(t, DECALN) == DoEscPound(t, DECALN)
  {
    hide Inv, DoEscPound;
  }

  lemma AlignmentFills(t: Terminal)
    requires Inv(t)
    ensures Ok(t.screens) && TextStyle.IsEncoded(CurrentStyle(t)) && Width(69) == 1
    ensures DoEscPound(t, DECALN) ==
      t.(screens := Fill(t.screens, 0, 0, Columns(t), Rows(t), 69, CurrentStyle(t)),
         parser := t.parser.(state := NoEscape))
  {
    LatinIsNarrow(69);
    ModeOps.EncodedStyle(t);
    ModeOps.ScreensOk(t);
    hide Inv, Ok, Fill, TextStyle.IsEncoded;
  }

  // ----- Reports -----

  const DSR: CodePoint := 110

  /** DSR with 6 reports where the cursor is, counted from one. */
  lemma ReportsCursor(t: Terminal)
    requires Inv(t) && CanStart(t)
    ensures Yields(t, ControlSequence([Some(6)], DSR),
      Over(t, [Some(6)]).(sent := t.sent + ([ESC, LEFT_BRACKET] + Decimal(t.cursor.row + 1) + [SEMICOLON] +
                                            Decimal(t.cursor.col + 1) + [82])))
  {
    hide Inv, Yields, Meaning, ControlSequence, Decimal;
    FeedMode(t, [Some(6)], DSR);
    ArgIsNth(t, [Some(6)], 0, 0);
  }

  /** So does DECXCPR, with the number of the page, which is always the first one. */
  lemma ReportsPosition(t: Terminal)
    requires Inv(t) && CanStart(t)
    ensures Yields(t, PrivateSequence([Some(6)], DSR),
      Over(t, [Some(6)]).(sent := t.sent + ([ESC, LEFT_BRACKET, 63] + Decimal(t.cursor.row + 1) + [SEMICOLON] +
                                            Decimal(t.cursor.col + 1) + [SEMICOLON, 49, 82])))
  {
    hide Inv, Yields, Meaning, PrivateSequence, Decimal;
    FeedPrivate(t, [Some(6)], DSR);
    ModeOps.ReadPrivateKeeps(t, [Some(6)]);
    ModeOps.OneArgument(t, 6);
  }

  // ----- Strings -----

  /** What strings are made of here: no control characters. */
  predicate Plain(s: seq<CodePoint>) {
    forall i :: 0 <= i < |s| ==> 32 <= s[i]
  }

  lemma Collects(t: Terminal, c: CodePoint)
    requires Inv(t) && 32 <= c
    requires (t.parser.state == Osc && t.parser.collected < MAX_OSC_STRING_LENGTH) ||
             (t.parser.state == DeviceControl && c != 92 && t.parser.collected <= MAX_OSC_STRING_LENGTH)
    ensures Supported(t, c)
    ensures ProcessCodePoint(t, c) == t.(parser := t.parser.(collected := t.parser.collected + CharCount(c)))
  {
    hide Inv, CharCount;
  }

  /** A string is read, and only its length kept. */
  lemma {:induction false} CollectsAll(t: Terminal, s: seq<CodePoint>)
    requires Inv(t) && Plain(s) && t.parser.collected + |Units(s)| <= MAX_OSC_STRING_LENGTH
    requires t.parser.state == Osc || (t.parser.state == DeviceControl && 92 !in s)
    ensures Yields(t, s, t.(parser := t.parser.(collected := t.parser.collected + |Units(s)|)))
    decreases s
  {
    hide Inv, Yields, Supported, ProcessCodePoint, CharCount, ToChars;
    if s == [] {
      YieldsNothing(t);
    } else {
      UnitsOfHead(s);
      Collects(t, s[0]);
      OneCharacter(t, s[0]);
      var t1 := ProcessCodePoint(t, s[0]);
      CollectsAll(t1, s[1..]);
      YieldsConcat(t, [s[0]], t1, s[1..], t.(parser := t.parser.(collected := t.parser.collected + |Units(s)|)));
      assert [s[0]] + s[1..] == s;
    }
  }

  lemma UnitsOfHead(s: seq<CodePoint>)
    requires s != []
    ensures |Units(s)| == CharCount(s[0]) + |Units(s[1..])| && 0 < CharCount(s[0])
  {
  }

  lemma OneCharacter(t: Terminal, c: CodePoint)
    requires Inv(t) && Supported(t, c)
    ensures Yields(t, [c], ProcessCodePoint(t, c))
  {
    hide Inv, Supported, ProcessCodePoint, Feed, CanFeed;
    FeedOne(t, c);
  }

  /** An operating system command up to BEL leaves everything but the parser alone. */
  lemma SkipsCommand(t: Terminal, s: seq<CodePoint>)
    requires Inv(t) && CanStart(t) && Plain(s) && |Units(s)| <= MAX_OSC_STRING_LENGTH
    ensures Yields(t, [ESC, 93] + s + [7], t.(parser := Parser(NoEscape, NoArgs(), |Units(s)|)))
  {
    hide Inv, Yields, NoArgs, DoEsc, Supported, ProcessCodePoint, Units;
    EscapedKeeps(t);
    FeedEscape(t, 93);
    StringStarts(t, 93);
    var t1 := t.(parser := Parser(Osc, NoArgs(), 0));
    CollectsAll(t1, s);
    YieldsConcat(t, [ESC, 93], t1, s, t1.(parser := Parser(Osc, NoArgs(), |Units(s)|)));
    var t2 := t1.(parser := Parser(Osc, NoArgs(), |Units(s)|));
    YieldsKeeps(t1, s, t2);
    BellEnds(t2);
    OneCharacter(t2, 7);
    YieldsConcat(t, [ESC, 93] + s, t2, [7], t.(parser := Parser(NoEscape, NoArgs(), |Units(s)|)));
  }

  lemma StringStarts(t: Terminal, b: CodePoint)
    requires Inv(t) && Inv(Escaped(t)) && (b == 93 || b == 80)
    ensures DoEsc(Escaped(t), b) == t.(parser := Parser(if b == 93 then Osc else DeviceControl, NoArgs(), 0))
  {
    hide Inv, NoArgs;
  }

  lemma BellEnds(t: Terminal)
    requires Inv(t) && t.parser.state == Osc
    ensures Supported(t, 7) && ProcessCodePoint(t, 7) == t.(parser := t.parser.(state := NoEscape))
  {
    hide Inv;
  }

  /** And so does a device control string up to its backslash. */
  lemma SkipsDeviceControl(t: Terminal, s: seq<CodePoint>)
    requires Inv(t) && CanStart(t) && Plain(s) && |Units(s)| <= MAX_OSC_STRING_LENGTH && 92 !in s
    ensures Yields(t, [ESC, 80] + s + [92], t.(parser := Parser(NoEscape, NoArgs(), |Units(s)|)))
  {
    hide Inv, Yields, NoArgs, DoEsc, Supported, ProcessCodePoint, Units;
    EscapedKeeps(t);
    FeedEscape(t, 80);
    StringStarts(t, 80);
    var t1 := t.(parser := Parser(DeviceControl, NoArgs(), 0));
    CollectsAll(t1, s);
    YieldsConcat(t, [ESC, 80], t1, s, t1.(parser := Parser(DeviceControl, NoArgs(), |Units(s)|)));
    var t2 := t1.(parser := Parser(DeviceControl, NoArgs(), |Units(s)|));
    YieldsKeeps(t1, s, t2);
    BackslashEnds(t2);
    OneCharacter(t2, 92);
    YieldsConcat(t, [ESC, 80] + s, t2, [92], t.(parser := Parser(NoEscape, NoArgs(), |Units(s)|)));
  }

  lemma BackslashEnds(t: Terminal)
    requires Inv(t) && t.parser.state == DeviceControl
    ensures Supported(t, 92) && ProcessCodePoint(t, 92) == t.(parser := t.parser.(state := NoEscape))
  {
    hide Inv;
  }

  // ----- Characters that end sequences -----

  /** Outside sequences. */
  function Outside(t: Terminal): (t': Terminal)
    requires Inv(t)
    ensures Inv(t') && t' == t.(parser := t.parser.(state := NoEscape))
  {
    hide Inv;
    Finish(t)
  }

  /** CAN and SUB break a sequence off, and DEL is written in its place; outside sequences they do nothing. NUL never
      does anything. */
  lemma BreaksOff(t: Terminal, b: CodePoint)
    requires Inv(t) && b in {0, 24, 26}
    ensures b == 0 || t.parser.state == NoEscape ==> Yields(t, [b], t)
    ensures b != 0 && t.parser.state != NoEscape ==> Yields(t, [b], EmitCodePoint(Outside(t), 127))
  {
    hide Inv, Yields, EmitCodePoint;
    FeedControl(t, b);
  }
}
