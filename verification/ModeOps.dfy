/** Margins and modes: what the sequences that set them do to the terminal, from their first character to their last. */
module ModeOps {
  import opened Common
  import opened WcWidth
  import opened Utf16
  import opened Row
  import P = Page
  import TextStyle
  import Reflow
  import opened Display
  import opened Sgr
  import opened CsiArgs
  import opened TerminalState
  import opened Commands
  import opened Interpreter
  import opened Sequences
  import opened CursorOps
  import SgrOps

  // ----- Margins -----

  const DECSTBM: CodePoint := 114

  /** The scrolling region of DECSTBM: lines `from` to `to`, counted from one, cut to the screen, at least two. */
  function Region(t: Terminal, from: int, to: int): (m: Margins)
    requires Inv(t)
    ensures MarginsOk(m, Columns(t), Rows(t))
  {
    CursorInside(t);
    TwoRows(t);
    hide Inv;
    var top := Max(0, Min(from - 1, Rows(t) - 2));
    Margins(top, Max(top + 2, Min(to, Rows(t))), 0, Columns(t))
  }

  lemma TwoRows(t: Terminal)
    requires Inv(t)
    ensures 2 <= Rows(t) && 2 <= Columns(t)
  {
  }

  /** At least two lines on the screen are the region as they are; otherwise it is not what was asked for. */
  lemma RegionIsAskedExactly(t: Terminal, from: int, to: int)
    requires Inv(t) && 0 < from
    ensures Region(t, from, to).top == from - 1 && Region(t, from, to).bottom == to <==> from < to <= Rows(t)
  {
    TwoRows(t);
  }

  /** DECSTBM sets the region and sends the cursor to its first line in origin mode, or else to the first of the
      screen. */
  lemma SetsRegion(t: Terminal, params: seq<Param>)
    requires Inv(t) && CanStart(t)
    ensures var m := Region(t, Nth(params, 0, 1), Nth(params, 1, Rows(t)));
      var row := if Has(t, OriginMode) then m.top else 0;
      Yields(t, ControlSequence(params, DECSTBM), Moved(t, params, row, 0).(margins := m))
  {
    hide Inv, Yields, ControlSequence, Meaning;
    TwoRows(t);
    CursorInside(t);
    FeedMargin(t, params, DECSTBM);
    ArgIsNth(t, params, 0, 1);
    ArgIsNth(t, params, 1, Rows(t));
  }

  // ----- Modes -----

  const SM: CodePoint := 104
  const RM: CodePoint := 108

  /** SM and RM know insert mode only. */
  lemma SetsInsertMode(t: Terminal, params: seq<Param>, setting: bool)
    requires Inv(t) && CanStart(t)
    ensures Yields(t, ControlSequence(params, if setting then SM else RM),
                   if Nth(params, 0, 0) == 4 then Over(t, params).(modes := t.modes.(insert := setting))
                   else Over(t, params))
  {
    hide Inv, Yields, ControlSequence, Meaning;
    FeedMode(t, params, if setting then SM else RM);
    ArgIsNth(t, params, 0, 0);
  }

  /** The numbers of the private modes that are flags. */
  const FLAGS: map<nat, Flag> :=
    map[1 := ApplicationCursorKeys, 5 := ReverseVideo, 6 := OriginMode, 7 := AutoWrap, 25 := CursorEnabled,
        66 := ApplicationKeypad, 69 := LeftRightMargins, 1000 := MousePressRelease, 1002 := MouseButtonEvent,
        1004 := SendFocusEvents, 1006 := MouseSgr, 2004 := BracketedPaste]

  /** The flags after a mode was set or reset: setting one of the two mouse modes resets the other one. */
  function FlagsAfter(flags: set<Flag>, f: Flag, setting: bool): set<Flag> {
    if !setting then flags - {f}
    else if f == MousePressRelease then flags - {MouseButtonEvent} + {f}
    else if f == MouseButtonEvent then flags - {MousePressRelease} + {f}
    else flags + {f}
  }

  lemma FlagTable(bit: nat)
    ensures bit in FLAGS <==> ModeFlag(bit).Some?
    ensures bit in FLAGS ==> ModeFlag(bit).value == FLAGS[bit]
  {
  }

  lemma FlagsAreWithFlag(flags: set<Flag>, f: Flag, setting: bool)
    ensures WithFlag(flags, f, setting) == FlagsAfter(flags, f, setting)
  {
  }

  const DECSET: CodePoint := 104
  const DECRST: CodePoint := 108

  lemma OneMode(t: Terminal, bit: nat, setting: bool)
    requires Inv(t) && CanStart(t)
    requires var r := ReadPrivate(t, [Some(bit)]); DecSetOrReset(r, setting, bit).parser == r.parser
    ensures Yields(t, PrivateSequence([Some(bit)], if setting then DECSET else DECRST),
                   Finish(DecSetOrReset(ReadPrivate(t, [Some(bit)]), setting, bit)))
  {
    hide Inv, Yields, PrivateSequence, Meaning, DecSetOrReset, DecSetAll;
    FeedPrivate(t, [Some(bit)], if setting then DECSET else DECRST);
    var r := ReadPrivate(t, [Some(bit)]);
    OneArgument(t, bit);
    DecSetAllUnfold(r, setting, 0);
    DecSetAllEnds(DecSetOrReset(r, setting, bit), setting, 1);
  }

  lemma OneArgument(t: Terminal, bit: nat)
    requires Inv(t)
    ensures var a := ReadPrivate(t, [Some(bit)]).parser.args; ArgsOk(a) && a.values[0] == bit && LastArg(a) == 0
  {
    MeaningIsOk([Some(bit)]);
    hide Inv;
  }

  /** The terminal after a mode that is a flag was set or reset: setting origin mode also sends the cursor to the first
      line of the region. */
  function WithMode(t: Terminal, f: Flag, setting: bool): Terminal {
    var t1 := t.(modes := t.modes.(flags := FlagsAfter(t.modes.flags, f, setting)));
    if f == OriginMode && setting then t1.(cursor := Cursor(t.margins.top, 0, false)) else t1
  }

  lemma FlagModes(t: Terminal, bit: nat, setting: bool)
    requires Inv(t) && bit in FLAGS
    ensures DecSetOrReset(t, setting, bit) == WithMode(t, FLAGS[bit], setting)
  {
    hide Inv, DecSetOrReset, ModeEffect;
    FlagTable(bit);
    CursorInside(t);
    FlagsAreWithFlag(t.modes.flags, FLAGS[bit], setting);
    FlagThenEffect(t, bit, setting);
    FlagEffect(SetFlag(t, FLAGS[bit], setting), bit, setting);
  }

  lemma FlagThenEffect(t: Terminal, bit: nat, setting: bool)
    requires Inv(t) && ModeFlag(bit).Some?
    ensures var t1 := SetFlag(t, ModeFlag(bit).value, setting);
      && t1 == t.(modes := t1.modes)
      && t1.modes == t.modes.(flags := WithFlag(t.modes.flags, ModeFlag(bit).value, setting))
      && DecSetOrReset(t, setting, bit) == ModeEffect(t1, setting, bit)
  {
    hide Inv, ModeFlag, ModeEffect, WithFlag;
  }

  lemma HomePosition(t: Terminal)
    requires Inv(t)
    ensures SetCursorPosition(t, 0, 0) ==
      t.(cursor := Cursor(if Has(t, OriginMode) then t.margins.top else 0, 0, false))
  {
    hide Ok;
  }

  lemma FullWidthStays(t: Terminal)
    requires Inv(t)
    ensures ResetLeftRight(t) == t
  {
    hide Ok;
  }

  lemma FlagEffect(t: Terminal, bit: nat, setting: bool)
    requires Inv(t) && bit in FLAGS
    ensures ModeEffect(t, setting, bit) ==
      if bit == 6 && setting then t.(cursor := Cursor(if Has(t, OriginMode) then t.margins.top else 0, 0, false)) else t
  {
    hide Inv, UseAlternate, ColumnMode, SaveCursor, RestoreCursor, SetCursorPosition, ResetLeftRight;
    HomePosition(t);
    FullWidthStays(t);
  }

  /** DECSET and DECRST of a mode that is a flag. */
  lemma SetsFlag(t: Terminal, bit: nat, setting: bool)
    requires Inv(t) && CanStart(t) && bit in FLAGS
    ensures Yields(t, PrivateSequence([Some(bit)], if setting then DECSET else DECRST),
                   WithMode(Over(t, [Some(bit)]), FLAGS[bit], setting))
  {
    hide Inv, Yields, PrivateSequence, Meaning, DecSetOrReset;
    FlagModes(ReadPrivate(t, [Some(bit)]), bit, setting);
    OneMode(t, bit, setting);
    ReadPrivateKeeps(t, [Some(bit)]);
  }

  lemma ReadPrivateKeeps(t: Terminal, params: seq<Param>)
    requires Inv(t)
    ensures ReadPrivate(t, params) == t.(parser := Parser(CsiQuestionMark, Meaning(params), t.parser.collected))
  {
    hide Inv, Meaning;
  }

  /** One mode after the other. */
  function WithModes(t: Terminal, bits: seq<nat>, setting: bool): Terminal
    requires forall i :: 0 <= i < |bits| ==> bits[i] in FLAGS
    decreases |bits|
  {
    if bits == [] then t else WithModes(WithMode(t, FLAGS[bits[0]], setting), bits[1..], setting)
  }

  lemma {:induction false} AllModes(t: Terminal, bits: seq<nat>, setting: bool, i: nat)
    requires Inv(t) && 0 < |bits| && i <= |bits| && LastArg(t.parser.args) == |bits| - 1
    requires forall k :: 0 <= k < |bits| ==> bits[k] in FLAGS && t.parser.args.values[k] == bits[k]
    ensures DecSetAll(t, setting, i) == WithModes(t, bits[i..], setting)
    decreases |bits| - i
  {
    hide Inv, DecSetOrReset, DecSetAll;
    if i < |bits| {
      DecSetAllUnfold(t, setting, i);
      FlagModes(t, bits[i], setting);
      var t1 := DecSetOrReset(t, setting, bits[i]);
      assert bits[i..][0] == bits[i] && bits[i..][1..] == bits[i + 1..];
      AllModes(t1, bits, setting, i + 1);
    } else {
      DecSetAllEnds(t, setting, i);
    }
  }

  /** A list of modes that are flags is set or reset in order. */
  lemma SetsFlags(t: Terminal, bits: seq<nat>, setting: bool)
    requires Inv(t) && CanStart(t) && 0 < |bits| <= MAX_ESCAPE_PARAMETERS
    requires forall k :: 0 <= k < |bits| ==> bits[k] in FLAGS
    ensures Yields(t, PrivateSequence(SgrOps.Given(bits), if setting then DECSET else DECRST),
                   WithModes(Over(t, SgrOps.Given(bits)), bits, setting))
  {
    hide Inv, Yields, PrivateSequence, Meaning, DecSetAll;
    var params := SgrOps.Given(bits);
    FeedPrivate(t, params, if setting then DECSET else DECRST);
    ReadPrivateKeeps(t, params);
    SgrOps.GivenValues(bits);
    var r := ReadPrivate(t, params);
    AllModes(r, bits, setting, 0);
    assert bits[0..] == bits;
    hide WithModes, ReadPrivate;
    SameModes(r, r.parser, bits, setting);
    assert Over(t, params) == r.(parser := Over(t, params).parser);
    SameModes(r, Over(t, params).parser, bits, setting);
  }

  lemma {:induction false} SameModes(t: Terminal, p: Parser, bits: seq<nat>, setting: bool)
    requires forall k :: 0 <= k < |bits| ==> bits[k] in FLAGS
    ensures WithModes(t.(parser := p), bits, setting) == WithModes(t, bits, setting).(parser := p)
    decreases |bits|
  {
    if bits != [] {
      SameModes(WithMode(t, FLAGS[bits[0]], setting), p, bits[1..], setting);
    }
  }

  // ----- Saving and restoring modes -----

  const XTSAVE: CodePoint := 115
  const XTRESTORE: CodePoint := 114

  /** Saving a mode that is a flag. The source saves it as set, whatever it is. */
  lemma SavesMode(t: Terminal, bit: nat)
    requires Inv(t) && CanStart(t) && bit in FLAGS
    ensures Yields(t, PrivateSequence([Some(bit)], XTSAVE),
                   Over(t, [Some(bit)]).(modes := t.modes.(savedFlags := t.modes.savedFlags + {FLAGS[bit]})))
  {
    hide Inv, Yields, PrivateSequence, Meaning, SaveOrRestoreAll;
    FeedPrivate(t, [Some(bit)], XTSAVE);
    var r := ReadPrivate(t, [Some(bit)]);
    OneArgument(t, bit);
    FlagTable(bit);
    ReadPrivateKeeps(t, [Some(bit)]);
    SavedMode(r, bit);
    SaveOrRestoreAllUnfold(r, true, 0);
    SaveOrRestoreAllEnds(SaveMode(r, bit), true, 1);
  }

  lemma SavedMode(t: Terminal, bit: nat)
    requires Inv(t) && bit in FLAGS
    ensures SaveMode(t, bit) == t.(modes := t.modes.(savedFlags := t.modes.savedFlags + {FLAGS[bit]}))
  {
    hide Ok;
    FlagTable(bit);
  }

  /** Restoring a mode sets it if it was ever saved since the last reset, or set by that, and else resets it. */
  lemma RestoresMode(t: Terminal, bit: nat)
    requires Inv(t) && CanStart(t) && bit in FLAGS
    ensures Yields(t, PrivateSequence([Some(bit)], XTRESTORE),
                   WithMode(Over(t, [Some(bit)]), FLAGS[bit], FLAGS[bit] in t.modes.savedFlags))
  {
    hide Inv, Yields, PrivateSequence, Meaning, SaveOrRestoreAll, DecSetOrReset;
    FeedPrivate(t, [Some(bit)], XTRESTORE);
    var r := ReadPrivate(t, [Some(bit)]);
    OneArgument(t, bit);
    FlagTable(bit);
    ReadPrivateKeeps(t, [Some(bit)]);
    FlagModes(r, bit, FLAGS[bit] in r.modes.savedFlags);
    SaveOrRestoreAllUnfold(r, false, 0);
    SaveOrRestoreAllEnds(RestoreMode(r, bit), false, 1);
  }

  /** So saving a mode and restoring it leaves the modes as they were exactly when it was set (and the other mouse mode,
      for one of these, was not). */
  lemma SaveAndRestoreExactly(t: Terminal, bit: nat)
    requires Inv(t) && CanStart(t) && bit in FLAGS
    ensures var f, t' := FLAGS[bit], SavedAndRestored(t, bit);
      && Yields(t, PrivateSequence([Some(bit)], XTSAVE) + PrivateSequence([Some(bit)], XTRESTORE), t')
      && (t'.modes.flags == t.modes.flags <==>
          && f in t.modes.flags && (f == MousePressRelease ==> MouseButtonEvent !in t.modes.flags)
          && (f == MouseButtonEvent ==> MousePressRelease !in t.modes.flags))
  {
    hide Inv, Yields, PrivateSequence, Meaning;
    SavesMode(t, bit);
    var t1 := Over(t, [Some(bit)]).(modes := t.modes.(savedFlags := t.modes.savedFlags + {FLAGS[bit]}));
    YieldsKeeps(t, PrivateSequence([Some(bit)], XTSAVE), t1);
    RestoresMode(t1, bit);
    YieldsConcat(t, PrivateSequence([Some(bit)], XTSAVE), t1, PrivateSequence([Some(bit)], XTRESTORE),
                 SavedAndRestored(t, bit));
    SetsNothingExactly(t.modes.flags, FLAGS[bit]);
  }

  function SavedAndRestored(t: Terminal, bit: nat): Terminal
    requires bit in FLAGS
  {
    var t1 := Over(t, [Some(bit)]).(modes := t.modes.(savedFlags := t.modes.savedFlags + {FLAGS[bit]}));
    WithMode(Over(t1, [Some(bit)]), FLAGS[bit], true)
  }

  lemma SetsNothingExactly(flags: set<Flag>, f: Flag)
    ensures FlagsAfter(flags, f, true) == flags <==>
      && f in flags && (f == MousePressRelease ==> MouseButtonEvent !in flags)
      && (f == MouseButtonEvent ==> MousePressRelease !in flags)
  {
  }

  /** On a new terminal, saving reverse video and restoring it turns it on. */
  lemma SavingTurnsOn(columns: nat, total: nat, rows: nat)
    requires 2 <= columns && 2 <= rows <= total
    ensures var t := New(columns, total, rows);
      && ReverseVideo !in t.modes.flags && ReverseVideo in SavedAndRestored(t, 5).modes.flags
      && Yields(t, PrivateSequence([Some(5)], XTSAVE) + PrivateSequence([Some(5)], XTRESTORE), SavedAndRestored(t, 5))
  {
    hide Inv, Yields, PrivateSequence, Meaning;
    SaveAndRestoreExactly(New(columns, total, rows), 5);
  }

  // ----- The alternate screen -----

  /** The screen that is shown is blank. */
  predicate BlankScreen(s: Screens, st: Style) {
    && |Active(s).screen| == s.rows
    && forall i :: 0 <= i < s.rows ==>
      Active(s).screen[i].grid == Blanks(s.columns) && Active(s).screen[i].style == seq(s.columns, _ => st)
  }

  lemma ClearingBlanks(s: Screens, st: Style)
    requires Ok(s) && TextStyle.IsEncoded(st)
    ensures BlankScreen(Clear(s, 0, 0, s.columns, s.rows, st), st)
    ensures Clear(s, 0, 0, s.columns, s.rows, st) == WithActive(s, Active(Clear(s, 0, 0, s.columns, s.rows, st)))
    ensures Active(Clear(s, 0, 0, s.columns, s.rows, st)).history == Active(s).history
  {
    LatinIsNarrow(SPACE);
    ActiveIsGood(s);
    P.BlankScreen(Active(s), st);
    hide P.Good, P.BlockSet, TextStyle.IsEncoded, Styled;
  }

  /** The alternate screen is blank when it is shown, in the current style; the cursor stays where it is unless the
      screen still had another size, and is saved for the main screen. */
  lemma EntersBlank(t: Terminal)
    requires Inv(t) && !t.screens.onAlt
    ensures var t1 := EnterAlternate(t);
      && t1.screens.onAlt && t1.screens.main == t.screens.main && BlankScreen(t1.screens, CurrentStyle(t))
      && t1 == t.(screens := t1.screens, cursor := t1.cursor,
                  savedMain := Saved(t.cursor.row, t.cursor.col, t.pen, t.modes.flags, t.charset))
      && (Display.Fits(t.screens.alt, Columns(t), Rows(t)) ==> t1.cursor == t.cursor)
  {
    EncodedStyle(t);
    hide Ok, SavedOk, TextStyle.IsEncoded, SwitchTo, Clear, BlankScreen;
    CursorInside(t);
    var t0 := ToAlternate(SaveCursor(t));
    AlternateShown(t);
    ScreensOk(t0);
    ClearingBlanks(t0.screens, CurrentStyle(t));
  }

  lemma EncodedStyle(t: Terminal)
    requires Inv(t)
    ensures TextStyle.IsEncoded(CurrentStyle(t))
  {
    hide TextStyle.IsEncoded;
  }

  lemma ScreensOk(t: Terminal)
    requires Inv(t)
    ensures Ok(t.screens)
  {
  }

  lemma AlternateShown(t: Terminal)
    requires Inv(t) && !t.screens.onAlt
    ensures var t0 := ToAlternate(SaveCursor(t));
      && t0.screens.onAlt && t0.screens.main == t.screens.main && t0.pen == t.pen
      && t0.screens == t.screens.(alt := t0.screens.alt, onAlt := true)
      && t0 == t.(screens := t0.screens, cursor := t0.cursor,
                  savedMain := Saved(t.cursor.row, t.cursor.col, t.pen, t.modes.flags, t.charset))
      && (Display.Fits(t.screens.alt, Columns(t), Rows(t)) ==> t0.cursor == t.cursor)
  {
    hide P.Good, TextStyle.IsEncoded, Styled, Reflow.Resize;
  }

  lemma ShowsOther(t: Terminal, bit: nat, setting: bool)
    requires Inv(t) && bit in {47, 1047, 1049}
    ensures DecSetOrReset(t, setting, bit) ==
      if setting == t.screens.onAlt then t else if setting then EnterAlternate(t) else LeaveAlternate(t)
  {
    hide Inv, EnterAlternate, LeaveAlternate;
    assert bit !in FLAGS;
    FlagTable(bit);
  }

  /** DECSET of 47, 1047 and 1049 shows the alternate screen, blank, if it is not shown already. */
  lemma ShowsAlternate(t: Terminal, bit: nat)
    requires Inv(t) && CanStart(t) && bit in {47, 1047, 1049} && !t.screens.onAlt
    ensures var t1 := Finish(EnterAlternate(ReadPrivate(t, [Some(bit)])));
      && Yields(t, PrivateSequence([Some(bit)], DECSET), t1)
      && t1.screens.onAlt && t1.screens.main == t.screens.main && BlankScreen(t1.screens, CurrentStyle(t))
      && t1.savedMain == Saved(t.cursor.row, t.cursor.col, t.pen, t.modes.flags, t.charset)
      && (Display.Fits(t.screens.alt, Columns(t), Rows(t)) ==> t1.cursor == t.cursor)
  {
    hide Inv, Yields, PrivateSequence, Meaning, DecSetOrReset, EnterAlternate, BlankScreen;
    ReadPrivateKeeps(t, [Some(bit)]);
    var r := ReadPrivate(t, [Some(bit)]);
    ShowsOther(r, bit, true);
    EntersBlank(r);
    OneMode(t, bit, true);
  }

  /** DECRST of these shows the main screen, as `AlternateScreen` says. */
  lemma ShowsMain(t: Terminal, bit: nat)
    requires Inv(t) && CanStart(t) && bit in {47, 1047, 1049} && t.screens.onAlt
    ensures Yields(t, PrivateSequence([Some(bit)], DECRST), Finish(LeaveAlternate(ReadPrivate(t, [Some(bit)]))))
  {
    hide Inv, Yields, PrivateSequence, Meaning, DecSetOrReset, LeaveAlternate;
    ReadPrivateKeeps(t, [Some(bit)]);
    var r := ReadPrivate(t, [Some(bit)]);
    ShowsOther(r, bit, false);
    LeavingKeepsParser(r);
    OneMode(t, bit, false);
  }

  lemma LeavingKeepsParser(t: Terminal)
    requires Inv(t) && t.screens.onAlt
    ensures LeaveAlternate(t).parser == t.parser
  {
    hide P.Good, TextStyle.IsEncoded, Styled, Reflow.Resize;
  }

  /** They do nothing when that screen is shown already. */
  lemma ShowsAlready(t: Terminal, bit: nat, setting: bool)
    requires Inv(t) && CanStart(t) && bit in {47, 1047, 1049} && setting == t.screens.onAlt
    ensures Yields(t, PrivateSequence([Some(bit)], if setting then DECSET else DECRST), Over(t, [Some(bit)]))
  {
    hide Inv, Yields, PrivateSequence, Meaning, DecSetOrReset;
    ReadPrivateKeeps(t, [Some(bit)]);
    ShowsOther(ReadPrivate(t, [Some(bit)]), bit, setting);
    OneMode(t, bit, setting);
  }

  /** DECCOLM clears the screen, opens the margins and sends the cursor home, set or reset. */
  lemma ChangesColumnMode(t: Terminal, setting: bool)
    requires Inv(t) && CanStart(t)
    ensures var s := Clear(t.screens, 0, 0, Columns(t), Rows(t), CurrentStyle(t));
      && BlankScreen(s, CurrentStyle(t))
      && Yields(t, PrivateSequence([Some(3)], if setting then DECSET else DECRST),
                Over(t, [Some(3)]).(screens := s, margins := Margins(0, Rows(t), 0, Columns(t)),
                                    cursor := Cursor(0, 0, false),
                                    modes := t.modes.(flags := t.modes.flags - {LeftRightMargins})))
  {
    EncodedStyle(t);
    ScreensOk(t);
    ClearingBlanks(t.screens, CurrentStyle(t));
    hide Inv, Yields, PrivateSequence, Meaning, DecSetOrReset, BlankScreen, Clear, Ok, TextStyle.IsEncoded;
    ReadPrivateKeeps(t, [Some(3)]);
    var r := ReadPrivate(t, [Some(3)]);
    ColumnModeClears(r);
    ThirdMode(r, setting);
    OneMode(t, 3, setting);
  }

  lemma ThirdMode(t: Terminal, setting: bool)
    requires Inv(t)
    ensures DecSetOrReset(t, setting, 3) == ColumnMode(t)
  {
    hide Inv, ColumnMode;
    FlagTable(3);
  }

  lemma ColumnModeClears(t: Terminal)
    requires Inv(t)
    ensures Ok(t.screens) && TextStyle.IsEncoded(CurrentStyle(t))
    ensures ColumnMode(t) ==
      t.(screens := Clear(t.screens, 0, 0, Columns(t), Rows(t), CurrentStyle(t)),
         margins := Margins(0, Rows(t), 0, Columns(t)), cursor := Cursor(0, 0, false),
         modes := t.modes.(flags := t.modes.flags - {LeftRightMargins}))
  {
    EncodedStyle(t);
    hide Ok, Clear, TextStyle.IsEncoded;
  }
}
