/** Saved cursors, character sets, protection, resets and reports: what these sequences do to the terminal, from their
    first character to their last. */
module SettingOps {
  import opened Common
  import opened WcWidth
  import opened Utf16
  import opened Row
  import P = Page
  import TextStyle
  import opened Display
  import opened Sgr
  import opened CsiArgs
  import opened TerminalState
  import opened Commands
  import opened Interpreter
  import opened Sequences
  import opened CursorOps
  import ModeOps
  import Utf8

  // ----- Saving and restoring the cursor -----

  const DECSC: CodePoint := 55
  const DECRC: CodePoint := 56

  /** What is saved for the screen that is shown. */
  function WithSaved(t: Terminal): Terminal {
    var saved := Saved(t.cursor.row, t.cursor.col, t.pen, t.modes.flags, t.charset);
    if t.screens.onAlt then t.(savedAlt := saved) else t.(savedMain := saved)
  }

  lemma SaveIsSaved(t: Terminal)
    requires Inv(t)
    ensures SaveCursor(t) == WithSaved(t)
  {
    hide Inv;
  }

  /** What was saved for it is current again: the place, unless the screen has become too small for it, pen, character
      sets, and wrap and origin modes. The other modes stay. */
  function WithRestored(t: Terminal): Terminal
    requires Inv(t)
  {
    ModeOps.TwoRows(t);
    hide Inv;
    var s := if t.screens.onAlt then t.savedAlt else t.savedMain;
    t.(cursor := Cursor(Min(s.row, Rows(t) - 1), Min(s.col, Columns(t) - 1), false), pen := s.pen, charset := s.charset,
       modes := t.modes.(flags := t.modes.flags - {AutoWrap, OriginMode} + (s.flags * {AutoWrap, OriginMode})))
  }

  lemma RestoreIsRestored(t: Terminal)
    requires Inv(t)
    ensures RestoreCursor(t) == WithRestored(t)
  {
    hide Ok, PenOk;
  }

  /** DECSC. */
  lemma SavesCursor(t: Terminal)
    requires Inv(t) && CanStart(t)
    ensures Yields(t, [ESC, DECSC], WithSaved(EscapeOver(t)))
  {
    hide Inv, Yields, SaveCursor, NoArgs;
    FeedEscSetting(t, DECSC);
    SaveIsSaved(Escaped(t));
  }

  lemma EscapedKeeps(t: Terminal)
    requires Inv(t)
    ensures Inv(Escaped(t)) && Inv(EscapeOver(t))
  {
    hide Ok;
  }

  /** DECRC. */
  lemma RestoresCursor(t: Terminal)
    requires Inv(t) && CanStart(t)
    ensures Inv(EscapeOver(t)) && Yields(t, [ESC, DECRC], WithRestored(EscapeOver(t)))
  {
    hide Inv, Yields, RestoreCursor, NoArgs;
    EscapedKeeps(t);
    FeedEscSetting(t, DECRC);
    RestoreIsRestored(Escaped(t));
  }

  const SCOSC: CodePoint := 115
  const SCORC: CodePoint := 117

  /** The same as control sequences; the first one is another one while left and right margins are enabled. */
  lemma SavesCursorToo(t: Terminal, params: seq<Param>)
    requires Inv(t) && CanStart(t) && !Has(t, LeftRightMargins)
    ensures Yields(t, ControlSequence(params, SCOSC), WithSaved(Over(t, params)))
  {
    hide Inv, Yields, SaveCursor, Meaning, ControlSequence;
    FeedMargin(t, params, SCOSC);
    SaveIsSaved(Read(t, params));
  }

  lemma RestoresCursorToo(t: Terminal, params: seq<Param>)
    requires Inv(t) && CanStart(t)
    ensures Inv(Over(t, params)) && Yields(t, ControlSequence(params, SCORC), WithRestored(Over(t, params)))
  {
    OverKeeps(t, params);
    hide Inv, Yields, RestoreCursor, Meaning, ControlSequence;
    FeedMargin(t, params, SCORC);
    RestoreIsRestored(Read(t, params));
    hide WithRestored, Read;
    RestoredOver(t, params);
  }

  /** And as the private mode 1048, set and reset. */
  lemma SavesCursorAsMode(t: Terminal)
    requires Inv(t) && CanStart(t)
    ensures Yields(t, PrivateSequence([Some(1048)], ModeOps.DECSET), WithSaved(Over(t, [Some(1048)])))
  {
    hide Inv, Yields, PrivateSequence, Meaning, SaveCursor;
    ModeOps.ReadPrivateKeeps(t, [Some(1048)]);
    var r := ReadPrivate(t, [Some(1048)]);
    SaveIsSaved(r);
    ModeOps.OneMode(t, 1048, true);
  }

  lemma RestoresCursorAsMode(t: Terminal)
    requires Inv(t) && CanStart(t)
    ensures Inv(Over(t, [Some(1048)]))
    ensures Yields(t, PrivateSequence([Some(1048)], ModeOps.DECRST), WithRestored(Over(t, [Some(1048)])))
  {
    hide Inv, Yields, PrivateSequence, Meaning, DecSetOrReset, WithRestored, ReadPrivate, Over;
    OverKeeps(t, [Some(1048)]);
    ModeRestores(ReadPrivate(t, [Some(1048)]));
    ModeOps.OneMode(t, 1048, false);
    RestoredPrivate(t, [Some(1048)]);
  }

  lemma ModeRestores(t: Terminal)
    requires Inv(t)
    ensures DecSetOrReset(t, false, 1048) == WithRestored(t) && WithRestored(t).parser == t.parser
  {
    hide Ok, PenOk;
  }

  lemma RestoredPrivate(t: Terminal, params: seq<Param>)
    requires Inv(t) && Inv(Over(t, params))
    ensures Finish(WithRestored(ReadPrivate(t, params))) == WithRestored(Over(t, params))
  {
    hide Ok, PenOk, Meaning;
  }

  lemma RestoredOver(t: Terminal, params: seq<Param>)
    requires Inv(t) && Inv(Over(t, params))
    ensures Finish(WithRestored(Read(t, params))) == WithRestored(Over(t, params))
  {
    hide Ok, PenOk, Meaning;
  }

  lemma OverKeeps(t: Terminal, params: seq<Param>)
    requires Inv(t)
    ensures Inv(Over(t, params))
  {
    MeaningIsOk(params);
    hide Ok, Meaning;
  }

  /** What was saved is what is restored, whatever happened in between, as long as the same screen is shown at the same
      size and nothing else was saved. */
  lemma RestoresWhatWasSaved(t: Terminal, t': Terminal)
    requires Inv(t) && Inv(t') && Rows(t') == Rows(t) && Columns(t') == Columns(t)
    requires ActiveSaved(t') == ActiveSaved(WithSaved(t))
    ensures var t1 := WithRestored(t');
      && t1.cursor == t.cursor.(aboutToWrap := false) && t1.pen == t.pen && t1.charset == t.charset
      && (AutoWrap in t1.modes.flags <==> AutoWrap in t.modes.flags)
      && (OriginMode in t1.modes.flags <==> OriginMode in t.modes.flags)
  {
    CursorInside(t);
    hide Inv;
  }

  // ----- Character sets -----

  /** ESC ( and ESC ) designate G0 and G1: the digit 0 stands for the line drawing set, all others for letters. */
  lemma DesignatesSet(t: Terminal, first: bool, b: CodePoint)
    requires Inv(t) && CanStart(t) && 32 < b <= 126
    ensures Yields(t, [ESC, if first then 40 else 41] + [b],
                   EscapeOver(t).(charset := if first then t.charset.(g0 := b == 48) else t.charset.(g1 := b == 48)))
  {
    hide Inv, Yields, NoArgs, EndOfSequence, DoEsc;
    var x: CodePoint := if first then 40 else 41;
    FeedEscape(t, x);
    EscapedKeeps(t);
    Designating(t, first);
    var t1 := DoEsc(Escaped(t), x);
    Designated(t1, first, b);
    LastOne(t1, b);
    YieldsConcat(t, [ESC, x], t1, [b], Finish(EndOfSequence(t1, b)));
  }

  lemma Designating(t: Terminal, first: bool)
    requires Inv(t) && Inv(Escaped(t))
    ensures DoEsc(Escaped(t), if first then 40 else 41) ==
      t.(parser := Parser(if first then SelectLeftParen else SelectRightParen, NoArgs(), t.parser.collected))
  {
    hide Inv, NoArgs;
  }

  lemma Designated(t: Terminal, first: bool, b: CodePoint)
    requires Inv(t) && t.parser.state == if first then SelectLeftParen else SelectRightParen
    ensures EndOfSequence(t, b) ==
      t.(charset := if first then t.charset.(g0 := b == 48) else t.charset.(g1 := b == 48))
  {
    hide Inv;
  }

  lemma LastOne(t: Terminal, b: CodePoint)
    requires Inv(t) && EndsSequence(t.parser.state) && t.parser.state != CsiDollar && 32 < b <= 126
    ensures Yields(t, [b], Finish(EndOfSequence(t, b)))
  {
    hide Inv, EndOfSequence, Feed, CanFeed, Supported, ProcessCodePoint;
    IntermediateFinal(t, b);
    FeedOne(t, b);
  }

  /** SO and SI select G1 and G0. */
  lemma ShiftsSet(t: Terminal, first: bool)
    requires Inv(t)
    ensures Yields(t, [if first then 15 else 14], t.(charset := t.charset.(usesG0 := first)))
  {
    hide Inv, Yields;
    FeedControl(t, if first then 15 else 14);
  }

  // ----- Protection and the keypad -----

  /** The effect after DECSCA with argument `n`. */
  function Protected(effect: bv32, n: int): bv32 {
    if n == 1 then Add(effect, TextStyle.PROTECTED)
    else if n == 0 || n == 2 then Remove(effect, TextStyle.PROTECTED)
    else effect
  }

  lemma BothRead(t: Terminal, params: seq<Param>, x: CodePoint)
    requires Inv(t) && CsiNext(x).Some?
    ensures ReadBoth(t, params, x) == t.(parser := Parser(CsiNext(x).value, Meaning(params), t.parser.collected))
    ensures Arg0(ReadBoth(t, params, x), 0) == Nth(params, 0, 0)
  {
    MeaningIsOk(params);
    hide Inv;
  }

  /** DECSCA protects what is written from then on, or not. */
  lemma SelectsProtection(t: Terminal, params: seq<Param>)
    requires Inv(t) && CanStart(t)
    ensures Yields(t, IntermediateSequence(params, 34, 113),
                   Over(t, params).(pen := t.pen.(effect := Protected(t.pen.effect, Nth(params, 0, 0)))))
  {
    hide Inv, Yields, Meaning, IntermediateSequence, Protected, EndOfSequence, ReadBoth;
    FeedIntermediate(t, params, 34, 113);
    BothRead(t, params, 34);
    ProtectsPen(ReadBoth(t, params, 34));
  }

  lemma ProtectsPen(t: Terminal)
    requires Inv(t) && t.parser.state == DoubleQuote
    ensures EndOfSequence(t, 113) == t.(pen := t.pen.(effect := Protected(t.pen.effect, Arg0(t, 0))))
  {
    hide Inv, Protected, SelectProtection;
    ProtectionSelected(t);
  }

  lemma ProtectionSelected(t: Terminal)
    requires Inv(t)
    ensures SelectProtection(t) == t.(pen := t.pen.(effect := Protected(t.pen.effect, Arg0(t, 0))))
  {
    hide Inv, PenOk, SetPen, SelectProtection, Add, Remove;
    PensOk(t);
    ProtectionCases(t);
    SetsPen(t, t.pen.(effect := Remove(t.pen.effect, TextStyle.PROTECTED)));
    SetsPen(t, t.pen.(effect := Add(t.pen.effect, TextStyle.PROTECTED)));
  }

  lemma ProtectionCases(t: Terminal)
    requires Inv(t)
    requires PenOk(t.pen.(effect := Remove(t.pen.effect, TextStyle.PROTECTED)))
    requires PenOk(t.pen.(effect := Add(t.pen.effect, TextStyle.PROTECTED)))
    ensures var n := Arg0(t, 0);
      SelectProtection(t) ==
        if n == 0 || n == 2 then SetPen(t, t.pen.(effect := Remove(t.pen.effect, TextStyle.PROTECTED)))
        else if n == 1 then SetPen(t, t.pen.(effect := Add(t.pen.effect, TextStyle.PROTECTED)))
        else t
  {
    hide Inv, PenOk, SetPen, Add, Remove;
  }

  lemma PensOk(t: Terminal)
    requires Inv(t)
    ensures PenOk(t.pen.(effect := Remove(t.pen.effect, TextStyle.PROTECTED)))
    ensures PenOk(t.pen.(effect := Add(t.pen.effect, TextStyle.PROTECTED)))
  {
    hide Ok, PenOk;
    ProtectionKeeps(t.pen);
  }

  lemma SetsPen(t: Terminal, p: Pen)
    requires Inv(t) && PenOk(p)
    ensures SetPen(t, p) == t.(pen := p)
  {
    hide Inv, PenOk;
  }

  /** DECSACE selects rectangles for DECCARA and DECRARA, or stretches of text. */
  lemma SelectsExtent(t: Terminal, params: seq<Param>)
    requires Inv(t) && CanStart(t)
    ensures var n := Nth(params, 0, 0);
      Yields(t, IntermediateSequence(params, 42, 120),
             Over(t, params).(modes := t.modes.(flags :=
               if n == 2 then t.modes.flags + {RectangularChange}
               else if n == 0 || n == 1 then t.modes.flags - {RectangularChange}
               else t.modes.flags)))
  {
    hide Inv, Yields, Meaning, IntermediateSequence, EndOfSequence, ReadBoth;
    FeedIntermediate(t, params, 42, 120);
    BothRead(t, params, 42);
    ExtentSelected(ReadBoth(t, params, 42));
  }

  lemma ExtentSelected(t: Terminal)
    requires Inv(t) && t.parser.state == ArgsAsterisk
    ensures var n := Arg0(t, 0);
      EndOfSequence(t, 120) ==
        t.(modes := t.modes.(flags :=
          if n == 2 then t.modes.flags + {RectangularChange}
          else if n == 0 || n == 1 then t.modes.flags - {RectangularChange}
          else t.modes.flags))
  {
    hide Inv;
  }

  /** DECKPAM and DECKPNM. */
  lemma SelectsKeypad(t: Terminal, application: bool)
    requires Inv(t) && CanStart(t)
    ensures Yields(t, [ESC, if application then 61 else 62],
                   EscapeOver(t).(modes := t.modes.(flags :=
                     if application then t.modes.flags + {ApplicationKeypad} else t.modes.flags - {ApplicationKeypad})))
  {
    hide Inv, Yields, NoArgs;
    FeedEscSetting(t, if application then 61 else 62);
  }
}
