/** Control sequences from their first character to their last. */
module Sequences {
  import opened Common
  import opened Utf16
  import opened Row
  import P = Page
  import opened Display
  import opened CsiArgs
  import opened TerminalState
  import opened Commands
  import opened Interpreter

  const ESC: CodePoint := 27
  const LEFT_BRACKET: CodePoint := 91
  const CUP: CodePoint := 72

  ghost predicate CanFeed(t: Terminal, s: seq<CodePoint>)
    requires Inv(t)
    decreases s
  {
    s == [] || (Supported(t, s[0]) && CanFeed(ProcessCodePoint(t, s[0]), s[1..]))
  }

  /** The terminal after a list of code points. */
  ghost function Feed(t: Terminal, s: seq<CodePoint>): (t': Terminal)
    requires Inv(t) && CanFeed(t, s)
    ensures Inv(t')
    decreases s
  {
    if s == [] then t else Feed(ProcessCodePoint(t, s[0]), s[1..])
  }

  lemma {:induction false} FeedConcat(t: Terminal, a: seq<CodePoint>, b: seq<CodePoint>)
    requires Inv(t) && CanFeed(t, a) && CanFeed(Feed(t, a), b)
    ensures CanFeed(t, a + b) && Feed(t, a + b) == Feed(Feed(t, a), b)
    decreases a
  {
    hide Inv, ProcessCodePoint, Supported;
    if a == [] {
      assert a + b == b;
    } else {
      assert (a + b)[1..] == a[1..] + b;
      FeedConcat(ProcessCodePoint(t, a[0]), a[1..], b);
    }
  }

  /** Where an escape sequence can start: not inside a string. */
  predicate CanStart(t: Terminal) {
    t.parser.state != DeviceControl && t.parser.state != Osc
  }

  lemma StartCsi(t: Terminal)
    requires Inv(t) && CanStart(t)
    ensures CanFeed(t, [ESC, LEFT_BRACKET])
    ensures Feed(t, [ESC, LEFT_BRACKET]) == t.(parser := Parser(Csi, NoArgs(), t.parser.collected))
  {
    hide Inv, ProcessCodePoint, Feed, CanFeed, Supported;
    EscStarts(t);
    var t1 := ProcessCodePoint(t, ESC);
    EscBracket(t1);
    FeedOne(t, ESC);
    FeedOne(t1, LEFT_BRACKET);
    FeedConcat(t, [ESC], [LEFT_BRACKET]);
    assert [ESC] + [LEFT_BRACKET] == [ESC, LEFT_BRACKET];
  }

  lemma EscStarts(t: Terminal)
    requires Inv(t) && CanStart(t)
    ensures Supported(t, ESC)
    ensures ProcessCodePoint(t, ESC) == t.(parser := Parser(Esc, NoArgs(), t.parser.collected))
  {
    hide Inv;
  }

  lemma EscBracket(t: Terminal)
    requires Inv(t) && t.parser.state == Esc
    ensures Supported(t, LEFT_BRACKET)
    ensures ProcessCodePoint(t, LEFT_BRACKET) == t.(parser := t.parser.(state := Csi))
  {
    hide Inv;
  }

  lemma FeedOne(t: Terminal, b: CodePoint)
    requires Inv(t) && Supported(t, b)
    ensures CanFeed(t, [b]) && Feed(t, [b]) == ProcessCodePoint(t, b)
  {
    hide Inv, ProcessCodePoint, Supported;
    assert [b][1..] == [];
  }

  lemma CsiArgChar(t: Terminal, b: CodePoint)
    requires Inv(t) && t.parser.state in {Csi, CsiQuestionMark} && IsArgChar(b)
    ensures Supported(t, b)
    ensures ProcessCodePoint(t, b) == t.(parser := t.parser.(args := ParseArg(t.parser.args, b)))
  {
    hide Inv;
  }

  lemma {:induction false} FeedArgs(t: Terminal, s: seq<CodePoint>)
    requires Inv(t) && t.parser.state in {Csi, CsiQuestionMark} && forall i :: 0 <= i < |s| ==> IsArgChar(s[i])
    ensures CanFeed(t, s) && Feed(t, s) == t.(parser := t.parser.(args := ParseAll(t.parser.args, s)))
    decreases s
  {
    assert ArgsOk(t.parser.args);
    hide Inv, ProcessCodePoint, Supported;
    if s != [] {
      CsiArgChar(t, s[0]);
      FeedArgs(ProcessCodePoint(t, s[0]), s[1..]);
    }
  }

  /** CSI parameters round-trip: a list of optional numbers printed in decimal after ESC [ is parsed back exactly, and
      nothing else happens. Of more than sixteen the first sixteen are kept. */
  lemma ParametersRoundTrip(t: Terminal, params: seq<Param>)
    requires Inv(t) && CanStart(t)
    ensures CanFeed(t, [ESC, LEFT_BRACKET] + Print(params))
    ensures Feed(t, [ESC, LEFT_BRACKET] + Print(params)) ==
      t.(parser := Parser(Csi, Meaning(params), t.parser.collected))
  {
    hide Inv, Feed, CanFeed;
    StartCsi(t);
    FeedArgs(Feed(t, [ESC, LEFT_BRACKET]), Print(params));
    ParsePrinted(params);
    FeedConcat(t, [ESC, LEFT_BRACKET], Print(params));
  }

  /** A cursor report sent back as CUP, without its last character R. */
  function AsPosition(report: seq<CodePoint>): seq<CodePoint>
    requires report != []
  {
    report[..|report| - 1] + [CUP]
  }

  lemma ReportIsPrinted(c: Cursor)
    ensures CursorReport(c) != []
    ensures AsPosition(CursorReport(c)) == [ESC, LEFT_BRACKET] + Print([Some(c.row + 1), Some(c.col + 1)]) + [CUP]
  {
    var params := [Some(c.row + 1), Some(c.col + 1)];
    assert params[..1] == [Some(c.row + 1)];
    assert Print(params) == Decimal(c.row + 1) + [SEMICOLON] + Decimal(c.col + 1);
  }

  lemma PositionsCursor(t: Terminal, row: nat, col: nat)
    requires Inv(t) && t.parser.state == Csi && !Has(t, OriginMode) && row < Rows(t) && col < Columns(t)
    requires t.parser.args.values[0] == row + 1 && t.parser.args.values[1] == col + 1
    ensures Supported(t, CUP) && ProcessCodePoint(t, CUP).cursor == Cursor(row, col, false)
  {
    hide Inv;
    assert Interpreter.PositionCommand(t, CUP) == SetCursorPosition(t, col, row);
  }

  /** With origin mode off, a cursor report sent back as a position puts the cursor where it was when it was reported,
      whatever happened in between. */
  lemma ReportedPositionRestores(c: Cursor, t: Terminal)
    requires Inv(t) && CanStart(t) && !Has(t, OriginMode) && c.row < Rows(t) && c.col < Columns(t)
    ensures CursorReport(c) != [] && CanFeed(t, AsPosition(CursorReport(c)))
    ensures Feed(t, AsPosition(CursorReport(c))).cursor == Cursor(c.row, c.col, false)
  {
    var params := [Some(c.row + 1), Some(c.col + 1)];
    ReportIsPrinted(c);
    ParametersRoundTrip(t, params);
    var t1 := t.(parser := Parser(Csi, Meaning(params), t.parser.collected));
    assert Meaning(params).values[0] == c.row + 1 && Meaning(params).values[1] == c.col + 1;
    hide Inv, Feed, CanFeed, Meaning, Print, CursorReport, AsPosition;
    PositionsCursor(t1, c.row, c.col);
    FeedOne(t1, CUP);
    FeedConcat(t, [ESC, LEFT_BRACKET] + Print(params), [CUP]);
  }

  // ----- Whole control sequences -----

  /** ESC [, the parameters in decimal, and the final character. */
  function ControlSequence(params: seq<Param>, b: CodePoint): seq<CodePoint> {
    [ESC, LEFT_BRACKET] + Print(params) + [b]
  }

  predicate IsFinal(b: CodePoint) {
    64 <= b <= 126
  }

  /** The terminal when the parameters have been read. */
  function Read(t: Terminal, params: seq<Param>): (t': Terminal)
    requires Inv(t)
    ensures Inv(t')
  {
    MeaningIsOk(params);
    hide Ok;
    t.(parser := Parser(Csi, Meaning(params), t.parser.collected))
  }

  lemma MeaningIsOk(params: seq<Param>)
    ensures ArgsOk(Meaning(params))
  {
  }

  /** The terminal when the sequence is over, if it did nothing. */
  function Over(t: Terminal, params: seq<Param>): Terminal {
    t.(parser := Parser(NoEscape, Meaning(params), t.parser.collected))
  }

  /** The characters `s` can be read, and take the terminal to `t'`. */
  ghost predicate Yields(t: Terminal, s: seq<CodePoint>, t': Terminal) {
    Inv(t) && CanFeed(t, s) && Feed(t, s) == t'
  }

  lemma YieldsNothing(t: Terminal)
    requires Inv(t)
    ensures Yields(t, [], t)
  {
    hide Inv, ProcessCodePoint, Supported;
  }

  lemma YieldsConcat(t: Terminal, a: seq<CodePoint>, t1: Terminal, b: seq<CodePoint>, t2: Terminal)
    requires Yields(t, a, t1) && Yields(t1, b, t2)
    ensures Yields(t, a + b, t2)
  {
    hide Inv, Feed, CanFeed;
    FeedConcat(t, a, b);
  }

  /** A control sequence does what its command does. */
  lemma FeedSequence(t: Terminal, params: seq<Param>, b: CodePoint)
    requires Inv(t) && CanStart(t) && IsFinal(b) && !(b == 115 && Has(t, LeftRightMargins))
    ensures Yields(t, ControlSequence(params, b), Finish(CsiCommand(Read(t, params), b)))
  {
    hide Inv, Feed, CanFeed, Meaning, Print, CsiCommand, Supported, ProcessCodePoint;
    ParametersRoundTrip(t, params);
    LastCharacter(Read(t, params), b);
    FeedOne(Read(t, params), b);
    FeedConcat(t, [ESC, LEFT_BRACKET] + Print(params), [b]);
  }

  lemma LastCharacter(t: Terminal, b: CodePoint)
    requires Inv(t) && t.parser.state == Csi && IsFinal(b) && !(b == 115 && Has(t, LeftRightMargins))
    ensures Supported(t, b) && ProcessCodePoint(t, b) == Finish(CsiCommand(t, b))
  {
    hide Inv, CsiCommand;
  }

  /** The parameter at `i`, which stands for `other` when it is missing or zero. */
  function Nth(params: seq<Param>, i: nat, other: int): int {
    if i < |params| && params[i].Some? && params[i].value > 0 then params[i].value else other
  }

  lemma ArgIsNth(t: Terminal, params: seq<Param>, i: nat, other: int)
    requires Inv(t) && i < MAX_ESCAPE_PARAMETERS
    ensures ArgsOk(Read(t, params).parser.args)
    ensures GetArg(Read(t, params).parser.args, i, other, true) == Nth(params, i, other)
  {
    MeaningIsOk(params);
    hide Inv;
  }

  /** The terminal after ESC. */
  function Escaped(t: Terminal): Terminal {
    t.(parser := Parser(Esc, NoArgs(), t.parser.collected))
  }

  /** The terminal when such a sequence is over, if it did nothing. */
  function EscapeOver(t: Terminal): Terminal {
    t.(parser := Parser(NoEscape, NoArgs(), t.parser.collected))
  }

  /** ESC and one character. */
  lemma FeedEscape(t: Terminal, b: CodePoint)
    requires Inv(t) && CanStart(t) && 32 < b <= 126
    ensures Inv(Escaped(t)) && Yields(t, [ESC, b], DoEsc(Escaped(t), b))
  {
    hide Inv, Feed, CanFeed, DoEsc, Supported, ProcessCodePoint;
    EscStarts(t);
    var t1 := ProcessCodePoint(t, ESC);
    AfterEsc(t1, b);
    FeedOne(t, ESC);
    FeedOne(t1, b);
    FeedConcat(t, [ESC], [b]);
    assert [ESC] + [b] == [ESC, b];
  }

  lemma AfterEsc(t: Terminal, b: CodePoint)
    requires Inv(t) && t.parser.state == Esc && 32 < b <= 126
    ensures Supported(t, b) && ProcessCodePoint(t, b) == DoEsc(t, b)
  {
    hide Inv, DoEsc;
  }

  /** A control character acts wherever it stands. */
  lemma FeedControl(t: Terminal, b: CodePoint)
    requires Inv(t) && IsControl(b)
    ensures Yields(t, [b], Control(t, b))
  {
    hide Inv, Control, Supported, ProcessCodePoint, CanFeed, Feed;
    ControlActs(t, b);
    FeedOne(t, b);
  }

  lemma ControlActs(t: Terminal, b: CodePoint)
    requires Inv(t) && IsControl(b)
    ensures Supported(t, b) && ProcessCodePoint(t, b) == Control(t, b)
  {
    hide Inv, Control;
  }

  lemma FeedStep(t: Terminal, params: seq<Param>, b: CodePoint)
    requires Inv(t) && CanStart(t) && Steps(b)
    ensures Yields(t, ControlSequence(params, b), Finish(StepCommand(Read(t, params), b)))
  {
    hide Inv, Yields, ControlSequence, Read, StepCommand, PositionCommand, TabCommand, EditCommand, MarginCommand,
      ModeCommand;
    FeedSequence(t, params, b);
  }

  lemma FeedPosition(t: Terminal, params: seq<Param>, b: CodePoint)
    requires Inv(t) && CanStart(t) && Positions(b)
    ensures Yields(t, ControlSequence(params, b), Finish(PositionCommand(Read(t, params), b)))
  {
    hide Inv, Yields, ControlSequence, Read, StepCommand, PositionCommand, TabCommand, EditCommand, MarginCommand,
      ModeCommand;
    FeedSequence(t, params, b);
  }

  lemma FeedTab(t: Terminal, params: seq<Param>, b: CodePoint)
    requires Inv(t) && CanStart(t) && Tabs(b)
    ensures Yields(t, ControlSequence(params, b), Finish(TabCommand(Read(t, params), b)))
  {
    hide Inv, Yields, ControlSequence, Read, StepCommand, PositionCommand, TabCommand, EditCommand, MarginCommand,
      ModeCommand;
    FeedSequence(t, params, b);
  }

  lemma FeedEdit(t: Terminal, params: seq<Param>, b: CodePoint)
    requires Inv(t) && CanStart(t) && Edits(b)
    ensures Yields(t, ControlSequence(params, b), Finish(EditCommand(Read(t, params), b)))
  {
    hide Inv, Yields, ControlSequence, Read, StepCommand, PositionCommand, TabCommand, EditCommand, MarginCommand,
      ModeCommand;
    FeedSequence(t, params, b);
  }

  lemma FeedMargin(t: Terminal, params: seq<Param>, b: CodePoint)
    requires Inv(t) && CanStart(t) && IsMarginCommand(b) && !(b == 115 && Has(t, LeftRightMargins))
    ensures Yields(t, ControlSequence(params, b), Finish(MarginCommand(Read(t, params), b)))
  {
    hide Inv, Yields, ControlSequence, Read, StepCommand, PositionCommand, TabCommand, EditCommand, MarginCommand,
      ModeCommand;
    FeedSequence(t, params, b);
  }

  lemma FeedMode(t: Terminal, params: seq<Param>, b: CodePoint)
    requires Inv(t) && CanStart(t) && b in {103, 104, 108, 109, 110}
    ensures Yields(t, ControlSequence(params, b), Finish(ModeCommand(Read(t, params), b)))
  {
    hide Inv, Yields, ControlSequence, Read, StepCommand, PositionCommand, TabCommand, EditCommand, MarginCommand,
      ModeCommand;
    FeedSequence(t, params, b);
  }

  lemma FeedEscSetting(t: Terminal, b: CodePoint)
    requires Inv(t) && CanStart(t) && IsEscSetting(b)
    ensures Inv(Escaped(t)) && Yields(t, [ESC, b], Finish(EscSetting(Escaped(t), b)))
  {
    hide Inv, Yields, EscSetting, EscMotion, Escaped;
    FeedEscape(t, b);
  }

  lemma FeedEscMotion(t: Terminal, b: CodePoint)
    requires Inv(t) && CanStart(t) && b in {54, 57, 68, 69, 70, 77}
    ensures Inv(Escaped(t)) && Yields(t, [ESC, b], Finish(EscMotion(Escaped(t), b)))
  {
    hide Inv, Yields, EscSetting, EscMotion, Escaped;
    FeedEscape(t, b);
  }

  // ----- Private sequences -----

  /** ESC [ ?, the parameters in decimal, and the final character. */
  function PrivateSequence(params: seq<Param>, b: CodePoint): seq<CodePoint> {
    [ESC, LEFT_BRACKET] + [63] + Print(params) + [b]
  }

  function ReadPrivate(t: Terminal, params: seq<Param>): (t': Terminal)
    requires Inv(t)
    ensures Inv(t')
  {
    MeaningIsOk(params);
    hide Ok;
    t.(parser := Parser(CsiQuestionMark, Meaning(params), t.parser.collected))
  }

  lemma AfterBracket(t: Terminal, b: CodePoint)
    requires Inv(t) && t.parser.state == Csi && b in {33, 34, 39, 36, 42, 63, 62, 32}
    ensures Supported(t, b) && ProcessCodePoint(t, b) == t.(parser := t.parser.(state := CsiNext(b).value))
  {
    hide Inv;
  }

  lemma StartPrivate(t: Terminal)
    requires Inv(t) && CanStart(t)
    ensures Yields(t, [ESC, LEFT_BRACKET] + [63], t.(parser := Parser(CsiQuestionMark, NoArgs(), t.parser.collected)))
  {
    hide Inv, Feed, CanFeed, Supported, ProcessCodePoint;
    StartCsi(t);
    var t1 := Feed(t, [ESC, LEFT_BRACKET]);
    AfterBracket(t1, 63);
    FeedOne(t1, 63);
    FeedConcat(t, [ESC, LEFT_BRACKET], [63]);
  }

  lemma PrivateArgs(t: Terminal, params: seq<Param>)
    requires Inv(t) && CanStart(t)
    ensures Yields(t, [ESC, LEFT_BRACKET] + [63] + Print(params), ReadPrivate(t, params))
  {
    hide Inv, Feed, CanFeed, Print, Meaning, NoArgs;
    StartPrivate(t);
    var t1 := t.(parser := Parser(CsiQuestionMark, NoArgs(), t.parser.collected));
    YieldsKeeps(t, [ESC, LEFT_BRACKET] + [63], t1);
    FeedArgs(t1, Print(params));
    ParsePrinted(params);
    FeedConcat(t, [ESC, LEFT_BRACKET] + [63], Print(params));
  }

  lemma YieldsKeeps(t: Terminal, s: seq<CodePoint>, t': Terminal)
    requires Yields(t, s, t')
    ensures Inv(t')
  {
    hide Inv, Feed, CanFeed;
  }

  lemma PrivateFinal(t: Terminal, b: CodePoint)
    requires Inv(t) && t.parser.state == CsiQuestionMark && IsPrivateCommand(b)
    ensures Supported(t, b) && ProcessCodePoint(t, b) == Finish(PrivateCommand(t, b))
  {
    hide Inv, PrivateCommand;
  }

  /** A private sequence does what its command does. */
  lemma FeedPrivate(t: Terminal, params: seq<Param>, b: CodePoint)
    requires Inv(t) && CanStart(t) && IsPrivateCommand(b)
    ensures Yields(t, PrivateSequence(params, b), Finish(PrivateCommand(ReadPrivate(t, params), b)))
  {
    hide Inv, Feed, CanFeed, Print, Meaning, ReadPrivate, PrivateCommand, Supported, ProcessCodePoint;
    PrivateArgs(t, params);
    PrivateState(t, params);
    var t1 := ReadPrivate(t, params);
    PrivateFinal(t1, b);
    FeedOne(t1, b);
    FeedConcat(t, [ESC, LEFT_BRACKET] + [63] + Print(params), [b]);
  }

  lemma PrivateState(t: Terminal, params: seq<Param>)
    requires Inv(t)
    ensures ReadPrivate(t, params).parser.state == CsiQuestionMark
  {
    hide Inv, Meaning;
  }

  // ----- Sequences with an intermediate character -----

  /** ESC [, the parameters, the intermediate character and the final one. */
  function IntermediateSequence(params: seq<Param>, x: CodePoint, b: CodePoint): seq<CodePoint> {
    [ESC, LEFT_BRACKET] + Print(params) + [x] + [b]
  }

  function ReadBoth(t: Terminal, params: seq<Param>, x: CodePoint): (t': Terminal)
    requires Inv(t) && CsiNext(x).Some?
    ensures Inv(t')
  {
    MeaningIsOk(params);
    hide Ok;
    t.(parser := Parser(CsiNext(x).value, Meaning(params), t.parser.collected))
  }

  lemma IntermediateFinal(t: Terminal, b: CodePoint)
    requires Inv(t) && EndsSequence(t.parser.state) && 32 < b <= 126
    requires t.parser.state == CsiDollar ==> CanChange(t, b)
    ensures Supported(t, b) && ProcessCodePoint(t, b) == Finish(EndOfSequence(t, b))
  {
    hide Inv, EndOfSequence;
  }

  lemma FeedIntermediate(t: Terminal, params: seq<Param>, x: CodePoint, b: CodePoint)
    requires Inv(t) && CanStart(t) && x in {34, 36, 39, 42} && 32 < b <= 126
    requires x == 36 ==> CanChange(ReadBoth(t, params, x), b)
    ensures x != 36 ==> ReadBoth(t, params, x).parser.state != CsiDollar
    ensures Yields(t, IntermediateSequence(params, x, b), Finish(EndOfSequence(ReadBoth(t, params, x), b)))
  {
    hide Inv, Feed, CanFeed, Print, Meaning, EndOfSequence, Supported, ProcessCodePoint, CanChange;
    ParametersRoundTrip(t, params);
    var t1 := Read(t, params);
    AfterBracket(t1, x);
    FeedOne(t1, x);
    FeedConcat(t, [ESC, LEFT_BRACKET] + Print(params), [x]);
    var t2 := ReadBoth(t, params, x);
    IntermediateFinal(t2, b);
    FeedOne(t2, b);
    FeedConcat(t, [ESC, LEFT_BRACKET] + Print(params) + [x], [b]);
  }
}
