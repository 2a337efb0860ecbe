/** The alternate screen by its control sequences: ESC [ ? 1049 h shows it, and ESC [ ? 1049 l goes back. */
module AlternateScreen {
  import opened Common
  import opened Bytes
  import opened Utf16
  import opened Display
  import opened CsiArgs
  import opened TerminalState
  import opened Commands
  import opened Interpreter
  import opened Runs
  import opened Sequences
  import Utf8

  const MODE: seq<Byte> := [27, 91, 63, 49, 48, 52, 57]
  const SHOW: Byte := 104
  const LEAVE: Byte := 108

  /** The arguments after "1049". */
  function ModeArgs(): (a: Args)
    ensures ArgsOk(a)
  {
    NoArgs().(values := NoArgs().values[0 := 1049])
  }

  // ----- One byte -----

  /** Between characters an ASCII byte is processed as the character it is. */
  lemma AsciiByte(t: Terminal, b: Byte)
    requires Inv(t) && t.decoder == Utf8.GROUND && b < 128 && Supported(t, b)
    ensures CanProcess(t, b) && ProcessByte(t, b) == ProcessCodePoint(t, b)
  {
    hide Inv, Supported, ProcessCodePoint;
    DeliverOne(t, Utf8.Process(b));
    assert SetDecoder(t, Utf8.GROUND) == t;
  }

  /** A run that starts with such a byte. */
  lemma RunFirst(t: Terminal, b: Byte, rest: seq<Event>, t': Terminal)
    requires Inv(t) && t.decoder == Utf8.GROUND && b < 128 && Supported(t, b) && t' == ProcessCodePoint(t, b)
    ensures CanRun(t', rest) ==> CanRun(t, [Input(b)] + rest) && Run(t, [Input(b)] + rest) == Run(t', rest)
  {
    AsciiByte(t, b);
    hide Inv, Supported, ProcessCodePoint, CanProcess, ProcessByte;
    assert ([Input(b)] + rest)[1..] == rest;
  }

  // ----- The sequence -----

  lemma QuestionMark(t: Terminal)
    requires Inv(t) && t.parser.state == Csi
    ensures Supported(t, 63) && ProcessCodePoint(t, 63) == t.(parser := t.parser.(state := CsiQuestionMark))
  {
    hide Inv;
  }

  lemma Digit(t: Terminal, b: CodePoint)
    requires Inv(t) && t.parser.state == CsiQuestionMark && DIGIT_0 <= b <= DIGIT_0 + 9
    ensures Supported(t, b)
    ensures ProcessCodePoint(t, b) == t.(parser := t.parser.(args := ParseArg(t.parser.args, b)))
  {
    hide Inv, ParseArg;
  }

  lemma Final(t: Terminal, setting: bool)
    requires Inv(t) && t.parser.state == CsiQuestionMark
    ensures var b: CodePoint := if setting then SHOW else LEAVE;
      Supported(t, b) && ProcessCodePoint(t, b) == Interpreter.Finish(DecSetAll(t, setting, 0))
  {
    hide Inv, DecSetAll, Interpreter.Finish;
  }

  lemma ModeParsed()
    ensures ParseArg(ParseArg(ParseArg(ParseArg(NoArgs(), 49), 48), 52), 57) == ModeArgs()
  {
    var v := NoArgs().values;
    assert v[0 := 1][0 := 10][0 := 104][0 := 1049] == v[0 := 1049];
  }

  /** The terminal in the middle of the sequence. */
  function At(t: Terminal, state: EscapeState, args: Args): (t': Terminal)
    requires Inv(t) && ArgsOk(args)
    ensures Inv(t')
  {
    SetParser(t, Parser(state, args, t.parser.collected))
  }

  lemma Introduced(t: Terminal, rest: seq<Event>)
    requires Inv(t) && CanStart(t) && t.decoder == Utf8.GROUND
    ensures var t' := At(t, CsiQuestionMark, NoArgs());
      CanRun(t', rest) ==>
        var all := [Input(27)] + ([Input(91)] + ([Input(63)] + rest));
        CanRun(t, all) && Run(t, all) == Run(t', rest)
  {
    EscStarts(t);
    hide Inv, Supported, ProcessCodePoint, CanRun, Run;
    var t1, t2, t3 := At(t, Esc, NoArgs()), At(t, Csi, NoArgs()), At(t, CsiQuestionMark, NoArgs());
    EscBracket(t1);
    QuestionMark(t2);
    RunFirst(t2, 63, rest, t3);
    RunFirst(t1, 91, [Input(63)] + rest, t2);
    RunFirst(t, 27, [Input(91)] + ([Input(63)] + rest), t1);
  }

  lemma DigitsRead(t: Terminal, rest: seq<Event>)
    requires Inv(t) && t.parser.state == CsiQuestionMark && t.parser.args == NoArgs() && t.decoder == Utf8.GROUND
    ensures var t' := At(t, CsiQuestionMark, ModeArgs());
      CanRun(t', rest) ==>
        var all := [Input(49)] + ([Input(48)] + ([Input(52)] + ([Input(57)] + rest)));
        CanRun(t, all) && Run(t, all) == Run(t', rest)
  {
    ModeParsed();
    hide Inv, Supported, ProcessCodePoint, CanRun, Run, ModeArgs, NoArgs;
    var a1 := ParseArg(NoArgs(), 49);
    var a2 := ParseArg(a1, 48);
    var a3 := ParseArg(a2, 52);
    var t1, t2, t3 := At(t, CsiQuestionMark, a1), At(t, CsiQuestionMark, a2), At(t, CsiQuestionMark, a3);
    Digit(t, 49);
    Digit(t1, 48);
    Digit(t2, 52);
    Digit(t3, 57);
    RunFirst(t3, 57, rest, At(t, CsiQuestionMark, ModeArgs()));
    RunFirst(t2, 52, [Input(57)] + rest, t3);
    RunFirst(t1, 48, [Input(52)] + ([Input(57)] + rest), t2);
    RunFirst(t, 49, [Input(48)] + ([Input(52)] + ([Input(57)] + rest)), t1);
  }

  /** The mode as the only argument is switched, and the sequence ends. */
  lemma OneMode(t: Terminal, setting: bool)
    requires Inv(t) && t.parser.args == ModeArgs() && setting != t.screens.onAlt
    ensures var t1 := if setting then EnterAlternate(t) else LeaveAlternate(t);
      t1.parser == t.parser ==> DecSetAll(t, setting, 0) == t1
  {
    hide Inv, EnterAlternate, LeaveAlternate, DecSetAll;
    assert t.parser.args.values[0] == 1049 && LastArg(t.parser.args) == 0;
    DecSetAllUnfold(t, setting, 0);
    var t1 := DecSetOrReset(t, setting, 1049);
    assert t1 == if setting then EnterAlternate(t) else LeaveAlternate(t);
    if t1.parser == t.parser {
      DecSetAllEnds(t1, setting, 1);
    }
  }

  /** What ESC [ ? 1049 h does on the main screen, and ESC [ ? 1049 l on the alternate one. */
  function Switched(t: Terminal, setting: bool): (t': Terminal)
    requires Inv(t) && setting != t.screens.onAlt
    ensures Inv(t')
  {
    hide Inv;
    var t1 := At(t, CsiQuestionMark, ModeArgs());
    Interpreter.Finish(if setting then EnterAlternate(t1) else LeaveAlternate(t1))
  }

  function Sequence(setting: bool): seq<Event> {
    Inputs(MODE + [if setting then SHOW else LEAVE])
  }

  lemma SequenceIs(setting: bool, rest: seq<Event>)
    ensures var b := if setting then SHOW else LEAVE;
      Sequence(setting) + rest ==
        [Input(27)] + ([Input(91)] + ([Input(63)] + (
          [Input(49)] + ([Input(48)] + ([Input(52)] + ([Input(57)] + ([Input(b)] + rest)))))))
  {
  }

  /** The sequence as input, when neither a string nor a character is under way. */
  lemma SwitchedByInput(t: Terminal, setting: bool, rest: seq<Event>)
    requires Inv(t) && CanStart(t) && t.decoder == Utf8.GROUND && setting != t.screens.onAlt
    requires KeepsParser(At(t, CsiQuestionMark, ModeArgs()), setting)
    requires CanRun(Switched(t, setting), rest)
    ensures CanRun(t, Sequence(setting) + rest) && Run(t, Sequence(setting) + rest) == Run(Switched(t, setting), rest)
  {
    hide Inv, CanRun, Run, EnterAlternate, LeaveAlternate, ModeArgs, NoArgs, DecSetAll, Supported, ProcessCodePoint,
      Sequence;
    var b: Byte := if setting then SHOW else LEAVE;
    var t1 := At(t, CsiQuestionMark, ModeArgs());
    OneMode(t1, setting);
    Final(t1, setting);
    RunFirst(t1, b, rest, Switched(t, setting));
    DigitsRead(At(t, CsiQuestionMark, NoArgs()), [Input(b)] + rest);
    Introduced(t, [Input(49)] + ([Input(48)] + ([Input(52)] + ([Input(57)] + ([Input(b)] + rest)))));
    SequenceIs(setting, rest);
  }

  predicate KeepsParser(t: Terminal, setting: bool)
    requires Inv(t) && setting != t.screens.onAlt
  {
    (if setting then EnterAlternate(t) else LeaveAlternate(t)).parser == t.parser
  }

  lemma {:induction false} RunsConcat(t: Terminal, a: seq<Event>, b: seq<Event>)
    requires Inv(t) && CanRun(t, a) && CanRun(Run(t, a), b)
    ensures CanRun(t, a + b) && Run(t, a + b) == Run(Run(t, a), b)
    decreases a
  {
    hide Inv, Apply, Allowed;
    if a == [] {
      assert a + b == b;
    } else {
      assert (a + b)[1..] == a[1..] + b;
      RunsConcat(Apply(t, a[0]), a[1..], b);
    }
  }

  lemma ShownKeeps(t: Terminal)
    requires Inv(t) && !t.screens.onAlt
    ensures KeepsParser(At(t, CsiQuestionMark, ModeArgs()), true) && Entered(t, Switched(t, true))
  {
    hide Inv, EnterAlternate, ModeArgs;
    EnterSaves(At(t, CsiQuestionMark, ModeArgs()));
  }

  lemma LeftRestores(t: Terminal, t': Terminal)
    requires Inv(t') && Entered(t, t')
    ensures KeepsParser(At(t', CsiQuestionMark, ModeArgs()), false) && Restored(t, Switched(t', false))
  {
    hide Inv, LeaveAlternate, ModeArgs;
    LeaveRestores(t, At(t', CsiQuestionMark, ModeArgs()));
  }

  /** ESC [ ? 1049 h, then any input that stays on the alternate screen without resetting the terminal, then
      ESC [ ? 1049 l: this restores the main screen, the cursor, the colours and effect, the character sets, and the
      wrap and origin modes. The second sequence must not fall into a string or a character that the input leaves
      open. */
  lemma RoundTripByInput(t: Terminal, events: seq<Event>)
    requires Inv(t) && !t.screens.onAlt && CanStart(t) && t.decoder == Utf8.GROUND
    requires CanRun(Switched(t, true), events) && StaysOnAlt(Switched(t, true), events, true)
    requires var t2 := Run(Switched(t, true), events); CanStart(t2) && t2.decoder == Utf8.GROUND
    ensures var all := Sequence(true) + (events + Sequence(false)); CanRun(t, all) && Restored(t, Run(t, all))
  {
    hide Inv, CanRun, Run, StaysOnAlt, Switched, Sequence, Restored, KeepsParser, CanStart;
    ShownKeeps(t);
    var t1 := Switched(t, true);
    StillEntered(t, t1, events);
    var t2 := Run(t1, events);
    LeftRestores(t, t2);
    NothingRuns(Switched(t2, false));
    SwitchedByInput(t2, false, []);
    assert Sequence(false) + [] == Sequence(false);
    RunsConcat(t1, events, Sequence(false));
    SwitchedByInput(t, true, events + Sequence(false));
  }

  lemma NothingRuns(t: Terminal)
    requires Inv(t)
    ensures CanRun(t, []) && Run(t, []) == t
  {
    hide Inv;
  }
}
