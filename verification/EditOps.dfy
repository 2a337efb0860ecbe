/** Editing commands from their first character to their last: each sequence does to the terminal what its command
    does, with the number it is given. What the commands do to lines and cells is said by `LineOps`, `CellOps` and
    `EraseOps`. */
module EditOps {
  import opened Common
  import opened Utf16
  import opened Row
  import opened Display
  import opened CsiArgs
  import opened TerminalState
  import opened Commands
  import opened Interpreter
  import opened Sequences
  import opened CursorOps
  import WriteOps
  import CellOps
  import opened WcWidth

  const ICH: CodePoint := 64
  const ED: CodePoint := 74
  const EL: CodePoint := 75
  const IL: CodePoint := 76
  const DL: CodePoint := 77
  const DCH: CodePoint := 80
  const SU: CodePoint := 83
  const SD: CodePoint := 84
  const ECH: CodePoint := 88
  const REP: CodePoint := 98

  /** A terminal that has read something else, but has not acted on it. */
  function Reading(t: Terminal, p: Parser): (t': Terminal)
    requires Inv(t) && ParserOk(p)
    ensures Inv(t')
  {
    SetParser(t, p)
  }

  /** The terminal `t'`, with the sequence over. */
  function After(t: Terminal, params: seq<Param>, t': Terminal): Terminal {
    t'.(parser := Parser(NoEscape, Meaning(params), t.parser.collected))
  }

  lemma ReadIsReading(t: Terminal, params: seq<Param>)
    requires Inv(t)
    ensures var p := Parser(Csi, Meaning(params), t.parser.collected); ParserOk(p) && Read(t, params) == Reading(t, p)
  {
    MeaningIsOk(params);
    hide Inv, Meaning;
  }

  lemma ClearReading(t: Terminal, p: Parser, x: nat, y: nat, w: nat, h: int)
    requires Inv(t) && ParserOk(p) && x + w <= Columns(t) && y + h <= Rows(t)
    ensures BlockClear(Reading(t, p), x, y, w, h) == Reading(BlockClear(t, x, y, w, h), p)
  {
    hide Ok, Clear;
  }

  lemma AboutReading(t: Terminal, p: Parser, about: bool)
    requires Inv(t) && ParserOk(p)
    ensures AboutToWrap(Reading(t, p), about) == Reading(AboutToWrap(t, about), p)
  {
    hide Ok;
  }

  lemma ForgetReading(t: Terminal, p: Parser)
    requires Inv(t) && ParserOk(p)
    ensures ClearTranscript(Reading(t, p)) == Reading(ClearTranscript(t), p)
  {
    hide Ok, ForgetHistory;
  }

  lemma ReadingKeeps(t: Terminal, p: Parser)
    requires Inv(t) && ParserOk(p)
    ensures Reading(t, p) == t.(parser := p) && Rows(Reading(t, p)) == Rows(t) && Columns(Reading(t, p)) == Columns(t)
  {
    hide Inv;
  }

  lemma InsertCharactersReading(t: Terminal, p: Parser, n: int)
    requires Inv(t) && ParserOk(p) && 0 < n
    ensures InsertCharacters(Reading(t, p), n) == InsertCharacters(t, n).(parser := p)
  {
    hide Ok, Copy, Clear;
  }

  /** ICH. */
  lemma FeedsInsertCharacters(t: Terminal, params: seq<Param>)
    requires Inv(t) && CanStart(t)
    ensures Yields(t, ControlSequence(params, ICH), After(t, params, InsertCharacters(t, Count(params))))
  {
    hide Inv, Yields, ControlSequence, Meaning, InsertCharacters;
    FeedEdit(t, params, ICH);
    ArgIsNth(t, params, 0, 1);
    ReadIsReading(t, params);
    InsertCharactersReading(t, Parser(Csi, Meaning(params), t.parser.collected), Count(params));
  }

  /** Two rectangles, and no pending wrap. */
  lemma ClearTwiceReading(t: Terminal, p: Parser, x: nat, y: nat, w: nat, h: int, x': nat, y': nat, w': nat, h': int)
    requires Inv(t) && ParserOk(p) && x + w <= Columns(t) && y + h <= Rows(t) && x' + w' <= Columns(t)
    requires y' + h' <= Rows(t)
    ensures Rows(BlockClear(t, x, y, w, h)) == Rows(t) && Columns(BlockClear(t, x, y, w, h)) == Columns(t)
    ensures AboutToWrap(BlockClear(BlockClear(Reading(t, p), x, y, w, h), x', y', w', h'), false) ==
      Reading(AboutToWrap(BlockClear(BlockClear(t, x, y, w, h), x', y', w', h'), false), p)
  {
    hide Inv, BlockClear, AboutToWrap, Reading;
    ReadingKeeps(t, p);
    ClearReading(t, p, x, y, w, h);
    ClearReading(BlockClear(t, x, y, w, h), p, x', y', w', h');
    AboutReading(BlockClear(BlockClear(t, x, y, w, h), x', y', w', h'), p, false);
  }

  lemma EraseBelowReading(t: Terminal, p: Parser)
    requires Inv(t) && ParserOk(p)
    ensures EraseInDisplay(Reading(t, p), 0) == Reading(EraseInDisplay(t, 0), p)
  {
    hide Inv, BlockClear, AboutToWrap, ClearTranscript, Reading;
    CursorInside(t);
    ReadingKeeps(t, p);
    var row, col := t.cursor.row, t.cursor.col;
    ClearTwiceReading(t, p, col, row, Columns(t) - col, 1, 0, row + 1, Columns(t), Rows(t) - (row + 1));
  }

  lemma EraseAboveReading(t: Terminal, p: Parser)
    requires Inv(t) && ParserOk(p)
    ensures EraseInDisplay(Reading(t, p), 1) == Reading(EraseInDisplay(t, 1), p)
  {
    hide Inv, BlockClear, AboutToWrap, ClearTranscript, Reading;
    CursorInside(t);
    ReadingKeeps(t, p);
    ClearTwiceReading(t, p, 0, 0, Columns(t), t.cursor.row, 0, t.cursor.row, t.cursor.col + 1, 1);
  }

  lemma EraseAllReading(t: Terminal, p: Parser, n: int)
    requires Inv(t) && ParserOk(p) && n != 0 && n != 1
    ensures EraseInDisplay(Reading(t, p), n) == Reading(EraseInDisplay(t, n), p)
  {
    hide Inv, BlockClear, AboutToWrap, ClearTranscript, Reading;
    ReadingKeeps(t, p);
    ClearReading(t, p, 0, 0, Columns(t), Rows(t));
    AboutReading(BlockClear(t, 0, 0, Columns(t), Rows(t)), p, false);
    ForgetReading(t, p);
    AboutReading(ClearTranscript(t), p, false);
  }

  lemma EraseInDisplayReading(t: Terminal, p: Parser, n: int)
    requires Inv(t) && ParserOk(p)
    ensures EraseInDisplay(Reading(t, p), n) == Reading(EraseInDisplay(t, n), p)
  {
    hide Inv, EraseInDisplay, Reading;
    if n == 0 {
      EraseBelowReading(t, p);
    } else if n == 1 {
      EraseAboveReading(t, p);
    } else {
      EraseAllReading(t, p, n);
    }
  }

  /** ED; zero and a missing parameter erase from the cursor on. */
  lemma FeedsEraseInDisplay(t: Terminal, params: seq<Param>)
    requires Inv(t) && CanStart(t)
    ensures Yields(t, ControlSequence(params, ED), After(t, params, EraseInDisplay(t, Nth(params, 0, 0))))
  {
    hide Inv, Yields, ControlSequence, Meaning, EraseInDisplay;
    FeedEdit(t, params, ED);
    ArgIsNth(t, params, 0, 0);
    ReadIsReading(t, params);
    EraseInDisplayReading(t, Parser(Csi, Meaning(params), t.parser.collected), Nth(params, 0, 0));
  }

  lemma EraseInLineReading(t: Terminal, p: Parser, n: int)
    requires Inv(t) && ParserOk(p)
    ensures EraseInLine(Reading(t, p), n) == Reading(EraseInLine(t, n), p)
  {
    hide Inv, BlockClear, AboutToWrap, Reading;
    CursorInside(t);
    ReadingKeeps(t, p);
    var r := CellOps.LineRange(t, n);
    if n in {0, 1, 2} {
      ClearReading(t, p, r.from, t.cursor.row, r.to - r.from, 1);
      AboutReading(BlockClear(t, r.from, t.cursor.row, r.to - r.from, 1), p, false);
    }
  }

  /** EL. */
  lemma FeedsEraseInLine(t: Terminal, params: seq<Param>)
    requires Inv(t) && CanStart(t)
    ensures Yields(t, ControlSequence(params, EL), After(t, params, EraseInLine(t, Nth(params, 0, 0))))
  {
    hide Inv, Yields, ControlSequence, Meaning, EraseInLine;
    FeedEdit(t, params, EL);
    ArgIsNth(t, params, 0, 0);
    ReadIsReading(t, params);
    EraseInLineReading(t, Parser(Csi, Meaning(params), t.parser.collected), Nth(params, 0, 0));
  }

  lemma InsertLinesReading(t: Terminal, p: Parser, n: int)
    requires Inv(t) && ParserOk(p) && 0 < n
    ensures InsertLines(Reading(t, p), n) == InsertLines(t, n).(parser := p)
  {
    hide Ok, Copy, Clear;
  }

  /** IL. */
  lemma FeedsInsertLines(t: Terminal, params: seq<Param>)
    requires Inv(t) && CanStart(t)
    ensures Yields(t, ControlSequence(params, IL), After(t, params, InsertLines(t, Count(params))))
  {
    hide Inv, Yields, ControlSequence, Meaning, InsertLines;
    FeedEdit(t, params, IL);
    ArgIsNth(t, params, 0, 1);
    ReadIsReading(t, params);
    InsertLinesReading(t, Parser(Csi, Meaning(params), t.parser.collected), Count(params));
  }

  lemma DeleteLinesReading(t: Terminal, p: Parser, n: int)
    requires Inv(t) && ParserOk(p) && 0 < n
    ensures DeleteLines(Reading(t, p), n) == DeleteLines(t, n).(parser := p)
  {
    hide Ok, Copy, Clear;
  }

  /** DL. */
  lemma FeedsDeleteLines(t: Terminal, params: seq<Param>)
    requires Inv(t) && CanStart(t)
    ensures Yields(t, ControlSequence(params, DL), After(t, params, DeleteLines(t, Count(params))))
  {
    hide Inv, Yields, ControlSequence, Meaning, DeleteLines;
    FeedEdit(t, params, DL);
    ArgIsNth(t, params, 0, 1);
    ReadIsReading(t, params);
    DeleteLinesReading(t, Parser(Csi, Meaning(params), t.parser.collected), Count(params));
  }

  lemma DeleteCharactersReading(t: Terminal, p: Parser, n: int)
    requires Inv(t) && ParserOk(p) && 0 < n
    ensures DeleteCharacters(Reading(t, p), n) == DeleteCharacters(t, n).(parser := p)
  {
    hide Ok, Copy, Clear;
  }

  /** DCH. */
  lemma FeedsDeleteCharacters(t: Terminal, params: seq<Param>)
    requires Inv(t) && CanStart(t)
    ensures Yields(t, ControlSequence(params, DCH), After(t, params, DeleteCharacters(t, Count(params))))
  {
    hide Inv, Yields, ControlSequence, Meaning, DeleteCharacters;
    FeedEdit(t, params, DCH);
    ArgIsNth(t, params, 0, 1);
    ReadIsReading(t, params);
    DeleteCharactersReading(t, Parser(Csi, Meaning(params), t.parser.collected), Count(params));
  }

  lemma EraseCharactersReading(t: Terminal, p: Parser, n: int)
    requires Inv(t) && ParserOk(p) && 0 < n
    ensures EraseCharacters(Reading(t, p), n) == EraseCharacters(t, n).(parser := p)
  {
    hide Ok, Clear;
  }

  /** ECH. */
  lemma FeedsEraseCharacters(t: Terminal, params: seq<Param>)
    requires Inv(t) && CanStart(t)
    ensures Yields(t, ControlSequence(params, ECH), After(t, params, EraseCharacters(t, Count(params))))
  {
    hide Inv, Yields, ControlSequence, Meaning, EraseCharacters;
    FeedEdit(t, params, ECH);
    ArgIsNth(t, params, 0, 1);
    ReadIsReading(t, params);
    EraseCharactersReading(t, Parser(Csi, Meaning(params), t.parser.collected), Count(params));
  }

  lemma {:induction false} ScrollUpReading(t: Terminal, p: Parser, n: int)
    requires Inv(t) && ParserOk(p)
    ensures ScrollUpLines(Reading(t, p), n) == ScrollUpLines(t, n).(parser := p)
    decreases n
  {
    hide Inv, TerminalState.ScrollDownOneLine, Reading;
    ReadingKeeps(ScrollUpLines(t, n), p);
    if n > 0 {
      ScrollReading(t, p);
      ScrollUpReading(TerminalState.ScrollDownOneLine(t), p, n - 1);
    }
  }

  lemma ScrollReading(t: Terminal, p: Parser)
    requires Inv(t) && ParserOk(p)
    ensures TerminalState.ScrollDownOneLine(Reading(t, p)) == Reading(TerminalState.ScrollDownOneLine(t), p)
  {
    hide Ok, ScrollUp;
  }

  /** SU. */
  lemma FeedsScrollUp(t: Terminal, params: seq<Param>)
    requires Inv(t) && CanStart(t)
    ensures Yields(t, ControlSequence(params, SU), After(t, params, ScrollUpLines(t, Count(params))))
  {
    hide Inv, Yields, ControlSequence, Meaning, ScrollUpLines;
    FeedEdit(t, params, SU);
    ArgIsNth(t, params, 0, 1);
    ReadIsReading(t, params);
    ScrollUpReading(t, Parser(Csi, Meaning(params), t.parser.collected), Count(params));
  }

  lemma ScrollDownReading(t: Terminal, p: Parser, n: int)
    requires Inv(t) && ParserOk(p) && 0 < n
    ensures ScrollDownLines(Reading(t, p), n) == ScrollDownLines(t, n).(parser := p)
  {
    hide Ok, Copy, Clear;
  }

  /** SD; with more than one parameter it is something else, which does nothing. */
  lemma FeedsScrollDown(t: Terminal, params: seq<Param>)
    requires Inv(t) && CanStart(t)
    ensures Yields(t, ControlSequence(params, SD),
                   After(t, params, if |params| <= 1 then ScrollDownLines(t, Count(params)) else t))
  {
    IndexIsZero(params);
    hide Inv, Yields, ControlSequence, Meaning, ScrollDownLines;
    FeedEdit(t, params, SD);
    ArgIsNth(t, params, 0, 1);
    ReadIsReading(t, params);
    ScrollDownReading(t, Parser(Csi, Meaning(params), t.parser.collected), Count(params));
  }

  lemma IndexIsZero(params: seq<Param>)
    ensures Meaning(params).index == 0 <==> |params| <= 1
  {
  }

  lemma {:induction false} RepeatReading(t: Terminal, p: Parser, c: CodePoint, n: int)
    requires Inv(t) && ParserOk(p)
    ensures Repeat(Reading(t, p), c, n) == Repeat(t, c, n).(parser := p)
    decreases n
  {
    hide Inv, EmitCodePoint, Reading;
    ReadingKeeps(Repeat(t, c, n), p);
    if n > 0 {
      EmitReading(t, p, c);
      RepeatReading(EmitCodePoint(t, c), p, c, n - 1);
    }
  }

  lemma EmitReading(t: Terminal, p: Parser, c: CodePoint)
    requires Inv(t) && ParserOk(p)
    ensures EmitCodePoint(Reading(t, p), c) == Reading(EmitCodePoint(t, c), p)
  {
    RememberReading(t, p, c);
    hide Inv, EmitMapped;
    MappedReading(Remember(t, c), p, Mapped(t, c));
  }

  lemma RememberReading(t: Terminal, p: Parser, c: CodePoint)
    requires Inv(t) && ParserOk(p)
    ensures Remember(Reading(t, p), c) == Reading(Remember(t, c), p)
  {
    hide Ok;
  }

  lemma MappedReading(t: Terminal, p: Parser, c: CodePoint)
    requires Inv(t) && ParserOk(p)
    ensures EmitMapped(Reading(t, p), c) == Reading(EmitMapped(t, c), p)
  {
    hide Inv, WrapLine, InsertOrReplace, Reading, EmitMapped;
    ReadingKeeps(t, p);
    CursorInside(t);
    WrapReading(t, p);
    WriteOps.EmitCases(t, c);
    WriteOps.EmitCases(Reading(t, p), c);
    if WriteOps.MustWrap(t, Width(c)) {
      PlacedReading(WrapLine(t), p, c);
    } else if t.cursor.col + Width(c) <= Columns(t) {
      PlacedReading(t, p, c);
    }
  }

  lemma WrapReading(t: Terminal, p: Parser)
    requires Inv(t) && ParserOk(p)
    ensures WrapLine(Reading(t, p)) == Reading(WrapLine(t), p)
    ensures WrapLine(t).cursor.col == 0 && Columns(WrapLine(t)) == Columns(t)
  {
    hide Ok, ScrollUp, SetWrap;
  }

  lemma PlacedReading(t: Terminal, p: Parser, c: CodePoint)
    requires Inv(t) && ParserOk(p) && t.cursor.col + Width(c) <= Columns(t)
    ensures InsertOrReplace(Reading(t, p), c) == Reading(InsertOrReplace(t, c), p)
  {
    RoomReading(t, p, Width(c));
    hide Inv, MakeRoom, WriteHere;
    WrittenReading(MakeRoom(t, Width(c)), p, c);
  }

  lemma RoomReading(t: Terminal, p: Parser, w: nat)
    requires Inv(t) && ParserOk(p)
    ensures MakeRoom(Reading(t, p), w) == Reading(MakeRoom(t, w), p)
  {
    hide Ok, Copy;
  }

  lemma WrittenReading(t: Terminal, p: Parser, c: CodePoint)
    requires Inv(t) && ParserOk(p) && t.cursor.col + Width(c) <= Columns(t)
    ensures WriteHere(Reading(t, p), c) == Reading(WriteHere(t, c), p)
  {
    hide Ok, SetChar;
  }

  /** REP writes the last character again, as often as told. */
  lemma FeedsRepeat(t: Terminal, params: seq<Param>)
    requires Inv(t) && CanStart(t)
    ensures Yields(t, ControlSequence(params, REP),
                   After(t, params, if t.lastEmitted.None? then t
                                    else WriteOps.Typed(t, seq(Count(params), _ => t.lastEmitted.value))))
  {
    hide Inv, Yields, ControlSequence, Meaning, Repeat, WriteOps.Typed;
    FeedEdit(t, params, REP);
    ArgIsNth(t, params, 0, 1);
    ReadIsReading(t, params);
    if t.lastEmitted.Some? {
      RepeatReading(t, Parser(Csi, Meaning(params), t.parser.collected), t.lastEmitted.value, Count(params));
      RepeatTypes(t, t.lastEmitted.value, Count(params));
    }
  }

  lemma {:induction false} RepeatTypes(t: Terminal, c: CodePoint, n: nat)
    requires Inv(t)
    ensures Repeat(t, c, n) == WriteOps.Typed(t, seq(n, _ => c))
    decreases n
  {
    hide Inv, EmitCodePoint;
    if n > 0 {
      var s: seq<CodePoint> := seq(n, _ => c);
      assert s[1..] == seq(n - 1, _ => c);
      RepeatTypes(EmitCodePoint(t, c), c, n - 1);
    }
  }

  // ----- Areas -----

  const DOLLAR: CodePoint := 36
  const DECCARA: CodePoint := 114
  const DECRARA: CodePoint := 116
  const DECCRA: CodePoint := 118
  const DECFRA: CodePoint := 120
  const DECERA: CodePoint := 122
  const DECSERA: CodePoint := 123

  /** DECSED and DECSEL. */
  lemma FeedsSelectiveErase(t: Terminal, params: seq<Param>)
    requires Inv(t) && CanStart(t)
    ensures Yields(t, PrivateSequence(params, ED),
                   Finish(SelectiveErase(ReadPrivate(t, params), Nth(params, 0, 0), false)))
    ensures Yields(t, PrivateSequence(params, EL),
                   Finish(SelectiveErase(ReadPrivate(t, params), Nth(params, 0, 0), true)))
  {
    hide Inv, Yields, PrivateSequence, Meaning, SelectiveErase;
    FeedPrivate(t, params, ED);
    FeedPrivate(t, params, EL);
    PrivateReads(t, params);
  }

  lemma PrivateReads(t: Terminal, params: seq<Param>)
    requires Inv(t)
    ensures var r := ReadPrivate(t, params);
      r.parser.state == CsiQuestionMark && Arg0(r, 0) == Nth(params, 0, 0)
  {
    ArgIsNth(t, params, 0, 0);
    hide Inv, Meaning;
  }

  /** What has been read when the sequence of an area ends. */
  function ReadArea(t: Terminal, params: seq<Param>): (r: Terminal)
    requires Inv(t)
    ensures Inv(r) && r == t.(parser := Parser(CsiDollar, Meaning(params), t.parser.collected))
  {
    hide Inv, Meaning;
    ReadBoth(t, params, DOLLAR)
  }

  /** Spaces; with `spares` protected characters stay, and the styles of the others. */
  function Spaces(t: Terminal, spares: bool): (e: Erasure)
    requires Inv(t)
    ensures ErasureOk(e)
  {
    LatinIsNarrow(SPACE);
    hide Ok, SavedOk;
    Erasure(SPACE, CurrentStyle(t), spares, spares)
  }

  lemma AreaEnds(r: Terminal)
    requires Inv(r) && r.parser.state == CsiDollar
    ensures EndOfSequence(r, DECCRA) == CopyRectangle(r) && EndOfSequence(r, DECFRA) == FillRectangle(r)
  {
    hide Inv, CopyRectangle, EraseRectangle, FillRectangle, AttributeFits, ChangeAttributes;
  }

  lemma EraseAreaEnds(r: Terminal, spares: bool)
    requires Inv(r) && r.parser.state == CsiDollar
    ensures EndOfSequence(r, if spares then DECSERA else DECERA) == EraseRectangle(r, 0, Spaces(r, spares))
  {
    hide Inv, CopyRectangle, EraseRectangle, FillRectangle, AttributeFits, ChangeAttributes;
  }

  /** DECCRA copies an area, and DECFRA fills one. */
  lemma FeedsCopyAndFill(t: Terminal, params: seq<Param>)
    requires Inv(t) && CanStart(t)
    ensures Yields(t, IntermediateSequence(params, DOLLAR, DECCRA), Finish(CopyRectangle(ReadArea(t, params))))
    ensures Yields(t, IntermediateSequence(params, DOLLAR, DECFRA), Finish(FillRectangle(ReadArea(t, params))))
  {
    hide Inv, Yields, IntermediateSequence, Meaning, CopyRectangle, FillRectangle, AttributeFits, EndOfSequence;
    AreaEnds(ReadArea(t, params));
    FeedIntermediate(t, params, DOLLAR, DECCRA);
    FeedIntermediate(t, params, DOLLAR, DECFRA);
  }

  /** DECERA erases an area, and DECSERA spares protected characters and keeps the styles. */
  lemma FeedsEraseArea(t: Terminal, params: seq<Param>, spares: bool)
    requires Inv(t) && CanStart(t)
    ensures Yields(t, IntermediateSequence(params, DOLLAR, if spares then DECSERA else DECERA),
                   Finish(EraseRectangle(ReadArea(t, params), 0, Spaces(ReadArea(t, params), spares))))
  {
    hide Inv, Yields, IntermediateSequence, Meaning, EraseRectangle, Spaces, AttributeFits, EndOfSequence;
    EraseAreaEnds(ReadArea(t, params), spares);
    FeedIntermediate(t, params, DOLLAR, if spares then DECSERA else DECERA);
  }

  /** DECCARA changes the attributes of an area and DECRARA reverses them. */
  lemma FeedsAttributes(t: Terminal, params: seq<Param>)
    requires Inv(t) && CanStart(t) && AttributeFits(ReadArea(t, params))
    ensures Yields(t, IntermediateSequence(params, DOLLAR, DECCARA),
                   Finish(ChangeAttributes(ReadArea(t, params), 4, false)))
    ensures Yields(t, IntermediateSequence(params, DOLLAR, DECRARA),
                   Finish(ChangeAttributes(ReadArea(t, params), 4, true)))
  {
    hide Inv, Yields, IntermediateSequence, Meaning, AttributeFits, ChangeAttributes;
    FeedIntermediate(t, params, DOLLAR, DECCARA);
    FeedIntermediate(t, params, DOLLAR, DECRARA);
  }
}
