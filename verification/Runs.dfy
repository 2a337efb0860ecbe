/** Whole runs of a terminal: any sequence of bytes and window sizes. */
module Runs {
  import opened Bytes
  import opened WcWidth
  import opened Utf16
  import opened Row
  import P = Page
  import opened Display
  import opened Sgr
  import opened CsiArgs
  import opened TerminalState
  import opened Commands
  import opened Interpreter
  import Utf8

  datatype Event = Input(b: Byte) | NewSize(columns: nat, rows: nat)

  /** A decoded code point is processed; a replacement for a broken sequence goes straight to the screen. */
  ghost function Deliver(t: Terminal, out: Utf8.Output): (t': Terminal)
    requires Inv(t) && (out.Process? ==> Supported(t, out.c))
    ensures Inv(t')
  {
    match out
    case Process(c) => ProcessCodePoint(t, c)
    case Emit(c) => EmitCodePoint(t, c)
  }

  ghost predicate CanDeliver(t: Terminal, outs: seq<Utf8.Output>)
    requires Inv(t)
    decreases outs
  {
    outs == [] ||
    ((outs[0].Process? ==> Supported(t, outs[0].c)) && CanDeliver(Deliver(t, outs[0]), outs[1..]))
  }

  ghost function DeliverAll(t: Terminal, outs: seq<Utf8.Output>): (t': Terminal)
    requires Inv(t) && CanDeliver(t, outs)
    ensures Inv(t')
    decreases outs
  {
    if outs == [] then t else DeliverAll(Deliver(t, outs[0]), outs[1..])
  }

  function SetDecoder(t: Terminal, d: Utf8.Decoder): (t': Terminal)
    requires Inv(t) && Utf8.Reachable(d)
    ensures Inv(t') && Stays(t, t')
  {
    hide Ok, PenOk, ArgsOk;
    t.(decoder := d)
  }

  /** The byte is within the model. */
  ghost predicate CanProcess(t: Terminal, b: Byte)
    requires Inv(t)
  {
    CanDeliver(SetDecoder(t, Utf8.Step(t.decoder, b).0), Utf8.Step(t.decoder, b).1)
  }

  /** processByte. */
  ghost function ProcessByte(t: Terminal, b: Byte): (t': Terminal)
    requires Inv(t) && CanProcess(t, b)
    ensures Inv(t')
  {
    var (d, outs) := Utf8.Step(t.decoder, b);
    DeliverAll(SetDecoder(t, d), outs)
  }

  /** Events within the model: sizes from 2 by 2 up to the length of the main buffer, and supported input. */
  ghost predicate Allowed(t: Terminal, e: Event)
    requires Inv(t)
  {
    match e
    case Input(b) => CanProcess(t, b)
    case NewSize(columns, rows) => 2 <= columns && 2 <= rows <= P.Total(t.screens.main)
  }

  ghost function Apply(t: Terminal, e: Event): (t': Terminal)
    requires Inv(t) && Allowed(t, e)
    ensures Inv(t')
  {
    match e
    case Input(b) => ProcessByte(t, b)
    case NewSize(columns, rows) => TerminalState.Resize(t, columns, rows)
  }

  ghost predicate CanRun(t: Terminal, events: seq<Event>)
    requires Inv(t)
    decreases events
  {
    events == [] || (Allowed(t, events[0]) && CanRun(Apply(t, events[0]), events[1..]))
  }

  ghost function Run(t: Terminal, events: seq<Event>): (t': Terminal)
    requires Inv(t) && CanRun(t, events)
    ensures Inv(t')
    decreases events
  {
    if events == [] then t else Run(Apply(t, events[0]), events[1..])
  }

  /** The events of a chunk of bytes. */
  function Inputs(bytes: seq<Byte>): seq<Event> {
    seq(|bytes|, i requires 0 <= i < |bytes| => Input(bytes[i]))
  }

  // ----- The decoder and the screen do not depend on each other -----

  lemma WrapLineIgnoresDecoder(t: Terminal, d: Utf8.Decoder)
    requires Inv(t) && Utf8.Reachable(d)
    ensures WrapLine(SetDecoder(t, d)) == SetDecoder(WrapLine(t), d)
  {
    hide Inv, Ok, SetWrap, ScrollUp, Utf8.Reachable, Stays, PenStyle, OnlyActive;
  }

  lemma MakeRoomIgnoresDecoder(t: Terminal, d: Utf8.Decoder)
    requires Inv(t) && Utf8.Reachable(d)
    ensures MakeRoom(SetDecoder(t, d), 0) == SetDecoder(MakeRoom(t, 0), d)
    ensures MakeRoom(SetDecoder(t, d), 1) == SetDecoder(MakeRoom(t, 1), d)
    ensures MakeRoom(SetDecoder(t, d), 2) == SetDecoder(MakeRoom(t, 2), d)
  {
    hide Inv, Ok, Copy, Utf8.Reachable, Stays, PenStyle, OnlyActive;
  }

  lemma WriteHereIgnoresDecoder(t: Terminal, c: CodePoint, d: Utf8.Decoder)
    requires Inv(t) && Utf8.Reachable(d) && t.cursor.col + Width(c) <= Columns(t)
    ensures WriteHere(SetDecoder(t, d), c) == SetDecoder(WriteHere(t, c), d)
  {
    hide Inv, Ok, SetChar, Utf8.Reachable, Stays, PenStyle, Width, OnlyActive;
  }

  lemma InsertOrReplaceIgnoresDecoder(t: Terminal, c: CodePoint, d: Utf8.Decoder)
    requires Inv(t) && Utf8.Reachable(d) && t.cursor.col + Width(c) <= Columns(t)
    ensures InsertOrReplace(SetDecoder(t, d), c) == SetDecoder(InsertOrReplace(t, c), d)
  {
    hide Inv, MakeRoom, WriteHere, SetDecoder, Utf8.Reachable;
    MakeRoomIgnoresDecoder(t, d);
    WriteHereIgnoresDecoder(MakeRoom(t, Width(c)), c, d);
  }

  lemma EmitIgnoresDecoder(t: Terminal, c: CodePoint, d: Utf8.Decoder)
    requires Inv(t) && Utf8.Reachable(d)
    ensures EmitCodePoint(SetDecoder(t, d), c) == SetDecoder(EmitCodePoint(t, c), d)
  {
    hide Inv, Ok, EmitMapped, Utf8.Reachable, Stays, MainKept, SavedKept;
    var t1, m := Remember(t, c), Mapped(t, c);
    assert Remember(SetDecoder(t, d), c) == SetDecoder(t1, d);
    assert Mapped(SetDecoder(t, d), c) == m;
    EmitMappedIgnoresDecoder(t1, m, d);
  }

  lemma CursorInside(t: Terminal)
    requires Inv(t)
    ensures Columns(t) >= 2 && t.margins.right == Columns(t) && t.margins.left == 0 && t.cursor.col < Columns(t)
  {
  }

  lemma EmitMappedIgnoresDecoder(t: Terminal, c: CodePoint, d: Utf8.Decoder)
    requires Inv(t) && Utf8.Reachable(d)
    ensures EmitMapped(SetDecoder(t, d), c) == SetDecoder(EmitMapped(t, c), d)
  {
    hide Inv, Ok, WrapLine, InsertOrReplace, Utf8.Reachable, SavedKept, Width, OkButSize, PenOk;
    CursorInside(t);
    WrapLineIgnoresDecoder(t, d);
    var w, autoWrap := Width(c), Has(t, AutoWrap);
    var cursorInLastColumn := t.cursor.col == t.margins.right - 1;
    if autoWrap || !cursorInLastColumn || w != 2 {
      var wraps := autoWrap && cursorInLastColumn && ((t.cursor.aboutToWrap && w == 1) || w == 2);
      InsertOrReplaceIgnoresDecoder(if wraps then WrapLine(t) else t, c, d);
    }
  }

  lemma DeliverOne(t: Terminal, out: Utf8.Output)
    requires Inv(t)
    ensures CanDeliver(t, [out]) <==> (out.Process? ==> Supported(t, out.c))
    ensures CanDeliver(t, [out]) ==> DeliverAll(t, [out]) == Deliver(t, out)
  {
    hide Inv, Supported, Deliver;
    assert [out][1..] == [];
  }

  /** A continuation byte that is not the last one is only noted. */
  lemma MiddleByte(t: Terminal, b: Byte)
    requires Inv(t) && t.decoder.toFollow > 1 && Utf8.IsContinuation(b)
    ensures var d := Utf8.Decoder(t.decoder.toFollow - 1, t.decoder.input + [b]);
      Utf8.Reachable(d) && (CanProcess(t, b) ==> ProcessByte(t, b) == SetDecoder(t, d))
  {
    assert Utf8.Reachable(t.decoder);
    hide Inv;
  }

  lemma StartByte(t: Terminal, b: Byte, toFollow: nat)
    requires Inv(t) && t.decoder.toFollow == 0
    requires toFollow == if 192 <= b < 224 then 1 else if 224 <= b < 240 then 2 else if 240 <= b < 248 then 3 else 0
    ensures toFollow > 0 && CanProcess(t, b) ==> ProcessByte(t, b) == SetDecoder(t, Utf8.Decoder(toFollow, [b]))
  {
    hide Inv;
  }

  /** A byte that stands for itself, or for nothing. */
  lemma SingleByte(t: Terminal, b: Byte)
    requires Inv(t) && t.decoder.toFollow == 0 && !(192 <= b < 248)
    ensures var c := if b < 128 then b else Utf8.REPLACEMENT;
      CanProcess(t, b) ==> Supported(t, c) && ProcessByte(t, b) == ProcessCodePoint(t, c)
  {
    assert t.decoder == Utf8.GROUND;
    hide Inv, Supported, ProcessCodePoint;
    var c := if b < 128 then b else Utf8.REPLACEMENT;
    DeliverOne(t, Utf8.Process(c));
    assert SetDecoder(t, Utf8.GROUND) == t;
  }

  /** The last byte of a sequence. */
  lemma LastByte(t: Terminal, b: Byte)
    requires Inv(t) && t.decoder.toFollow == 1 && Utf8.IsContinuation(b) && CanProcess(t, b)
    ensures var outs := Utf8.Finish(t.decoder.input + [b]);
      && CanDeliver(SetDecoder(t, Utf8.GROUND), outs)
      && ProcessByte(t, b) == DeliverAll(SetDecoder(t, Utf8.GROUND), outs)
  {
    assert Utf8.Reachable(t.decoder);
    hide Inv, Utf8.Finish;
  }

  lemma RunUnfold(t: Terminal, bytes: seq<Byte>)
    requires Inv(t) && bytes != [] && CanRun(t, Inputs(bytes))
    ensures CanProcess(t, bytes[0]) && CanRun(ProcessByte(t, bytes[0]), Inputs(bytes[1..]))
    ensures Run(t, Inputs(bytes)) == Run(ProcessByte(t, bytes[0]), Inputs(bytes[1..]))
  {
    hide Inv, CanProcess, ProcessByte;
    assert Inputs(bytes)[1..] == Inputs(bytes[1..]);
  }

  lemma RunEnds(t: Terminal, bytes: seq<Byte>)
    requires Inv(t) && bytes == []
    ensures CanRun(t, Inputs(bytes)) && Run(t, Inputs(bytes)) == t
  {
    hide Inv;
  }

  /** A broken sequence is replaced on the screen, and then its last byte starts afresh. */
  lemma BrokenSequence(t: Terminal, b: Byte)
    requires Inv(t) && t.decoder.toFollow > 0 && !Utf8.IsContinuation(b)
    ensures var t1 := EmitCodePoint(SetDecoder(t, Utf8.GROUND), Utf8.REPLACEMENT);
      && t1.decoder == Utf8.GROUND
      && CanProcess(t1, b) == CanProcess(t, b)
      && (CanProcess(t, b) ==> ProcessByte(t1, b) == ProcessByte(t, b))
  {
    assert Utf8.Reachable(t.decoder);
    hide Inv, EmitCodePoint, Supported;
    var (d, outs) := Utf8.Lead(b);
    EmitIgnoresDecoder(t, Utf8.REPLACEMENT, Utf8.GROUND);
    EmitIgnoresDecoder(t, Utf8.REPLACEMENT, d);
    var all := [Utf8.Emit(Utf8.REPLACEMENT)] + outs;
    assert all[1..] == outs;
  }

  /** Whole-run safety: from the start, after any sequence of bytes and sizes, the cursor is on the screen, the margins
      are at least two rows apart, the active buffer has the terminal's size, and all its rows are sound. */
  lemma EveryRun(columns: nat, total: nat, rows: nat, events: seq<Event>)
    requires 2 <= columns && 2 <= rows <= total && CanRun(New(columns, total, rows), events)
    ensures var t := Run(New(columns, total, rows), events);
      && t.cursor.row < t.screens.rows && t.cursor.col < t.screens.columns
      && t.margins.top + 2 <= t.margins.bottom <= t.screens.rows
      && t.margins.left == 0 && t.margins.right == t.screens.columns == |t.tabStop|
      && |Active(t.screens).screen| == t.screens.rows && Active(t.screens).columns == t.screens.columns
      && P.Good(t.screens.main) && P.Good(t.screens.alt)
      && t.screens.alt.history == [] && t.screens.rows <= P.Total(t.screens.main)
      && PenOk(t.pen)
  {
  }

  /** In every terminal that a run can reach, every cell style is an encoding, and so reversing the effects of any
      region twice restores all of them. */
  lemma ReverseTwiceAlways(columns: nat, total: nat, rows: nat, events: seq<Event>, e: P.Change)
    requires 2 <= columns && 2 <= rows <= total && CanRun(New(columns, total, rows), events)
    requires P.ChangeFits(Active(Run(New(columns, total, rows), events).screens), e) && e.reverse
    ensures var s := Run(New(columns, total, rows), events).screens;
      Styled(s) && P.ChangeFits(Active(ChangeEffects(s, e)), e) && ChangeEffects(ChangeEffects(s, e), e) == s
  {
    StylesOfRun(Run(New(columns, total, rows), events));
    hide Run, Inv, Ok, CanRun;
    Display.ReverseTwice(Run(New(columns, total, rows), events).screens, e);
  }

  lemma StylesOfRun(t: Terminal)
    requires Inv(t)
    ensures Ok(t.screens) && Styled(t.screens)
  {
    hide Styled;
  }

  // ----- The alternate screen -----

  /** Input that never leaves the alternate screen; with `keeping`, it does not reset the terminal either. */
  ghost predicate DeliversOnAlt(t: Terminal, outs: seq<Utf8.Output>, keeping: bool)
    requires Inv(t) && CanDeliver(t, outs)
    decreases outs
  {
    && t.screens.onAlt
    && (outs == [] ||
        ((keeping && outs[0].Process? ==> !IsReset(t, outs[0].c)) &&
         DeliversOnAlt(Deliver(t, outs[0]), outs[1..], keeping)))
  }

  ghost predicate StaysOnAlt(t: Terminal, events: seq<Event>, keeping: bool)
    requires Inv(t) && CanRun(t, events)
    decreases events
  {
    && t.screens.onAlt
    && (events == [] || (InputOnAlt(t, events[0], keeping) && StaysOnAlt(Apply(t, events[0]), events[1..], keeping)))
  }

  ghost predicate InputOnAlt(t: Terminal, e: Event, keeping: bool)
    requires Inv(t) && Allowed(t, e)
  {
    && e.Input?
    && var (d, outs) := Utf8.Step(t.decoder, e.b);
       DeliversOnAlt(SetDecoder(t, d), outs, keeping)
  }

  /** The main screen, while the alternate one is shown. */
  predicate MainSame(t: Terminal, t': Terminal) {
    && t.screens.onAlt && t'.screens.onAlt && MainKept(t, t')
  }

  /** The cursor saved for the return to the main screen. */
  predicate SavedSame(t: Terminal, t': Terminal) {
    t'.savedMain == t.savedMain
  }

  lemma DeliverKeeps(t: Terminal, out: Utf8.Output)
    requires Inv(t) && (out.Process? ==> Supported(t, out.c))
    requires t.screens.onAlt && Deliver(t, out).screens.onAlt
    ensures MainSame(t, Deliver(t, out))
    ensures (out.Process? ==> !IsReset(t, out.c)) ==> SavedSame(t, Deliver(t, out))
  {
    hide Inv, ProcessCodePoint, EmitCodePoint;
  }

  lemma {:induction false} DeliverAllKeeps(t: Terminal, outs: seq<Utf8.Output>, keeping: bool)
    requires Inv(t) && CanDeliver(t, outs) && DeliversOnAlt(t, outs, keeping)
    ensures MainSame(t, DeliverAll(t, outs)) && (keeping ==> SavedSame(t, DeliverAll(t, outs)))
    decreases outs
  {
    hide Inv, Deliver, IsReset, Supported;
    if outs != [] {
      OnAltNext(t, outs, keeping);
      DeliverKeeps(t, outs[0]);
      DeliverAllKeeps(Deliver(t, outs[0]), outs[1..], keeping);
    }
  }

  lemma OnAltNext(t: Terminal, outs: seq<Utf8.Output>, keeping: bool)
    requires Inv(t) && CanDeliver(t, outs) && DeliversOnAlt(t, outs, keeping) && outs != []
    ensures Deliver(t, outs[0]).screens.onAlt
  {
    hide Inv, Deliver, IsReset, Supported;
  }

  lemma EventKeeps(t: Terminal, e: Event, keeping: bool)
    requires Inv(t) && Allowed(t, e) && InputOnAlt(t, e, keeping)
    ensures MainSame(t, Apply(t, e)) && (keeping ==> SavedSame(t, Apply(t, e)))
  {
    assert Utf8.Reachable(t.decoder);
    hide Inv, DeliverAll, CanDeliver, DeliversOnAlt;
    var (d, outs) := Utf8.Step(t.decoder, e.b);
    DeliverAllKeeps(SetDecoder(t, d), outs, keeping);
  }

  /** Alternate-screen isolation: no input that stays on the alternate screen, resets included, changes a row of the
      main screen. */
  lemma {:induction false} AlternateIsolated(t: Terminal, events: seq<Event>)
    requires Inv(t) && CanRun(t, events) && StaysOnAlt(t, events, false)
    ensures MainSame(t, Run(t, events))
    decreases events
  {
    hide Inv, Apply, Allowed, InputOnAlt;
    if events != [] {
      EventKeeps(t, events[0], false);
      AlternateIsolated(Apply(t, events[0]), events[1..]);
    }
  }

  /** Without resets the cursor saved for the main screen stays as it is, too. */
  lemma {:induction false} SavedIsolated(t: Terminal, events: seq<Event>)
    requires Inv(t) && CanRun(t, events) && StaysOnAlt(t, events, true)
    ensures SavedSame(t, Run(t, events))
    decreases events
  {
    hide Inv, Apply, Allowed, InputOnAlt;
    if events != [] {
      EventKeeps(t, events[0], true);
      SavedIsolated(Apply(t, events[0]), events[1..]);
    }
  }

  lemma {:induction false} KeepingStays(t: Terminal, outs: seq<Utf8.Output>)
    requires Inv(t) && CanDeliver(t, outs) && DeliversOnAlt(t, outs, true)
    ensures DeliversOnAlt(t, outs, false)
    decreases outs
  {
    hide Inv, Deliver, IsReset, Supported;
    if outs != [] {
      KeepingStays(Deliver(t, outs[0]), outs[1..]);
    }
  }

  lemma KeepingInput(t: Terminal, e: Event)
    requires Inv(t) && Allowed(t, e) && InputOnAlt(t, e, true)
    ensures InputOnAlt(t, e, false)
  {
    assert Utf8.Reachable(t.decoder);
    hide Inv, CanDeliver, DeliversOnAlt;
    var (d, outs) := Utf8.Step(t.decoder, e.b);
    KeepingStays(SetDecoder(t, d), outs);
  }

  /** A run without resets is a run. */
  lemma {:induction false} KeepingRun(t: Terminal, events: seq<Event>)
    requires Inv(t) && CanRun(t, events) && StaysOnAlt(t, events, true)
    ensures StaysOnAlt(t, events, false)
    decreases events
  {
    hide Inv, Apply, Allowed, InputOnAlt;
    if events != [] {
      KeepingInput(t, events[0]);
      KeepingRun(Apply(t, events[0]), events[1..]);
    }
  }

  /** On the alternate screen, with the main one and its saved cursor as they were at `t`. */
  predicate Entered(t: Terminal, t': Terminal) {
    && t'.screens.onAlt && t'.savedMain == Saved(t.cursor.row, t.cursor.col, t.pen, t.modes.flags, t.charset)
    && t'.screens.main.screen == t.screens.main.screen && Fits(t'.screens.main, t'.screens.columns, t'.screens.rows)
    && t.cursor.row < t'.screens.rows && t.cursor.col < t'.screens.columns
  }

  lemma StillEntered(t: Terminal, t1: Terminal, events: seq<Event>)
    requires Inv(t1) && Entered(t, t1) && CanRun(t1, events) && StaysOnAlt(t1, events, true)
    ensures Entered(t, Run(t1, events))
  {
    hide Run, StaysOnAlt, CanRun, Inv;
    SavedIsolated(t1, events);
    KeepingRun(t1, events);
    AlternateIsolated(t1, events);
  }

  predicate Restored(t: Terminal, t': Terminal) {
    && !t'.screens.onAlt && t'.screens.main.screen == t.screens.main.screen
    && t'.cursor == t.cursor.(aboutToWrap := false)
    && t'.pen == t.pen && t'.charset == t.charset
    && t'.modes.flags * SAVED_MODES == t.modes.flags * SAVED_MODES
  }

  lemma EnterSaves(t: Terminal)
    requires Inv(t) && !t.screens.onAlt
    ensures Entered(t, EnterAlternate(t))
    ensures EnterAlternate(t).parser == t.parser && EnterAlternate(t).decoder == t.decoder
  {
    hide P.Good, PenOk, ArgsOk, Styled;
  }

  lemma LeaveRestores(t: Terminal, t': Terminal)
    requires Inv(t') && Entered(t, t')
    ensures Restored(t, LeaveAlternate(t'))
    ensures LeaveAlternate(t').parser == t'.parser && LeaveAlternate(t').decoder == t'.decoder
  {
    hide P.Good, PenOk, ArgsOk, Styled;
  }

  /** Leaving the alternate screen after input without resets restores what was there when it was entered: the main
      screen, the cursor, the colours and effect, the character sets, and the wrap and origin modes. */
  lemma AlternateRoundTrip(t: Terminal, events: seq<Event>)
    requires Inv(t) && !t.screens.onAlt && CanRun(EnterAlternate(t), events)
    requires StaysOnAlt(EnterAlternate(t), events, true)
    ensures var t' := Run(EnterAlternate(t), events); t'.screens.onAlt && Restored(t, LeaveAlternate(t'))
  {
    hide Run, StaysOnAlt, CanRun, EnterAlternate, Inv, Restored;
    EnterSaves(t);
    StillEntered(t, EnterAlternate(t), events);
    LeaveRestores(t, Run(EnterAlternate(t), events));
  }
}
