/** TerminalEmulator.java: the object that interprets the output of a process and keeps its two screens. */
module TerminalEmulators {
  import opened Common
  import opened Bytes
  import opened WcWidth
  import opened Utf16
  import opened Row
  import P = Page
  import Reflow
  import TextStyle
  import opened TerminalBuffers
  import D = Display
  import opened Sgr
  import opened CsiArgs
  import opened T = TerminalState
  import C = Commands
  import I = Interpreter
  import Utf8
  import R = Runs

  class TerminalEmulator {
    const mainBuffer: TerminalBuffer
    const altBuffer: TerminalBuffer
    /** The buffer that is shown: one of the two. */
    var screen: TerminalBuffer
    var rows: nat
    var columns: nat

    var cursorRow: nat
    var cursorCol: nat
    var aboutToAutoWrap: bool
    var topMargin: nat
    var bottomMargin: nat
    var leftMargin: nat
    var rightMargin: nat
    var tabStop: array<bool>

    var foreColor: bv32
    var backColor: bv32
    var effect: bv32
    var useLineDrawingG0: bool
    var useLineDrawingG1: bool
    var useLineDrawingUsesG0: bool
    var currentDecSetFlags: set<Flag>
    var savedDecSetFlags: set<Flag>
    var insertMode: bool
    var savedStateMain: Saved
    var savedStateAlt: Saved

    var escapeState: EscapeState
    var args: array<int>
    var argIndex: nat
    var collected: nat
    var lastEmittedCodePoint: Option<CodePoint>
    var utf8ToFollow: nat
    var utf8Index: nat
    var utf8InputBuffer: array<Byte>
    var sent: seq<CodePoint>

    /** Two blank screens, and all settings as a reset leaves them. */
    constructor (columns: nat, rows: nat, transcriptRows: nat)
      requires 2 <= columns && 2 <= rows <= transcriptRows
      ensures Valid() && fresh(Footprint())
      ensures State() == New(columns, transcriptRows, rows)
    {
      hide TerminalBuffer.Valid, P.Initial, P.Good, Inv, New, DefaultTabStops;
      var main, alt := NewBuffers(columns, transcriptRows, rows);
      mainBuffer, altBuffer, screen := main, alt, main;
      this.rows, this.columns := rows, columns;
      cursorRow, cursorCol, aboutToAutoWrap := 0, 0, false;
      topMargin, bottomMargin, leftMargin, rightMargin := 0, rows, 0, columns;
      foreColor, backColor, effect := TextStyle.COLOR_INDEX_FOREGROUND, TextStyle.COLOR_INDEX_BACKGROUND, 0;
      useLineDrawingG0, useLineDrawingG1, useLineDrawingUsesG0 := false, false, true;
      currentDecSetFlags, savedDecSetFlags, insertMode := RESET_FLAGS, RESET_FLAGS, false;
      savedStateMain := Saved(0, 0, DEFAULT_PEN, RESET_FLAGS, Charset(false, false, true));
      savedStateAlt := Saved(0, 0, DEFAULT_PEN, RESET_FLAGS, Charset(false, false, true));
      escapeState, argIndex, collected := NoEscape, 0, 0;
      lastEmittedCodePoint := None;
      utf8ToFollow, utf8Index, sent := 0, 0, [];
      var stops, arguments := NewStops(columns);
      tabStop, args := stops, arguments;
      utf8InputBuffer := new Byte[4](_ => 0);
      new;
      assert Separate();
      NewUnfold(columns, transcriptRows, rows);
      assert State() == New(columns, transcriptRows, rows);
      assert fresh(Own());
    }

    static method NewStops(columns: nat) returns (tabStop: array<bool>, args: array<int>)
      ensures fresh(tabStop) && tabStop.Length == columns && tabStop[..] == DefaultTabStops(columns)
      ensures fresh(args) && args[..] == seq(MAX_ESCAPE_PARAMETERS, _ => 0)
    {
      tabStop := new bool[columns](i => i % 8 == 0 && i != 0);
      args := new int[MAX_ESCAPE_PARAMETERS](_ => 0);
    }

    /** The main buffer with its history, and the alternate one without. */
    static method NewBuffers(columns: nat, total: nat, rows: nat) returns (main: TerminalBuffer, alt: TerminalBuffer)
      requires 2 <= columns && 2 <= rows <= total
      ensures main.Valid() && main.page == P.Initial(columns, total, rows) && fresh(main.Repr)
      ensures alt.Valid() && alt.page == P.Initial(columns, rows, rows) && fresh(alt.Repr)
      ensures main.Repr !! alt.Repr && main in main.Repr && alt in alt.Repr
    {
      hide TerminalBuffer.Valid, P.Initial, P.Good;
      main := new TerminalBuffer(columns, total, rows);
      alt := new TerminalBuffer(columns, rows, rows);
    }

    static lemma NewUnfold(columns: nat, total: nat, rows: nat)
      requires 2 <= columns && 2 <= rows <= total
      ensures var charset := Charset(false, false, true);
        New(columns, total, rows) ==
          Terminal(D.Screens(columns, rows, P.Initial(columns, total, rows), P.Initial(columns, rows, rows), false),
                   Cursor(0, 0, false), Margins(0, rows, 0, columns),
                   DefaultTabStops(columns), DEFAULT_PEN, charset, Modes(RESET_FLAGS, RESET_FLAGS, false),
                   Saved(0, 0, DEFAULT_PEN, RESET_FLAGS, charset), Saved(0, 0, DEFAULT_PEN, RESET_FLAGS, charset),
                   Parser(NoEscape, Args(seq(MAX_ESCAPE_PARAMETERS, _ => 0), 0), 0), None, Utf8.GROUND, [])
    {
    }

    ghost function CurrentPen(): Pen
      reads this
    {
      Pen(foreColor, backColor, effect)
    }

    ghost function CurrentScreens(): D.Screens
      reads this, mainBuffer, altBuffer
    {
      D.Screens(columns, rows, mainBuffer.page, altBuffer.page, screen == altBuffer)
    }

    ghost function CurrentParser(): Parser
      reads this, args
    {
      Parser(escapeState, Args(args[..], argIndex), collected)
    }

    ghost function CurrentDecoder(): Utf8.Decoder
      reads this, utf8InputBuffer
    {
      Utf8.Decoder(utf8ToFollow, if utf8Index <= utf8InputBuffer.Length then utf8InputBuffer[..utf8Index] else [])
    }

    /** The state as a value. */
    ghost function State(): Terminal
      reads this, mainBuffer, altBuffer, tabStop, args, utf8InputBuffer
    {
      Terminal(
        CurrentScreens(),
        Cursor(cursorRow, cursorCol, aboutToAutoWrap),
        Margins(topMargin, bottomMargin, leftMargin, rightMargin),
        tabStop[..],
        CurrentPen(),
        Charset(useLineDrawingG0, useLineDrawingG1, useLineDrawingUsesG0),
        Modes(currentDecSetFlags, savedDecSetFlags, insertMode),
        savedStateMain,
        savedStateAlt,
        CurrentParser(),
        lastEmittedCodePoint,
        CurrentDecoder(),
        sent)
    }

    ghost function Own(): set<object>
      reads this
    {
      {this, tabStop, args, utf8InputBuffer}
    }

    /** Everything this object may change. */
    ghost function Footprint(): set<object>
      reads this, mainBuffer, altBuffer
    {
      Own() + mainBuffer.Repr + altBuffer.Repr
    }

    /** The parts of the object share nothing. */
    ghost predicate Separate()
      reads this, mainBuffer, altBuffer
    {
      && mainBuffer.Repr !! altBuffer.Repr && Own() !! mainBuffer.Repr && Own() !! altBuffer.Repr
      && mainBuffer in mainBuffer.Repr && altBuffer in altBuffer.Repr
      && (tabStop as object) != args && (tabStop as object) != utf8InputBuffer && (args as object) != utf8InputBuffer
      && utf8InputBuffer.Length == 4 && args.Length == MAX_ESCAPE_PARAMETERS && utf8Index <= 4
    }

    ghost predicate Valid()
      reads this, mainBuffer, altBuffer, Footprint()
    {
      && Separate() && mainBuffer.Valid() && altBuffer.Valid()
      && (screen == mainBuffer || screen == altBuffer)
      && Inv(State())
      && 2 <= columns && 2 <= rows && cursorRow < rows && cursorCol < columns && tabStop.Length == columns
      && topMargin + 2 <= bottomMargin <= rows && leftMargin == 0 && rightMargin == columns
    }

    // ----- The screen -----

    /** The size of the screen that is shown. */
    lemma ScreenFits()
      requires Valid()
      ensures screen.page == D.Active(CurrentScreens()) && D.Ok(CurrentScreens()) && P.Good(screen.page)
      ensures screen.page.columns == columns == screen.columns && |screen.page.screen| == rows == screen.screenRows
    {
      hide P.Good;
      screen.Numbers();
    }

    method GetStyle() returns (st: Style)
      requires PenOk(CurrentPen())
      ensures st == PenStyle(CurrentPen()) && TextStyle.IsEncoded(st)
    {
      st := TextStyle.Encode(foreColor, backColor, effect);
    }

    /** mScreen.setChar. */
    method PutChar(column: nat, row: nat, c: CodePoint, st: Style)
      requires Valid() && row < rows && column < columns && column + Width(c) <= columns && TextStyle.IsEncoded(st)
      modifies screen.Repr
      ensures Valid() && fresh(screen.Repr - old(screen.Repr))
      ensures State() == Edit(old(State()), D.SetChar(old(CurrentScreens()), column, row, c, st))
    {
      hide TextStyle.IsEncoded;
      hide P.Good, TerminalBuffer.Valid, P.SetChar, D.Ok, Inv;
      ScreenFits();
      ghost var s := D.SetChar(CurrentScreens(), column, row, c, st);
      ghost var t := Edit(State(), s);
      screen.SetChar(column, row, c, st);
      assert CurrentScreens() == s;
    }

    /** mScreen.blockSet. */
    method BlockSet(x: nat, y: nat, w: nat, h: nat, c: CodePoint, st: Style)
      requires Valid() && x + w <= columns && y + h <= rows && Width(c) == 1 && TextStyle.IsEncoded(st)
      modifies screen.Repr
      ensures Valid() && fresh(screen.Repr - old(screen.Repr))
      ensures State() == Edit(old(State()), D.Fill(old(CurrentScreens()), x, y, w, h, c, st))
    {
      hide TextStyle.IsEncoded;
      hide P.Good, TerminalBuffer.Valid, P.BlockSet, D.Ok, Inv;
      ScreenFits();
      ghost var s := D.Fill(CurrentScreens(), x, y, w, h, c, st);
      ghost var t := Edit(State(), s);
      screen.BlockSet(x, y, w, h, c, st);
      assert CurrentScreens() == s;
    }

    /** mScreen.blockCopy. */
    method BlockCopy(sx: nat, sy: nat, w: nat, h: nat, dx: nat, dy: nat)
      requires Valid() && P.Fits(P.Block(sx, sy, w, h, dx, dy), columns, rows)
      modifies screen.Repr
      ensures Valid() && fresh(screen.Repr - old(screen.Repr))
      ensures State() == C.BlockCopy(old(State()), sx, sy, w, h, dx, dy)
    {
      hide P.Good, TerminalBuffer.Valid, P.BlockCopy, D.Ok, Inv;
      ScreenFits();
      ghost var s := D.Copy(CurrentScreens(), P.Block(sx, sy, w, h, dx, dy));
      ghost var t := Edit(State(), s);
      screen.BlockCopy(P.Block(sx, sy, w, h, dx, dy));
      assert CurrentScreens() == s;
    }

    method SetLineWrap(row: nat, wrap: bool)
      requires Valid() && row < rows
      modifies screen.Repr
      ensures Valid() && fresh(screen.Repr - old(screen.Repr))
      ensures State() == Edit(old(State()), D.SetWrap(old(CurrentScreens()), row, wrap))
    {
      hide P.Good, TerminalBuffer.Valid, P.SetLineWrap, D.Ok, Inv;
      ScreenFits();
      ghost var s := D.SetWrap(CurrentScreens(), row, wrap);
      ghost var t := Edit(State(), s);
      screen.SetLineWrap(row, wrap);
      assert CurrentScreens() == s;
    }

    method SetOrClearEffect(e: P.Change)
      requires Valid() && e.bottom <= rows && e.right <= columns && e.rightMargin <= columns
      requires P.ChangeFits(D.Active(CurrentScreens()), e)
      modifies screen.Repr
      ensures Valid() && fresh(screen.Repr - old(screen.Repr))
      ensures State() == Edit(old(State()), D.ChangeEffects(old(CurrentScreens()), e))
    {
      hide P.Good, TerminalBuffer.Valid, P.SetOrClearEffect, D.Ok, Inv;
      ScreenFits();
      ghost var s := D.ChangeEffects(CurrentScreens(), e);
      ghost var t := Edit(State(), s);
      screen.SetOrClearEffect(e);
      assert CurrentScreens() == s;
    }

    /** mScreen.getStyleAt. */
    method StyleAt(row: nat, column: nat) returns (st: Style)
      requires Valid() && row < rows && column < columns
      ensures st == D.StyleAt(CurrentScreens(), row, column)
    {
      hide P.Good, TerminalBuffer.Valid;
      ScreenFits();
      st := screen.GetStyleAt(row, column);
    }

    /** mMainBuffer.clearTranscript. */
    method ClearTranscript()
      requires Valid()
      modifies mainBuffer.Repr
      ensures Valid() && fresh(mainBuffer.Repr - old(mainBuffer.Repr))
      ensures State() == C.ClearTranscript(old(State()))
    {
      mainBuffer.Numbers();
      hide P.Good, TerminalBuffer.Valid, P.ClearTranscript, PenOk, SavedOk;
      ghost var t := C.ClearTranscript(State());
      assert D.Ok(CurrentScreens());
      mainBuffer.ClearTranscript();
      assert CurrentScreens() == t.screens;
    }

    /** mScreen.scrollDownOneLine. */
    method ScrollScreen(top: nat, bottom: nat, st: Style)
      requires Valid() && top < bottom <= rows && TextStyle.IsEncoded(st)
      modifies screen.Repr
      ensures Valid() && fresh(screen.Repr - old(screen.Repr))
      ensures State() == Edit(old(State()), D.ScrollUp(old(CurrentScreens()), top, bottom, st))
    {
      hide TextStyle.IsEncoded;
      hide P.Good, TerminalBuffer.Valid, P.ScrollDownOneLine, D.Ok, Inv;
      ScreenFits();
      ghost var s := D.ScrollUp(CurrentScreens(), top, bottom, st);
      ghost var t := Edit(State(), s);
      screen.ScrollDownOneLine(top, bottom, st);
      assert CurrentScreens() == s;
    }

    /** Scrolls the region between the margins. */
    method ScrollDownOneLine()
      requires Valid()
      modifies screen.Repr
      ensures Valid() && fresh(screen.Repr - old(screen.Repr))
      ensures State() == T.ScrollDownOneLine(old(State()))
    {
      hide TerminalBuffer.Valid, D.ScrollUp, D.Ok, Inv, PenStyle;
      PenIsOk();
      var st := GetStyle();
      ScrollScreen(topMargin, bottomMargin, st);
    }

    /** Blanks a rectangle; a negative height blanks nothing. */
    method BlockClear(x: nat, y: nat, w: nat, h: int)
      requires Valid() && x + w <= columns && y + h <= rows
      modifies screen.Repr
      ensures Valid() && fresh(screen.Repr - old(screen.Repr))
      ensures State() == C.BlockClear(old(State()), x, y, w, h)
    {
      hide Inv, TerminalBuffer.Valid, D.Fill, PenStyle;
      LatinIsNarrow(SPACE);
      PenIsOk();
      var st := GetStyle();
      if h > 0 {
        BlockSet(x, y, w, h, SPACE, st);
      }
    }

    // ----- The cursor -----

    method MoveTo(row: nat, col: nat)
      requires Valid() && row < rows && col < columns
      modifies this`cursorRow, this`cursorCol
      ensures Valid() && State() == T.MoveTo(old(State()), row, col)
    {
      hide TerminalBuffer.Valid, Inv;
      ghost var t := T.MoveTo(State(), row, col);
      cursorRow, cursorCol := row, col;
      assert State() == t;
    }

    method SetCursorRow(row: nat)
      requires Valid() && row < rows
      modifies this`cursorRow, this`aboutToAutoWrap
      ensures Valid() && State() == T.SetCursorRow(old(State()), row)
    {
      hide TerminalBuffer.Valid, Inv;
      ghost var t := T.SetCursorRow(State(), row);
      cursorRow := row;
      aboutToAutoWrap := false;
      assert State() == t;
    }

    method SetCursorCol(col: nat)
      requires Valid() && col < columns
      modifies this`cursorCol, this`aboutToAutoWrap
      ensures Valid() && State() == T.SetCursorCol(old(State()), col)
    {
      hide TerminalBuffer.Valid, Inv;
      ghost var t := T.SetCursorCol(State(), col);
      cursorCol := col;
      aboutToAutoWrap := false;
      assert State() == t;
    }

    method SetCursorRowCol(row: int, col: int)
      requires Valid()
      modifies this`cursorRow, this`cursorCol, this`aboutToAutoWrap
      ensures Valid() && State() == T.SetCursorRowCol(old(State()), row, col)
    {
      hide TerminalBuffer.Valid, Inv;
      ghost var t := T.SetCursorRowCol(State(), row, col);
      cursorRow := Max(0, Min(row, rows - 1));
      cursorCol := Max(0, Min(col, columns - 1));
      aboutToAutoWrap := false;
      assert State() == t;
    }

    method SetCursorPosition(x: int, y: int)
      requires Valid()
      modifies this`cursorRow, this`cursorCol, this`aboutToAutoWrap
      ensures Valid() && State() == T.SetCursorPosition(old(State()), x, y)
    {
      hide TerminalBuffer.Valid, Inv, T.SetCursorRowCol;
      var originMode := OriginMode in currentDecSetFlags;
      var effectiveTopMargin := if originMode then topMargin else 0;
      var effectiveBottomMargin := if originMode then bottomMargin else rows;
      var effectiveLeftMargin := if originMode then leftMargin else 0;
      var effectiveRightMargin := if originMode then rightMargin else columns;
      var newRow := Max(effectiveTopMargin, Min(effectiveTopMargin + y, effectiveBottomMargin - 1));
      var newCol := Max(effectiveLeftMargin, Min(effectiveLeftMargin + x, effectiveRightMargin - 1));
      SetCursorRowCol(newRow, newCol);
    }

    method SetAboutToAutoWrap(about: bool)
      requires Valid()
      modifies this`aboutToAutoWrap
      ensures Valid() && State() == T.AboutToWrap(old(State()), about)
    {
      hide TerminalBuffer.Valid, Inv;
      ghost var t := T.AboutToWrap(State(), about);
      aboutToAutoWrap := about;
      assert State() == t;
    }

    method DoLinefeed()
      requires Valid()
      modifies screen.Repr, this`cursorRow, this`aboutToAutoWrap
      ensures Valid() && fresh(screen.Repr - old(screen.Repr))
      ensures State() == T.Linefeed(old(State()))
    {
      hide TerminalBuffer.Valid, Inv, T.SetCursorRow, T.ScrollDownOneLine;
      var belowScrollingRegion := cursorRow >= bottomMargin;
      var newCursorRow := cursorRow + 1;
      if belowScrollingRegion {
        // Below the region nothing scrolls.
        if cursorRow != rows - 1 {
          SetCursorRow(newCursorRow);
        }
      } else {
        if newCursorRow == bottomMargin {
          ScrollDownOneLine();
          newCursorRow := bottomMargin - 1;
        }
        SetCursorRow(newCursorRow);
      }
    }

    method Backspace()
      requires Valid()
      modifies screen.Repr, this`cursorRow, this`cursorCol, this`aboutToAutoWrap
      ensures Valid() && fresh(screen.Repr - old(screen.Repr))
      ensures State() == T.Backspace(old(State()))
    {
      hide TerminalBuffer.Valid, Inv, T.SetCursorCol, T.PreviousLine;
      if leftMargin == cursorCol {
        // The cursor returns to the end of a wrapped line.
        PreviousLine();
      } else {
        SetCursorCol(cursorCol - 1);
      }
    }

    method PreviousLine()
      requires Valid()
      modifies screen.Repr, this`cursorRow, this`cursorCol, this`aboutToAutoWrap
      ensures Valid() && fresh(screen.Repr - old(screen.Repr))
      ensures State() == T.PreviousLine(old(State()))
    {
      hide TerminalBuffer.Valid, Inv, T.SetCursorRowCol, D.SetWrap, T.Edit;
      var previousRow := cursorRow - 1;
      if previousRow >= 0 {
        var wrapped := GetLineWrap(previousRow);
        if wrapped {
          SetLineWrap(previousRow, false);
          SetCursorRowCol(previousRow, rightMargin - 1);
        }
      }
    }

    method GetLineWrap(row: nat) returns (wrap: bool)
      requires Valid() && row < rows
      ensures wrap == D.GetWrap(CurrentScreens(), row)
    {
      hide P.Good, TerminalBuffer.Valid, Inv, D.Ok;
      ScreenFits();
      wrap := screen.GetLineWrap(row);
    }

    // ----- Tab stops -----

    method NextTabStop(numTabs: int) returns (col: nat)
      requires Valid()
      ensures col == T.NextTabStop(tabStop[..], cursorCol + 1, numTabs, rightMargin) && col < columns
    {
      hide TerminalBuffer.Valid, Inv;
      var i, n := cursorCol + 1, numTabs;
      while i < columns
        invariant cursorCol < i <= columns
        invariant T.NextTabStop(tabStop[..], i, n, rightMargin) ==
          T.NextTabStop(tabStop[..], cursorCol + 1, numTabs, rightMargin)
      {
        if tabStop[i] {
          n := n - 1;
          if n == 0 {
            return Min(i, rightMargin);
          }
        }
        i := i + 1;
      }
      return rightMargin - 1;
    }

    method PreviousTabStop(numTabs: int) returns (col: nat)
      requires Valid()
      ensures col == T.PreviousTabStop(tabStop[..], cursorCol - 1, numTabs, leftMargin) && col < columns
    {
      hide TerminalBuffer.Valid, Inv;
      var i, n := cursorCol - 1, numTabs;
      while i >= 0
        invariant -1 <= i < cursorCol
        invariant T.PreviousTabStop(tabStop[..], i, n, leftMargin) ==
          T.PreviousTabStop(tabStop[..], cursorCol - 1, numTabs, leftMargin)
      {
        if tabStop[i] {
          n := n - 1;
          if n == 0 {
            return Max(i, leftMargin);
          }
        }
        i := i - 1;
      }
      return leftMargin;
    }

    method SetTabStop(set_: bool)
      requires Valid()
      modifies tabStop
      ensures Valid() && State() == T.SetTabStops(old(State()), old(tabStop[..])[cursorCol := set_])
    {
      hide TerminalBuffer.Valid, Inv;
      ghost var t := T.SetTabStops(State(), tabStop[..][cursorCol := set_]);
      tabStop[cursorCol] := set_;
      assert State() == t;
    }

    method ClearTabStops()
      requires Valid()
      modifies tabStop
      ensures Valid() && State() == T.SetTabStops(old(State()), I.NoTabStops(columns))
    {
      hide TerminalBuffer.Valid, Inv;
      ghost var t := T.SetTabStops(State(), I.NoTabStops(columns));
      forall i | 0 <= i < tabStop.Length {
        tabStop[i] := false;
      }
      assert tabStop[..] == I.NoTabStops(columns);
      assert State() == t;
    }

    // ----- Writing a character -----

    /** emitCodePoint. */
    method EmitCodePoint(codePoint: CodePoint)
      requires Valid()
      modifies screen.Repr, this`cursorRow, this`cursorCol, this`aboutToAutoWrap, this`lastEmittedCodePoint
      ensures Valid() && fresh(screen.Repr - old(screen.Repr))
      ensures State() == T.EmitCodePoint(old(State()), codePoint)
    {
      hide TerminalBuffer.Valid, Inv, T.EmitMapped;
      ghost var t := T.Remember(State(), codePoint);
      lastEmittedCodePoint := Some(codePoint);
      assert State() == t;
      var drawing := if useLineDrawingUsesG0 then useLineDrawingG0 else useLineDrawingG1;
      var c := codePoint;
      if drawing && codePoint in TABLES.lineDrawing {
        c := TABLES.lineDrawing[codePoint];
      }
      EmitMapped(c);
    }

    method EmitMapped(codePoint: CodePoint)
      requires Valid()
      modifies screen.Repr, this`cursorRow, this`cursorCol, this`aboutToAutoWrap
      ensures Valid() && fresh(screen.Repr - old(screen.Repr))
      ensures State() == T.EmitMapped(old(State()), codePoint)
    {
      hide Separate, TerminalBuffer.Valid, Inv, T.WrapLine, T.InsertOrReplace;
      var autoWrap := AutoWrap in currentDecSetFlags;
      var displayWidth := ComputeWidth(codePoint);
      var cursorInLastColumn := cursorCol == rightMargin - 1;
      if autoWrap {
        if cursorInLastColumn && ((aboutToAutoWrap && displayWidth == 1) || displayWidth == 2) {
          WrapLine();
        }
      } else if cursorInLastColumn && displayWidth == 2 {
        // There is no room for it.
        return;
      }
      InsertOrReplace(codePoint);
    }

    method InsertOrReplace(codePoint: CodePoint)
      requires Valid() && cursorCol + Width(codePoint) <= columns
      modifies screen.Repr, this`cursorCol, this`aboutToAutoWrap
      ensures Valid() && fresh(screen.Repr - old(screen.Repr))
      ensures State() == T.InsertOrReplace(old(State()), codePoint)
    {
      hide TerminalBuffer.Valid, Inv, T.MakeRoom, T.WriteHere;
      var displayWidth := ComputeWidth(codePoint);
      MakeRoom(displayWidth);
      WriteHere(codePoint);
    }

    method WrapLine()
      requires Valid()
      modifies screen.Repr, this`cursorRow, this`cursorCol
      ensures Valid() && fresh(screen.Repr - old(screen.Repr))
      ensures State() == T.WrapLine(old(State()))
    {
      hide TerminalBuffer.Valid, Inv, T.ScrollDownOneLine, T.MoveTo, D.SetWrap, T.Edit;
      SetLineWrap(cursorRow, true);
      if cursorRow + 1 < bottomMargin {
        MoveTo(cursorRow + 1, leftMargin);
      } else {
        MoveTo(cursorRow, leftMargin);
        ScrollDownOneLine();
      }
    }

    /** In insert mode the rest of the line moves right. */
    method MakeRoom(w: nat)
      requires Valid()
      modifies screen.Repr
      ensures Valid() && fresh(screen.Repr - old(screen.Repr))
      ensures State() == T.MakeRoom(old(State()), w)
    {
      hide TerminalBuffer.Valid, Inv, D.Copy, T.Edit;
      if insertMode && w > 0 {
        var destCol := cursorCol + w;
        if destCol < rightMargin {
          BlockCopy(cursorCol, cursorRow, rightMargin - destCol, 1, destCol, cursorRow);
        }
      }
    }

    /** Writes a character at the cursor, or behind it when it combines. */
    method PutAtCursor(codePoint: CodePoint)
      requires Valid() && cursorCol + Width(codePoint) <= columns
      modifies screen.Repr
      ensures Valid() && fresh(screen.Repr - old(screen.Repr))
      ensures State() == T.PutAtCursor(old(State()), codePoint)
    {
      hide Separate, TerminalBuffer.Valid, Inv, D.Ok, D.SetChar, T.Edit, PenStyle;
      var displayWidth := ComputeWidth(codePoint);
      var offsetDueToCombiningChar := if displayWidth <= 0 && cursorCol > 0 && !aboutToAutoWrap then 1 else 0;
      PenIsOk();
      var st := GetStyle();
      PutChar(cursorCol - offsetDueToCombiningChar, cursorRow, codePoint, st);
    }

    /** Moves the cursor behind a character of `displayWidth` columns. */
    method Advance(displayWidth: nat)
      requires Valid()
      modifies this`cursorCol, this`aboutToAutoWrap
      ensures Valid() && State() == T.Advance(old(State()), displayWidth)
    {
      hide TerminalBuffer.Valid, Inv;
      ghost var t := T.Advance(State(), displayWidth);
      if AutoWrap in currentDecSetFlags && displayWidth > 0 {
        aboutToAutoWrap := cursorCol == rightMargin - displayWidth;
      }
      cursorCol := Min(cursorCol + displayWidth, rightMargin - 1);
      assert State() == t;
    }

    method WriteHere(codePoint: CodePoint)
      requires Valid() && cursorCol + Width(codePoint) <= columns
      modifies screen.Repr, this`cursorCol, this`aboutToAutoWrap
      ensures Valid() && fresh(screen.Repr - old(screen.Repr))
      ensures State() == T.WriteHere(old(State()), codePoint)
    {
      hide TerminalBuffer.Valid, Inv, T.PutAtCursor, T.Advance;
      PutAtCursor(codePoint);
      var displayWidth := ComputeWidth(codePoint);
      Advance(displayWidth);
    }

    // ----- Settings -----

    method SaveCursor()
      requires Valid()
      modifies this`savedStateMain, this`savedStateAlt
      ensures Valid() && State() == T.SaveCursor(old(State()))
    {
      hide TerminalBuffer.Valid, Inv;
      ghost var t := T.SaveCursor(State());
      var saved := Saved(cursorRow, cursorCol, Pen(foreColor, backColor, effect), currentDecSetFlags,
                         Charset(useLineDrawingG0, useLineDrawingG1, useLineDrawingUsesG0));
      if screen == altBuffer {
        savedStateAlt := saved;
      } else {
        savedStateMain := saved;
      }
      assert State() == t;
    }

    method RestoreCursor()
      requires Valid()
      modifies this`cursorRow, this`cursorCol, this`aboutToAutoWrap, this`foreColor, this`backColor, this`effect,
        this`currentDecSetFlags, this`useLineDrawingG0, this`useLineDrawingG1, this`useLineDrawingUsesG0
      ensures Valid() && State() == T.RestoreCursor(old(State()))
    {
      hide Separate, TerminalBuffer.Valid, Inv, PenOk, T.SetCursorRowCol, T.SetPen, T.SetFlags, T.SetCharset;
      var saved := if screen == altBuffer then savedStateAlt else savedStateMain;
      T.SavedPenOk(State());
      SetCursorRowCol(saved.row, saved.col);
      SetPen(saved.pen);
      SetDecSetFlags((currentDecSetFlags - SAVED_MODES) + (saved.flags * SAVED_MODES));
      SetCharset(saved.charset);
    }

    method SetDecSetFlags(flags: set<Flag>)
      requires Valid()
      modifies this`currentDecSetFlags
      ensures Valid() && State() == T.SetFlags(old(State()), flags)
    {
      hide TerminalBuffer.Valid, Inv;
      ghost var t := T.SetFlags(State(), flags);
      currentDecSetFlags := flags;
      assert State() == t;
    }

    method SetDecSetFlag(f: Flag, set_: bool)
      requires Valid()
      modifies this`currentDecSetFlags
      ensures Valid() && State() == T.SetFlag(old(State()), f, set_)
    {
      hide TerminalBuffer.Valid, Inv;
      ghost var t := T.SetFlag(State(), f, set_);
      if set_ {
        // At most one of the mouse modes is on.
        if f == MousePressRelease {
          currentDecSetFlags := currentDecSetFlags - {MouseButtonEvent};
        } else if f == MouseButtonEvent {
          currentDecSetFlags := currentDecSetFlags - {MousePressRelease};
        }
        currentDecSetFlags := currentDecSetFlags + {f};
      } else {
        currentDecSetFlags := currentDecSetFlags - {f};
      }
      assert State() == t;
    }

    method SetMargins(top: nat, bottom: nat)
      requires Valid() && top + 2 <= bottom <= rows
      modifies this`topMargin, this`bottomMargin, this`leftMargin, this`rightMargin
      ensures Valid() && State() == T.SetMargins(old(State()), Margins(top, bottom, 0, columns))
    {
      hide TerminalBuffer.Valid, Inv;
      ghost var t := T.SetMargins(State(), Margins(top, bottom, 0, columns));
      topMargin, bottomMargin, leftMargin, rightMargin := top, bottom, 0, columns;
      assert State() == t;
    }

    method SetCharset(charset: Charset)
      requires Valid()
      modifies this`useLineDrawingG0, this`useLineDrawingG1, this`useLineDrawingUsesG0
      ensures Valid() && State() == T.SetCharset(old(State()), charset)
    {
      hide TerminalBuffer.Valid, Inv;
      ghost var t := T.SetCharset(State(), charset);
      useLineDrawingG0, useLineDrawingG1, useLineDrawingUsesG0 := charset.g0, charset.g1, charset.usesG0;
      assert State() == t;
    }

    method SetPen(pen: Pen)
      requires Valid() && PenOk(pen)
      modifies this`foreColor, this`backColor, this`effect
      ensures Valid() && State() == T.SetPen(old(State()), pen)
    {
      hide TerminalBuffer.Valid, Inv, PenOk;
      ghost var t := T.SetPen(State(), pen);
      foreColor, backColor, effect := pen.fore, pen.back, pen.effect;
      assert State() == t;
    }

    method SetDefaultTabStops()
      requires Valid()
      modifies tabStop
      ensures Valid() && State() == T.SetTabStops(old(State()), DefaultTabStops(columns))
    {
      hide TerminalBuffer.Valid, Inv;
      ghost var t := T.SetTabStops(State(), DefaultTabStops(columns));
      forall i | 0 <= i < tabStop.Length {
        tabStop[i] := i % 8 == 0 && i != 0;
      }
      assert tabStop[..] == DefaultTabStops(columns);
      assert State() == t;
    }

    method ResetModes()
      requires Valid()
      modifies this`currentDecSetFlags, this`savedDecSetFlags, this`insertMode
      ensures Valid() && State() == T.SetModes(old(State()), Modes(RESET_FLAGS, RESET_FLAGS, false))
    {
      hide TerminalBuffer.Valid, Inv;
      ghost var t := T.SetModes(State(), Modes(RESET_FLAGS, RESET_FLAGS, false));
      currentDecSetFlags, savedDecSetFlags, insertMode := RESET_FLAGS, RESET_FLAGS, false;
      assert State() == t;
    }

    method ResetSavedStates()
      requires Valid()
      modifies this`savedStateMain, this`savedStateAlt
      ensures Valid() && State() == T.ResetSavedStates(old(State()))
    {
      hide TerminalBuffer.Valid, Inv;
      ghost var t := T.ResetSavedStates(State());
      savedStateMain, savedStateAlt := T.ResetSaved(savedStateMain), T.ResetSaved(savedStateAlt);
      assert State() == t;
    }

    method ResetParsing()
      requires Valid()
      modifies this`argIndex, this`escapeState, this`utf8Index, this`utf8ToFollow
      ensures Valid() && State() == T.ResetParsing(old(State()))
    {
      hide TerminalBuffer.Valid, Inv;
      ghost var t := T.ResetParsing(State());
      argIndex, escapeState := 0, NoEscape;
      utf8Index, utf8ToFollow := 0, 0;
      assert State() == t;
    }

    /** Puts all settings back. */
    method Reset()
      requires Valid()
      modifies this`argIndex, this`escapeState, this`utf8Index, this`utf8ToFollow, this`aboutToAutoWrap,
        this`topMargin, this`bottomMargin, this`leftMargin, this`rightMargin, tabStop,
        this`foreColor, this`backColor, this`effect,
        this`useLineDrawingG0, this`useLineDrawingG1, this`useLineDrawingUsesG0,
        this`currentDecSetFlags, this`savedDecSetFlags, this`insertMode, this`savedStateMain, this`savedStateAlt
      ensures Valid() && State() == T.Reset(old(State()))
    {
      hide TerminalBuffer.Valid, Inv, PenOk, T.ResetParsing, T.AboutToWrap, T.SetMargins, T.SetTabStops, T.SetPen,
        T.SetCharset,
        T.SetModes, T.ResetSavedStates;
      DefaultPenIsOk();
      ResetParsing();
      SetAboutToAutoWrap(false);
      SetMargins(0, rows);
      SetDefaultTabStops();
      SetPen(DEFAULT_PEN);
      SetCharset(Charset(false, false, true));
      ResetModes();
      ResetSavedStates();
    }

    // ----- Erasing -----

    /** ED. */
    method EraseInDisplay(arg: int)
      requires Valid()
      modifies screen.Repr, mainBuffer.Repr, this`aboutToAutoWrap
      ensures Valid() && fresh(Footprint() - old(Footprint()))
      ensures State() == C.EraseInDisplay(old(State()), arg)
    {
      hide TerminalBuffer.Valid, Inv, C.BlockClear, C.BlockCopy, T.AboutToWrap, C.ClearTranscript;
      if arg in {0, 1, 2} {
        EraseScreen(arg);
      } else if arg == 3 {
        ClearTranscript();
        SetAboutToAutoWrap(false);
      }
    }

    /** The forms of ED that erase a part of the screen. */
    method EraseScreen(arg: int)
      requires Valid() && arg in {0, 1, 2}
      modifies screen.Repr, this`aboutToAutoWrap
      ensures Valid() && fresh(screen.Repr - old(screen.Repr))
      ensures State() == C.EraseInDisplay(old(State()), arg)
    {
      hide TerminalBuffer.Valid, Inv, C.BlockClear, C.BlockCopy, T.AboutToWrap, C.ClearTranscript;
      if arg == 0 {
        BlockClear(cursorCol, cursorRow, columns - cursorCol, 1);
        BlockClear(0, cursorRow + 1, columns, rows - (cursorRow + 1));
      } else if arg == 1 {
        BlockClear(0, 0, columns, cursorRow);
        BlockClear(0, cursorRow, cursorCol + 1, 1);
      } else {
        BlockClear(0, 0, columns, rows);
      }
      SetAboutToAutoWrap(false);
    }

    /** EL. */
    method EraseInLine(arg: int)
      requires Valid()
      modifies screen.Repr, this`aboutToAutoWrap
      ensures Valid() && fresh(screen.Repr - old(screen.Repr))
      ensures State() == C.EraseInLine(old(State()), arg)
    {
      hide TerminalBuffer.Valid, Inv, C.BlockClear, C.BlockCopy, T.AboutToWrap;
      if arg == 0 {
        BlockClear(cursorCol, cursorRow, columns - cursorCol, 1);
      } else if arg == 1 {
        BlockClear(0, cursorRow, cursorCol + 1, 1);
      } else if arg == 2 {
        BlockClear(0, cursorRow, columns, 1);
      } else {
        return;
      }
      SetAboutToAutoWrap(false);
    }

    /** ECH. */
    method EraseCharacters(n: int)
      requires Valid() && 0 < n
      modifies screen.Repr, this`aboutToAutoWrap
      ensures Valid() && fresh(screen.Repr - old(screen.Repr))
      ensures State() == C.EraseCharacters(old(State()), n)
    {
      hide TerminalBuffer.Valid, Inv, C.BlockClear, C.BlockCopy, T.AboutToWrap;
      SetAboutToAutoWrap(false);
      BlockClear(cursorCol, cursorRow, Min(n, columns - cursorCol), 1);
    }

    /** Erases the cells of rows [startRow, endRow) and columns [startCol, endCol) one by one. */
    method EraseArea(startRow: nat, endRow: int, startCol: nat, endCol: int, e: C.Erasure)
      requires D.Ok(CurrentScreens()) && Valid() && endRow <= rows && endCol <= columns && C.ErasureOk(e)
      modifies screen.Repr
      ensures Valid() && fresh(screen.Repr - old(screen.Repr))
      ensures State() ==
        old(State()).(screens := C.EraseArea(old(CurrentScreens()), startRow, endRow, startCol, endCol, e))
    {
      hide TerminalBuffer.Valid, Inv, D.Ok, C.EraseRow, D.SetChar;
      ghost var result := C.EraseArea(CurrentScreens(), startRow, endRow, startCol, endCol, e);
      var row := startRow;
      while row < endRow
        invariant Valid() && fresh(screen.Repr - old(screen.Repr)) && D.Ok(CurrentScreens())
        invariant State() == old(State()).(screens := CurrentScreens())
        invariant C.EraseArea(CurrentScreens(), row, endRow, startCol, endCol, e) == result
      {
        EraseRow(row, startCol, endCol, e);
        row := row + 1;
      }
    }

    method EraseRow(row: nat, startCol: nat, endCol: int, e: C.Erasure)
      requires D.Ok(CurrentScreens()) && Valid() && row < rows && endCol <= columns && C.ErasureOk(e)
      modifies screen.Repr
      ensures Valid() && fresh(screen.Repr - old(screen.Repr))
      ensures State() == old(State()).(screens := C.EraseRow(old(CurrentScreens()), row, startCol, endCol, e))
    {
      hide TerminalBuffer.Valid, Inv, D.Ok, C.EraseCell, D.SetChar;
      ghost var result := C.EraseRow(CurrentScreens(), row, startCol, endCol, e);
      var col := startCol;
      while col < endCol
        invariant Valid() && fresh(screen.Repr - old(screen.Repr)) && D.Ok(CurrentScreens())
        invariant State() == old(State()).(screens := CurrentScreens())
        invariant C.EraseRow(CurrentScreens(), row, col, endCol, e) == result
      {
        EraseCell(row, col, e);
        col := col + 1;
      }
    }

    method EraseCell(row: nat, col: nat, e: C.Erasure)
      requires D.Ok(CurrentScreens()) && Valid() && row < rows && col < columns && C.ErasureOk(e)
      modifies screen.Repr
      ensures Valid() && fresh(screen.Repr - old(screen.Repr))
      ensures State() == old(State()).(screens := C.EraseCell(old(CurrentScreens()), row, col, e))
    {
      hide TerminalBuffer.Valid, Inv, D.Ok, D.SetChar, D.StyleAt, C.IsProtected;
      var st := StyleAt(row, col);
      if !e.selective || !C.IsProtected(st) {
        PutChar(col, row, e.fill, if e.keepStyle then st else e.st);
      }
    }

    /** The area that DECSED or DECSEL erases: nothing, unless the argument is a known one. */
    method AreaToErase(arg: int, justRow: bool) returns (a: C.Area)
      requires Valid()
      ensures a == C.AreaToErase(State(), arg, justRow)
    {
      hide TerminalBuffer.Valid, Inv;
      if arg == 0 {
        a := C.Area(cursorRow, if justRow then cursorRow + 1 else rows, cursorCol, columns);
      } else if arg == 1 {
        a := C.Area(if justRow then cursorRow else 0, cursorRow + 1, 0, cursorCol + 1);
      } else if arg == 2 {
        a := C.Area(if justRow then cursorRow else 0, if justRow then cursorRow + 1 else rows, 0, columns);
      } else {
        a := C.Area(0, 0, 0, 0);
      }
    }

    /** DECSED and DECSEL. */
    method SelectiveErase(arg: int, justRow: bool)
      requires Valid()
      modifies screen.Repr, this`aboutToAutoWrap
      ensures Valid() && fresh(screen.Repr - old(screen.Repr))
      ensures State() == C.SelectiveErase(old(State()), arg, justRow)
    {
      hide TerminalBuffer.Valid, Inv, D.Ok, P.Good, T.AboutToWrap, C.EraseArea, PenStyle, C.AreaToErase;
      LatinIsNarrow(SPACE);
      ScreenFits();
      var a := AreaToErase(arg, justRow);
      PenIsOk();
      var st := GetStyle();
      SetAboutToAutoWrap(false);
      ScreenFits();
      EraseArea(a.startRow, a.endRow, a.startCol, a.endCol, C.Erasure(SPACE, st, true, false));
    }

    // ----- Inserting and deleting -----

    /** ICH. */
    method InsertCharacters(n: int)
      requires Valid() && 0 < n
      modifies screen.Repr, this`aboutToAutoWrap
      ensures Valid() && fresh(screen.Repr - old(screen.Repr))
      ensures State() == C.InsertCharacters(old(State()), n)
    {
      hide TerminalBuffer.Valid, Inv, C.BlockClear, C.BlockCopy, T.AboutToWrap;
      SetAboutToAutoWrap(false);
      var columnsAfterCursor := columns - cursorCol;
      var spacesToInsert := Min(n, columnsAfterCursor);
      var charsToMove := columnsAfterCursor - spacesToInsert;
      BlockCopy(cursorCol, cursorRow, charsToMove, 1, cursorCol + spacesToInsert, cursorRow);
      BlockClear(cursorCol, cursorRow, spacesToInsert, 1);
    }

    /** DCH. */
    method DeleteCharacters(n: int)
      requires Valid() && 0 < n
      modifies screen.Repr, this`aboutToAutoWrap
      ensures Valid() && fresh(screen.Repr - old(screen.Repr))
      ensures State() == C.DeleteCharacters(old(State()), n)
    {
      hide TerminalBuffer.Valid, Inv, C.BlockClear, C.BlockCopy, T.AboutToWrap;
      SetAboutToAutoWrap(false);
      var cellsAfterCursor := columns - cursorCol;
      var cellsToDelete := Min(n, cellsAfterCursor);
      var cellsToMove := cellsAfterCursor - cellsToDelete;
      BlockCopy(cursorCol + cellsToDelete, cursorRow, cellsToMove, 1, cursorCol, cursorRow);
      BlockClear(cursorCol + cellsToMove, cursorRow, cellsToDelete, 1);
    }

    /** IL: below the bottom margin the numbers are negative and nothing happens. */
    method InsertLines(n: int)
      requires Valid() && 0 < n
      modifies screen.Repr
      ensures Valid() && fresh(screen.Repr - old(screen.Repr))
      ensures State() == C.InsertLines(old(State()), n)
    {
      hide TerminalBuffer.Valid, Inv, C.BlockClear, C.BlockCopy;
      var linesAfterCursor := bottomMargin - cursorRow;
      var linesToInsert := Min(n, linesAfterCursor);
      var linesToMove := linesAfterCursor - linesToInsert;
      BlockCopy(0, cursorRow, columns, linesToMove, 0, cursorRow + linesToInsert);
      BlockClear(0, cursorRow, columns, linesToInsert);
    }

    /** DL. */
    method DeleteLines(n: int)
      requires Valid() && 0 < n
      modifies screen.Repr, this`aboutToAutoWrap
      ensures Valid() && fresh(screen.Repr - old(screen.Repr))
      ensures State() == C.DeleteLines(old(State()), n)
    {
      hide TerminalBuffer.Valid, Inv, C.BlockClear, C.BlockCopy, T.AboutToWrap;
      SetAboutToAutoWrap(false);
      var linesAfterCursor := bottomMargin - cursorRow;
      var linesToDelete := Min(n, linesAfterCursor);
      var linesToMove := linesAfterCursor - linesToDelete;
      BlockCopy(0, cursorRow + linesToDelete, columns, linesToMove, 0, cursorRow);
      BlockClear(0, cursorRow + linesToMove, columns, linesToDelete);
    }

    /** SU. */
    method ScrollUpLines(linesToScroll: int)
      requires Valid()
      modifies screen.Repr
      ensures Valid() && fresh(screen.Repr - old(screen.Repr))
      ensures State() == C.ScrollUpLines(old(State()), linesToScroll)
    {
      hide TerminalBuffer.Valid, Inv, T.ScrollDownOneLine;
      var i := 0;
      while i < linesToScroll
        invariant Valid() && fresh(screen.Repr - old(screen.Repr))
        invariant C.ScrollUpLines(State(), linesToScroll - i) == C.ScrollUpLines(old(State()), linesToScroll)
        invariant linesToScroll >= 0 ==> i <= linesToScroll
      {
        ScrollDownOneLine();
        i := i + 1;
      }
    }

    /** SD. */
    method ScrollDownLines(n: int)
      requires Valid() && 0 < n
      modifies screen.Repr
      ensures Valid() && fresh(screen.Repr - old(screen.Repr))
      ensures State() == C.ScrollDownLines(old(State()), n)
    {
      hide TerminalBuffer.Valid, Inv, C.BlockClear, C.BlockCopy;
      var linesBetweenMargins := bottomMargin - topMargin;
      var linesToScroll := Min(linesBetweenMargins, n);
      BlockCopy(0, topMargin, columns, linesBetweenMargins - linesToScroll, 0, topMargin + linesToScroll);
      BlockClear(0, topMargin, columns, linesToScroll);
    }

    /** RI. */
    method ReverseIndex()
      requires Valid()
      modifies screen.Repr, this`cursorRow, this`cursorCol
      ensures Valid() && fresh(screen.Repr - old(screen.Repr))
      ensures State() == C.ReverseIndex(old(State()))
    {
      hide TerminalBuffer.Valid, Inv, C.BlockClear, C.BlockCopy, T.MoveTo;
      if cursorRow <= topMargin {
        BlockCopy(0, topMargin, columns, bottomMargin - (topMargin + 1), 0, topMargin + 1);
        BlockClear(0, topMargin, columns, 1);
      } else {
        MoveTo(cursorRow - 1, cursorCol);
      }
    }

    /** Blanks a column between the margins, without effects. */
    method BlankColumn(column: nat)
      requires Valid() && column < columns
      modifies screen.Repr
      ensures Valid() && fresh(screen.Repr - old(screen.Repr))
      ensures D.Ok(old(CurrentScreens()))
      ensures State() == Edit(old(State()), D.Clear(old(CurrentScreens()), column, old(topMargin), 1,
                                                    old(bottomMargin - topMargin), C.BlankStyle(old(State()))))
    {
      hide TerminalBuffer.Valid, Inv, D.Ok, D.Fill, P.Good, TextStyle.IsEncoded, PenOk;
      ScreenFits();
      PenIsOk();
      LatinIsNarrow(SPACE);
      var st := TextStyle.Encode(foreColor, backColor, 0);
      assert st == C.BlankStyle(State());
      BlockSet(column, topMargin, 1, bottomMargin - topMargin, SPACE, st);
    }

    /** DECBI. */
    method BackIndex()
      requires Valid()
      modifies screen.Repr, this`cursorRow, this`cursorCol
      ensures Valid() && fresh(screen.Repr - old(screen.Repr))
      ensures State() == C.BackIndex(old(State()))
    {
      hide TerminalBuffer.Valid, Inv, C.BlockCopy, T.MoveTo, D.Clear, PenStyle;
      if cursorCol > leftMargin {
        MoveTo(cursorRow, cursorCol - 1);
      } else {
        var height := bottomMargin - topMargin;
        BlockCopy(leftMargin, topMargin, rightMargin - leftMargin - 1, height, leftMargin + 1, topMargin);
        BlankColumn(leftMargin);
      }
    }

    /** DECFI. */
    method ForwardIndex()
      requires Valid()
      modifies screen.Repr, this`cursorRow, this`cursorCol
      ensures Valid() && fresh(screen.Repr - old(screen.Repr))
      ensures State() == C.ForwardIndex(old(State()))
    {
      hide Separate, TerminalBuffer.Valid, Inv, C.BlockCopy, T.MoveTo, D.Clear, PenStyle;
      if cursorCol < rightMargin - 1 {
        MoveTo(cursorRow, cursorCol + 1);
      } else {
        var height := bottomMargin - topMargin;
        BlockCopy(leftMargin + 1, topMargin, rightMargin - leftMargin - 1, height, leftMargin, topMargin);
        BlankColumn(rightMargin - 1);
      }
    }

    /** DECIC. */
    method InsertColumns(n: int)
      requires Valid() && 0 < n
      modifies screen.Repr
      ensures Valid() && fresh(screen.Repr - old(screen.Repr))
      ensures State() == C.InsertColumns(old(State()), n)
    {
      hide TerminalBuffer.Valid, Inv, C.BlockClear, C.BlockCopy;
      var columnsAfterCursor := rightMargin - cursorCol;
      var columnsToInsert := Min(n, columnsAfterCursor);
      var columnsToMove := columnsAfterCursor - columnsToInsert;
      BlockCopy(cursorCol, 0, columnsToMove, rows, cursorCol + columnsToInsert, 0);
      BlockClear(cursorCol, 0, columnsToInsert, rows);
    }

    /** DECDC. */
    method DeleteColumns(n: int)
      requires Valid() && 0 < n
      modifies screen.Repr
      ensures Valid() && fresh(screen.Repr - old(screen.Repr))
      ensures State() == C.DeleteColumns(old(State()), n)
    {
      hide TerminalBuffer.Valid, Inv, C.BlockCopy;
      var columnsAfterCursor := rightMargin - cursorCol;
      var columnsToDelete := Min(n, columnsAfterCursor);
      var columnsToMove := columnsAfterCursor - columnsToDelete;
      BlockCopy(cursorCol + columnsToDelete, 0, columnsToMove, rows, cursorCol, 0);
    }

    /** REP. */
    method Repeat(codePoint: CodePoint, numRepeat: int)
      requires Valid()
      modifies screen.Repr, this`cursorRow, this`cursorCol, this`aboutToAutoWrap, this`lastEmittedCodePoint
      ensures Valid() && fresh(screen.Repr - old(screen.Repr))
      ensures State() == C.Repeat(old(State()), codePoint, numRepeat)
    {
      hide Separate, TerminalBuffer.Valid, Inv, T.EmitCodePoint;
      var i := 0;
      while i < numRepeat
        invariant Valid() && fresh(screen.Repr - old(screen.Repr))
        invariant C.Repeat(State(), codePoint, numRepeat - i) == C.Repeat(old(State()), codePoint, numRepeat)
        invariant numRepeat >= 0 ==> i <= numRepeat
      {
        EmitCodePoint(codePoint);
        i := i + 1;
      }
    }

    // ----- Arguments and rectangles -----

    method GetArg(index: nat, defaultValue: int, treatZeroAsDefault: bool) returns (result: int)
      requires Valid() && index < MAX_ESCAPE_PARAMETERS
      ensures result == CsiArgs.GetArg(State().parser.args, index, defaultValue, treatZeroAsDefault)
    {
      hide TerminalBuffer.Valid, Inv;
      result := args[index];
      if result < 0 || (result == 0 && treatZeroAsDefault) {
        result := defaultValue;
      }
    }

    /** The argument at `index`, of which zero counts as missing. */
    method Arg(index: nat, defaultValue: int) returns (n: int)
      requires Valid() && index < MAX_ESCAPE_PARAMETERS && 0 < defaultValue
      ensures n == C.Arg(State(), index, defaultValue) && 0 < n
    {
      hide TerminalBuffer.Valid, Inv;
      n := GetArg(index, defaultValue, true);
    }

    method Effective() returns (m: Margins)
      ensures m == T.Effective(State())
    {
      m := if OriginMode in currentDecSetFlags then Margins(topMargin, bottomMargin, leftMargin, rightMargin)
           else Margins(0, rows, 0, columns);
    }

    method BlockToCopy() returns (b: P.Block)
      requires Valid()
      ensures b == C.BlockToCopy(State())
    {
      hide TerminalBuffer.Valid, Inv, C.Arg, T.Effective;
      var m := Effective();
      var a0 := Arg(0, 1);
      var a1 := Arg(1, 1);
      var a2 := Arg(2, rows);
      var a3 := Arg(3, columns);
      var a5 := Arg(5, 1);
      var a6 := Arg(6, 1);
      var topSource := Min(a0 - 1 + m.top, rows);
      var leftSource := Min(a1 - 1 + m.left, columns);
      var bottomSource := Min(Max(a2 + m.top, topSource), rows);
      var rightSource := Min(Max(a3 + m.left, leftSource), columns);
      var destinationTop := Min(a5 - 1 + m.top, rows);
      var destinationLeft := Min(a6 - 1 + m.left, columns);
      var heightToCopy := Min(rows - destinationTop, bottomSource - topSource);
      var widthToCopy := Min(columns - destinationLeft, rightSource - leftSource);
      b := P.Block(leftSource, topSource, widthToCopy, heightToCopy, destinationLeft, destinationTop);
    }

    /** DECCRA. */
    method CopyRectangle()
      requires Valid()
      modifies screen.Repr
      ensures Valid() && fresh(screen.Repr - old(screen.Repr))
      ensures State() == C.CopyRectangle(old(State()))
    {
      hide TerminalBuffer.Valid, Inv, D.Copy, D.Ok, C.BlockToCopy;
      var b := BlockToCopy();
      BlockCopy(b.sx, b.sy, b.w, b.h, b.dx, b.dy);
    }

    method AreaOfArgs(index: nat) returns (a: C.Area)
      requires Valid() && index <= 1
      ensures a == C.AreaOfArgs(State(), index)
    {
      hide TerminalBuffer.Valid, Inv, C.Arg, T.Effective;
      T.EffectiveFits(State());
      var m := Effective();
      var a0 := Arg(index, 1);
      var a1 := Arg(index + 1, 1);
      var a2 := Arg(index + 2, rows);
      var a3 := Arg(index + 3, columns);
      var top := Min(a0 + m.top, m.bottom + 1);
      var left := Min(a1 + m.left, m.right + 1);
      var bottom := Min(a2 + m.top, m.bottom);
      var right := Min(a3 + m.left, m.right);
      a := C.Area(top - 1, bottom, left - 1, right);
    }

    /** DECERA, DECSERA and DECFRA, with their area starting at argument `index`. */
    method EraseRectangle(index: nat, e: C.Erasure)
      requires Valid() && index <= 1 && C.ErasureOk(e)
      modifies screen.Repr
      ensures Valid() && fresh(screen.Repr - old(screen.Repr))
      ensures State() == C.EraseRectangle(old(State()), index, e)
    {
      hide TerminalBuffer.Valid, Inv, D.Ok, P.Good, C.EraseArea, C.AreaOfArgs;
      ScreenFits();
      var a := AreaOfArgs(index);
      EraseArea(a.startRow, a.endRow, a.startCol, a.endCol, e);
    }

    method FillRectangle()
      requires Valid()
      modifies screen.Repr
      ensures Valid() && fresh(screen.Repr - old(screen.Repr))
      ensures State() == C.FillRectangle(old(State()))
    {
      hide TerminalBuffer.Valid, Inv, C.EraseRectangle, PenStyle;
      var c := GetArg(0, -1, true);
      if (c >= 32 && c <= 126) || (c >= 160 && c <= 255) {
        LatinIsNarrow(c);
        PenIsOk();
        var st := GetStyle();
        EraseRectangle(1, C.Erasure(c, st, false, false));
      }
    }

    method AttributeLines() returns (top: nat, bottom: nat)
      requires Valid()
      ensures (top, bottom) == C.AttributeLines(State())
    {
      hide TerminalBuffer.Valid, Inv, C.Arg, T.Effective;
      T.EffectiveFits(State());
      var m := Effective();
      var a0 := Arg(0, 1);
      var a2 := Arg(2, rows);
      top, bottom := Min(a0 - 1, m.bottom) + m.top, Min(a2 + 1, m.bottom - 1) + m.top;
    }

    method AttributeColumns() returns (left: nat, right: nat)
      requires Valid()
      ensures (left, right) == C.AttributeColumns(State())
    {
      hide TerminalBuffer.Valid, Inv, C.Arg, T.Effective;
      T.EffectiveFits(State());
      var m := Effective();
      var a1 := Arg(1, 1);
      var a3 := Arg(3, columns);
      left, right := Min(a1 - 1, m.right) + m.left, Min(a3 + 1, m.right - 1) + m.left;
    }

    method AttributeArea(code: int, reverse: bool) returns (e: P.Change)
      requires Valid()
      ensures e == C.AttributeArea(State(), code, reverse)
    {
      hide TerminalBuffer.Valid, Inv, C.AttributeLines, C.AttributeColumns, C.Attribute, T.Effective;
      var (bits, setOrClear) := C.Attribute(code, reverse);
      var m := Effective();
      var top, bottom := AttributeLines();
      var left, right := AttributeColumns();
      e := P.Change(bits, setOrClear, reverse, RectangularChange in currentDecSetFlags, m.left, m.right,
                    top, left, bottom, right);
    }

    /** One attribute of DECCARA or DECRARA; reversing ignores the codes that only clear. */
    method ChangeAttribute(code: int, reverse: bool)
      requires Valid() && C.AttributeFits(State())
      modifies screen.Repr
      ensures Valid() && fresh(screen.Repr - old(screen.Repr))
      ensures State() == C.ChangeAttribute(old(State()), code, reverse)
    {
      hide TerminalBuffer.Valid, Inv, D.Ok, P.Good, D.ChangeEffects, C.AttributeArea, C.Attribute;
      ScreenFits();
      var (bits, setOrClear) := C.Attribute(code, reverse);
      if !(reverse && !setOrClear) {
        var e := AttributeArea(code, reverse);
        SetOrClearEffect(e);
      }
    }

    /** DECCARA and DECRARA. */
    method ChangeAttributes(reverse: bool)
      requires Valid() && (4 <= argIndex ==> C.AttributeFits(State()))
      modifies screen.Repr
      ensures Valid() && fresh(screen.Repr - old(screen.Repr))
      ensures State() == C.ChangeAttributes(old(State()), 4, reverse)
    {
      hide TerminalBuffer.Valid, Inv, C.ChangeAttribute;
      if argIndex >= 4 {
        ChangeAttributesFrom(4, reverse);
      }
    }

    method ChangeAttributesFrom(first: nat, reverse: bool)
      requires Valid() && argIndex >= 4 && C.AttributeFits(State())
      modifies screen.Repr
      ensures Valid() && fresh(screen.Repr - old(screen.Repr))
      ensures State() == C.ChangeAttributes(old(State()), first, reverse)
    {
      hide TerminalBuffer.Valid, Inv, C.ChangeAttribute, C.AttributeFits;
      var last := if argIndex >= args.Length then args.Length - 1 else argIndex;
      var i := first;
      while i <= last
        invariant Valid() && fresh(screen.Repr - old(screen.Repr)) && C.AttributeFits(State())
        invariant C.ChangeAttributes(State(), i, reverse) == C.ChangeAttributes(old(State()), first, reverse)
      {
        ChangeNext(i, reverse);
        i := i + 1;
      }
    }

    /** A turn of the loop of `ChangeAttributesFrom`. */
    method ChangeNext(i: nat, reverse: bool)
      requires Valid() && C.AttributeFits(State()) && 4 <= argIndex && i < args.Length && i <= argIndex
      modifies screen.Repr
      ensures Valid() && fresh(screen.Repr - old(screen.Repr)) && C.AttributeFits(State())
      ensures C.ChangeAttributes(State(), i + 1, reverse) == C.ChangeAttributes(old(State()), i, reverse)
    {
      hide TerminalBuffer.Valid, Inv, C.ChangeAttribute, C.AttributeFits;
      ghost var before := State();
      var code := GetArg(i, 0, false);
      ChangeAttribute(code, reverse);
      C.StillFits(before, State());
    }

    // ----- The size, and the two screens -----

    /** The buffers are sound, whatever the size of the one that is shown. */
    ghost predicate BuffersValid()
      reads this, mainBuffer, altBuffer, Footprint()
    {
      && Separate() && mainBuffer.Valid() && altBuffer.Valid() && (screen == mainBuffer || screen == altBuffer)
      && D.OkButSize(CurrentScreens())
    }

    /** resizeScreen. */
    method ResizeScreen(col: nat, row: nat, st: Style) returns (newCol: nat, newRow: nat)
      requires BuffersValid() && TextStyle.IsEncoded(st)
      requires var p := D.Active(CurrentScreens());
        (col < p.columns && row < |p.screen|) || (screen == altBuffer && col < columns && row < rows)
      modifies screen.Repr
      ensures BuffersValid() && fresh(screen.Repr - old(screen.Repr)) && D.Ok(CurrentScreens())
      ensures newCol < columns && newRow < rows
      ensures (CurrentScreens(), newCol as int, newRow as int) == D.Resize(old(CurrentScreens()), col, row, st)
    {
      hide TerminalBuffer.Valid, P.Good, Reflow.Resize, D.Styled, TextStyle.IsEncoded;
      mainBuffer.Numbers();
      ghost var r := D.Resize(CurrentScreens(), col, row, st);
      var newTotalRows := if screen == altBuffer then rows else mainBuffer.totalRows;
      var c, l := screen.Resize(columns, rows, newTotalRows, col, row, st, screen == altBuffer);
      newCol, newRow := c, l;
      assert CurrentScreens() == r.0;
    }

    /** Shows the other buffer and brings it to the terminal's size. */
    method SwitchScreen(toAlt: bool, col: nat, row: nat, st: Style) returns (resized: bool, newCol: int, newRow: int)
      requires Valid() && D.Ok(CurrentScreens()) && toAlt == (screen == mainBuffer) && TextStyle.IsEncoded(st)
      requires if toAlt then col < columns && row < rows
        else col < mainBuffer.page.columns && row < |mainBuffer.page.screen|
      modifies (if toAlt then altBuffer.Repr else mainBuffer.Repr), this`screen
      ensures BuffersValid() && D.Ok(CurrentScreens()) && (toAlt <==> screen == altBuffer)
      ensures fresh(screen.Repr - old(if toAlt then altBuffer.Repr else mainBuffer.Repr))
      ensures (CurrentScreens(), resized, newCol, newRow) == D.SwitchTo(old(CurrentScreens()), toAlt, col, row, st)
    {
      hide TerminalBuffer.Valid, P.Good, Inv, D.Resize, D.Styled, TextStyle.IsEncoded;
      mainBuffer.Numbers();
      altBuffer.Numbers();
      ghost var s := D.Switch(CurrentScreens(), toAlt);
      screen := if toAlt then altBuffer else mainBuffer;
      assert CurrentScreens() == s;
      resized := !(screen.columns == columns && screen.screenRows == rows);
      newCol, newRow := 0, 0;
      if resized {
        newCol, newRow := ResizeScreen(col, row, st);
      }
    }

    /** Shows the alternate screen, brought to the right size. */
    method ToAlternate()
      requires Valid() && screen != altBuffer && savedStateMain.row < rows && savedStateMain.col < columns
      modifies altBuffer.Repr, this`screen, this`cursorRow, this`cursorCol
      ensures Valid() && fresh(altBuffer.Repr - old(altBuffer.Repr)) && screen == altBuffer
      ensures State() == C.ToAlternate(old(State()))
    {
      hide TerminalBuffer.Valid, P.Good, Inv, D.Ok, D.SwitchTo, PenStyle, PenOk, TextStyle.IsEncoded;
      ScreenFits();
      ghost var t := C.ToAlternate(State());
      PenIsOk();
      var st := GetStyle();
      var resized, col, row := SwitchScreen(true, cursorCol, cursorRow, st);
      PlaceCursor(if resized then row else cursorRow, if resized then col else cursorCol, t);
    }

    /** The cursor's place after the screen has been switched. */
    method PlaceCursor(row: nat, col: nat, ghost t: Terminal)
      requires BuffersValid() && Inv(t) && t == State().(cursor := Cursor(row, col, aboutToAutoWrap))
      modifies this`cursorRow, this`cursorCol
      ensures Valid() && State() == t
    {
      assert 2 <= columns && 2 <= rows;
      hide TerminalBuffer.Valid, D.Ok, D.OkButSize, PenOk, SavedOk, ParserOk;
      cursorRow, cursorCol := row, col;
      assert State() == t;
    }

    /** Saves the cursor and shows the alternate screen, cleared. */
    method EnterAlternate()
      requires Valid() && screen != altBuffer
      modifies altBuffer.Repr, this`screen, this`cursorRow, this`cursorCol, this`savedStateMain, this`savedStateAlt
      ensures Valid() && fresh(altBuffer.Repr - old(altBuffer.Repr)) && screen == altBuffer
      ensures State() == C.EnterAlternate(old(State()))
    {
      hide TerminalBuffer.Valid, Inv, C.ToAlternate, C.BlockClear;
      SaveCursor();
      ToAlternate();
      BlockClear(0, 0, columns, rows);
    }

    /** Shows the main screen and restores its cursor. */
    method LeaveAlternate()
      requires Valid() && screen == altBuffer
      modifies mainBuffer.Repr, this`screen, this`cursorRow, this`cursorCol, this`aboutToAutoWrap,
        this`foreColor, this`backColor, this`effect,
        this`currentDecSetFlags, this`useLineDrawingG0, this`useLineDrawingG1, this`useLineDrawingUsesG0
      ensures Valid() && fresh(mainBuffer.Repr - old(mainBuffer.Repr)) && screen == mainBuffer
      ensures State() == C.LeaveAlternate(old(State()))
    {
      hide TerminalBuffer.Valid, P.Good, Inv, D.Ok, D.OkButSize, D.SwitchTo, PenStyle, T.RestoreCursor, T.PutCursor,
        PenOk;
      ScreenFits();
      SavedPlace();
      var resized, col, row := ShowMain();
      RestoreCursor();
      if resized {
        PutCursor(row, col);
      }
    }

    /** The main cursor was saved on the main buffer's own screen. */
    lemma SavedPlace()
      requires Valid() && screen == altBuffer
      ensures savedStateMain.row < |mainBuffer.page.screen| && savedStateMain.col < mainBuffer.page.columns
      ensures PenOk(savedStateMain.pen)
    {
      hide TerminalBuffer.Valid, P.Good, PenOk, D.Styled;
    }

    method ShowMain() returns (resized: bool, newCol: int, newRow: int)
      requires Valid() && screen == altBuffer && D.Ok(CurrentScreens())
      requires savedStateMain.row < |mainBuffer.page.screen| && savedStateMain.col < mainBuffer.page.columns
      requires PenOk(savedStateMain.pen)
      modifies mainBuffer.Repr, this`screen
      ensures Valid() && fresh(mainBuffer.Repr - old(mainBuffer.Repr)) && screen == mainBuffer
      ensures State() == old(State()).(screens := CurrentScreens())
      ensures (CurrentScreens(), resized, newCol, newRow) ==
        D.SwitchTo(old(CurrentScreens()), false, savedStateMain.col, savedStateMain.row, PenStyle(savedStateMain.pen))
    {
      hide TerminalBuffer.Valid, P.Good, Inv, D.Ok, D.OkButSize, D.SwitchTo, PenOk, TextStyle.IsEncoded;
      var pen := savedStateMain.pen;
      var st := TextStyle.Encode(pen.fore, pen.back, pen.effect);
      assert st == PenStyle(pen);
      resized, newCol, newRow := SwitchScreen(false, savedStateMain.col, savedStateMain.row, st);
      ghost var t := C.ShowMain(old(State()), CurrentScreens());
      assert State() == t;
    }

    method PutCursor(row: nat, col: nat)
      requires Valid() && row < rows && col < columns
      modifies this`cursorRow, this`cursorCol, this`aboutToAutoWrap
      ensures Valid() && State() == T.PutCursor(old(State()), row, col)
    {
      hide TerminalBuffer.Valid, Inv;
      ghost var t := T.PutCursor(State(), row, col);
      cursorRow, cursorCol, aboutToAutoWrap := row, col, false;
      assert State() == t;
    }

    // ----- DEC private modes -----

    method UseAlternate(setting: bool)
      requires Valid()
      modifies mainBuffer.Repr, altBuffer.Repr, this`screen, this`cursorRow, this`cursorCol, this`aboutToAutoWrap,
        this`topMargin, this`bottomMargin, this`leftMargin, this`rightMargin,
        this`foreColor, this`backColor, this`effect,
        this`useLineDrawingG0, this`useLineDrawingG1, this`useLineDrawingUsesG0,
        this`currentDecSetFlags, this`savedStateMain, this`savedStateAlt
      ensures Valid() && fresh(mainBuffer.Repr - old(mainBuffer.Repr)) && fresh(altBuffer.Repr - old(altBuffer.Repr))
      ensures State() == I.UseAlternate(old(State()), setting)
    {
      hide TerminalBuffer.Valid, Inv, C.EnterAlternate, C.LeaveAlternate;
      var newScreen := if setting then altBuffer else mainBuffer;
      if newScreen != screen {
        if setting {
          EnterAlternate();
        } else {
          LeaveAlternate();
        }
      }
    }

    /** DECCOLM: the number of columns does not change, but its side effects happen. */
    method ColumnMode()
      requires Valid()
      modifies screen.Repr, this`cursorRow, this`cursorCol, this`aboutToAutoWrap,
        this`topMargin, this`bottomMargin, this`leftMargin, this`rightMargin, this`currentDecSetFlags
      ensures Valid() && fresh(screen.Repr - old(screen.Repr))
      ensures State() == C.ColumnMode(old(State()))
    {
      hide TerminalBuffer.Valid, Inv, T.SetMargins, T.SetFlag, C.BlockClear, T.SetCursorRowCol;
      SetMargins(0, rows);
      SetDecSetFlag(LeftRightMargins, false);
      BlockClear(0, 0, columns, rows);
      SetCursorRowCol(0, 0);
    }

    /** What a mode does besides its flag. */
    method ModeEffect(setting: bool, bit: int)
      requires Valid()
      modifies mainBuffer.Repr, altBuffer.Repr, this`screen, this`cursorRow, this`cursorCol, this`aboutToAutoWrap,
        this`topMargin, this`bottomMargin, this`leftMargin, this`rightMargin,
        this`foreColor, this`backColor, this`effect,
        this`useLineDrawingG0, this`useLineDrawingG1, this`useLineDrawingUsesG0,
        this`currentDecSetFlags, this`savedStateMain, this`savedStateAlt
      ensures Valid() && fresh(mainBuffer.Repr - old(mainBuffer.Repr)) && fresh(altBuffer.Repr - old(altBuffer.Repr))
      ensures State() == I.ModeEffect(old(State()), setting, bit)
    {
      hide TerminalBuffer.Valid, Inv, I.UseAlternate, C.ColumnMode, T.SetCursorPosition, T.SaveCursor, T.RestoreCursor,
        T.SetMargins;
      if bit == 3 {
        ColumnMode();
      } else if bit == 6 {
        if setting {
          SetCursorPosition(0, 0);
        }
      } else if bit == 69 {
        if !setting {
          SetMargins(topMargin, bottomMargin);
        }
      } else if bit == 1048 {
        if setting {
          SaveCursor();
        } else {
          RestoreCursor();
        }
      } else if bit == 47 || bit == 1047 || bit == 1049 {
        UseAlternate(setting);
      }
    }

    /** doDecSetOrReset. */
    method DecSetOrReset(setting: bool, bit: int)
      requires Valid()
      modifies mainBuffer.Repr, altBuffer.Repr, this`screen, this`cursorRow, this`cursorCol, this`aboutToAutoWrap,
        this`topMargin, this`bottomMargin, this`leftMargin, this`rightMargin,
        this`foreColor, this`backColor, this`effect,
        this`useLineDrawingG0, this`useLineDrawingG1, this`useLineDrawingUsesG0,
        this`currentDecSetFlags, this`savedStateMain, this`savedStateAlt
      ensures Valid() && fresh(mainBuffer.Repr - old(mainBuffer.Repr)) && fresh(altBuffer.Repr - old(altBuffer.Repr))
      ensures State() == I.DecSetOrReset(old(State()), setting, bit)
    {
      hide TerminalBuffer.Valid, Inv, I.ModeEffect, C.ModeFlag, T.SetFlag;
      var flag := C.ModeFlag(bit);
      if flag.Some? {
        SetDecSetFlag(flag.value, setting);
      }
      ModeEffect(setting, bit);
    }

    /** DECSET and DECRST go through all arguments. */
    method DecSetAll(setting: bool)
      requires Valid()
      modifies mainBuffer.Repr, altBuffer.Repr, this`screen, this`cursorRow, this`cursorCol, this`aboutToAutoWrap,
        this`topMargin, this`bottomMargin, this`leftMargin, this`rightMargin,
        this`foreColor, this`backColor, this`effect,
        this`useLineDrawingG0, this`useLineDrawingG1, this`useLineDrawingUsesG0,
        this`currentDecSetFlags, this`savedStateMain, this`savedStateAlt
      ensures Valid() && fresh(mainBuffer.Repr - old(mainBuffer.Repr)) && fresh(altBuffer.Repr - old(altBuffer.Repr))
      ensures State() == I.DecSetAll(old(State()), setting, 0)
    {
      hide TerminalBuffer.Valid, Inv, I.DecSetOrReset, I.DecSetAll, Separate;
      var last := LastArg();
      var i := 0;
      while i <= last
        invariant Valid() && fresh(mainBuffer.Repr - old(mainBuffer.Repr))
        invariant fresh(altBuffer.Repr - old(altBuffer.Repr))
        invariant CurrentParser() == old(CurrentParser())
        invariant I.DecSetAll(State(), setting, i) == I.DecSetAll(old(State()), setting, 0)
      {
        ghost var t := State();
        DecSetArg(setting, i);
        I.DecSetAllUnfold(t, setting, i);
        i := i + 1;
      }
      I.DecSetAllEnds(State(), setting, i);
    }

    method LastArg() returns (last: nat)
      requires Valid()
      ensures last == CsiArgs.LastArg(CurrentParser().args) && last < MAX_ESCAPE_PARAMETERS
    {
      hide TerminalBuffer.Valid, Inv;
      last := if argIndex >= args.Length then args.Length - 1 else argIndex;
    }

    method DecSetArg(setting: bool, i: nat)
      requires Valid() && i < MAX_ESCAPE_PARAMETERS
      modifies mainBuffer.Repr, altBuffer.Repr, this`screen, this`cursorRow, this`cursorCol, this`aboutToAutoWrap,
        this`topMargin, this`bottomMargin, this`leftMargin, this`rightMargin,
        this`foreColor, this`backColor, this`effect,
        this`useLineDrawingG0, this`useLineDrawingG1, this`useLineDrawingUsesG0,
        this`currentDecSetFlags, this`savedStateMain, this`savedStateAlt
      ensures Valid() && fresh(mainBuffer.Repr - old(mainBuffer.Repr)) && fresh(altBuffer.Repr - old(altBuffer.Repr))
      ensures CurrentParser() == old(CurrentParser())
      ensures State() == I.DecSetOrReset(old(State()), setting, old(CurrentParser()).args.values[i])
    {
      hide TerminalBuffer.Valid, Inv, I.DecSetOrReset;
      DecSetOrReset(setting, args[i]);
    }

    /** Saving or restoring modes goes through all arguments. */
    method SaveOrRestoreAll(save: bool)
      requires Valid()
      modifies mainBuffer.Repr, altBuffer.Repr, this`screen, this`cursorRow, this`cursorCol, this`aboutToAutoWrap,
        this`topMargin, this`bottomMargin, this`leftMargin, this`rightMargin,
        this`foreColor, this`backColor, this`effect,
        this`useLineDrawingG0, this`useLineDrawingG1, this`useLineDrawingUsesG0,
        this`currentDecSetFlags, this`savedStateMain, this`savedStateAlt, this`savedDecSetFlags
      ensures Valid() && fresh(mainBuffer.Repr - old(mainBuffer.Repr)) && fresh(altBuffer.Repr - old(altBuffer.Repr))
      ensures State() == I.SaveOrRestoreAll(old(State()), save, 0)
    {
      hide TerminalBuffer.Valid, Inv, I.SaveMode, I.RestoreMode, I.SaveOrRestoreAll, Separate;
      var last := LastArg();
      var i := 0;
      while i <= last
        invariant Valid() && fresh(mainBuffer.Repr - old(mainBuffer.Repr))
        invariant fresh(altBuffer.Repr - old(altBuffer.Repr))
        invariant CurrentParser() == old(CurrentParser())
        invariant I.SaveOrRestoreAll(State(), save, i) == I.SaveOrRestoreAll(old(State()), save, 0)
      {
        ghost var t := State();
        var bit := ArgAt(i);
        SaveOrRestoreMode(save, bit);
        I.SaveOrRestoreAllUnfold(t, save, i);
        i := i + 1;
      }
      I.SaveOrRestoreAllEnds(State(), save, i);
    }

    method ArgAt(i: nat) returns (n: int)
      requires Valid() && i < MAX_ESCAPE_PARAMETERS
      ensures |CurrentParser().args.values| == MAX_ESCAPE_PARAMETERS && n == CurrentParser().args.values[i]
    {
      hide TerminalBuffer.Valid, Inv;
      n := args[i];
    }

    method SaveOrRestoreMode(save: bool, bit: int)
      requires Valid()
      modifies mainBuffer.Repr, altBuffer.Repr, this`screen, this`cursorRow, this`cursorCol, this`aboutToAutoWrap,
        this`topMargin, this`bottomMargin, this`leftMargin, this`rightMargin,
        this`foreColor, this`backColor, this`effect,
        this`useLineDrawingG0, this`useLineDrawingG1, this`useLineDrawingUsesG0,
        this`currentDecSetFlags, this`savedStateMain, this`savedStateAlt, this`savedDecSetFlags
      ensures Valid() && fresh(mainBuffer.Repr - old(mainBuffer.Repr)) && fresh(altBuffer.Repr - old(altBuffer.Repr))
      ensures CurrentParser() == old(CurrentParser())
      ensures State() == if save then I.SaveMode(old(State()), bit) else I.RestoreMode(old(State()), bit)
    {
      hide Separate, TerminalBuffer.Valid, Inv, I.SaveMode, I.RestoreMode;
      if save {
        SaveMode(bit);
      } else {
        RestoreMode(bit);
      }
    }

    method SaveMode(bit: int)
      requires Valid()
      modifies this`savedDecSetFlags
      ensures CurrentParser() == old(CurrentParser())
      ensures Valid() && State() == I.SaveMode(old(State()), bit)
    {
      hide TerminalBuffer.Valid, Inv, C.ModeFlag;
      ghost var t := I.SaveMode(State(), bit);
      var flag := C.ModeFlag(bit);
      if flag.Some? {
        savedDecSetFlags := savedDecSetFlags + {flag.value};
      }
      assert State() == t;
    }

    method RestoreMode(bit: int)
      requires Valid()
      modifies mainBuffer.Repr, altBuffer.Repr, this`screen, this`cursorRow, this`cursorCol, this`aboutToAutoWrap,
        this`topMargin, this`bottomMargin, this`leftMargin, this`rightMargin,
        this`foreColor, this`backColor, this`effect,
        this`useLineDrawingG0, this`useLineDrawingG1, this`useLineDrawingUsesG0,
        this`currentDecSetFlags, this`savedStateMain, this`savedStateAlt
      ensures Valid() && fresh(mainBuffer.Repr - old(mainBuffer.Repr)) && fresh(altBuffer.Repr - old(altBuffer.Repr))
      ensures CurrentParser() == old(CurrentParser())
      ensures State() == I.RestoreMode(old(State()), bit)
    {
      hide TerminalBuffer.Valid, Inv, C.ModeFlag, I.DecSetOrReset;
      var flag := C.ModeFlag(bit);
      if flag.Some? {
        DecSetOrReset(flag.value in savedDecSetFlags, bit);
      }
    }

    // ----- The parser -----

    method Goto(state: EscapeState)
      requires Valid()
      modifies this`escapeState
      ensures Valid() && State() == I.Goto(old(State()), state)
    {
      hide TerminalBuffer.Valid, Inv;
      ghost var t := I.Goto(State(), state);
      escapeState := state;
      assert State() == t;
    }

    method FinishSequence()
      requires Valid()
      modifies this`escapeState
      ensures Valid() && State() == I.Finish(old(State()))
    {
      hide TerminalBuffer.Valid, Inv, I.Goto;
      Goto(NoEscape);
    }

    method StartEscapeSequence()
      requires Valid()
      modifies this`escapeState, this`argIndex, args
      ensures Valid() && State() == I.StartEscapeSequence(old(State()))
    {
      hide TerminalBuffer.Valid, Inv;
      ghost var t := I.StartEscapeSequence(State());
      escapeState, argIndex := Esc, 0;
      forall i | 0 <= i < args.Length {
        args[i] := -1;
      }
      assert args[..] == NoArgs().values;
      assert State() == t;
    }

    /** parseArg. */
    method ParseArg(b: CodePoint)
      requires Valid()
      modifies this`escapeState, this`argIndex, args
      ensures Valid() && State() == I.ArgChar(old(State()), b)
    {
      hide TerminalBuffer.Valid, Inv;
      ghost var t := I.ArgChar(State(), b);
      if DIGIT_0 <= b <= DIGIT_0 + 9 {
        if argIndex < args.Length {
          var oldValue, thisDigit := args[argIndex], b - DIGIT_0;
          args[argIndex] := if oldValue >= 0 then oldValue * 10 + thisDigit else thisDigit;
        }
      } else if b == SEMICOLON {
        if argIndex < args.Length {
          argIndex := argIndex + 1;
        }
      } else {
        escapeState := NoEscape;
      }
      assert State() == t;
    }

    method StartString(state: EscapeState)
      requires Valid()
      modifies this`escapeState, this`collected
      ensures Valid() && State() == I.StartString(old(State()), state)
    {
      hide TerminalBuffer.Valid, Inv;
      ghost var t := I.StartString(State(), state);
      escapeState, collected := state, 0;
      assert State() == t;
    }

    method CollectOsc(c: CodePoint)
      requires Valid()
      modifies this`escapeState, this`collected
      ensures Valid() && State() == I.CollectOsc(old(State()), c)
    {
      hide TerminalBuffer.Valid, Inv;
      ghost var t := I.CollectOsc(State(), c);
      if collected < I.MAX_OSC_STRING_LENGTH {
        collected := collected + CharCount(c);
      } else {
        escapeState := NoEscape;
      }
      assert State() == t;
    }

    method DoOsc(b: CodePoint)
      requires Valid()
      modifies this`escapeState, this`collected
      ensures Valid() && State() == I.DoOsc(old(State()), b)
    {
      hide TerminalBuffer.Valid, Inv, I.Finish, I.Goto, I.CollectOsc;
      if b == 7 {
        FinishSequence();
      } else if b == 27 {
        Goto(OscEsc);
      } else {
        CollectOsc(b);
      }
    }

    method DoOscEsc(b: CodePoint)
      requires Valid()
      modifies this`escapeState, this`collected
      ensures Valid() && State() == I.DoOscEsc(old(State()), b)
    {
      hide TerminalBuffer.Valid, Inv, I.Finish, I.Goto, I.CollectOsc;
      if b == 92 {
        FinishSequence();
      } else {
        CollectOsc(27);
        CollectOsc(b);
        Goto(Osc);
      }
    }

    method DoDeviceControl(b: CodePoint)
      requires Valid()
      modifies this`escapeState, this`collected
      ensures Valid() && State() == I.DoDeviceControl(old(State()), b)
    {
      hide TerminalBuffer.Valid, Inv;
      ghost var t := I.DoDeviceControl(State(), b);
      if b == 92 {
        escapeState := NoEscape;
      } else if collected > I.MAX_OSC_STRING_LENGTH {
        collected, escapeState := 0, NoEscape;
      } else {
        collected := collected + CharCount(b);
      }
      assert State() == t;
    }

    method Reply(s: seq<CodePoint>)
      requires Valid()
      modifies this`sent
      ensures Valid() && State() == I.Reply(old(State()), s)
    {
      hide TerminalBuffer.Valid, Inv;
      ghost var t := I.Reply(State(), s);
      sent := sent + s;
      assert State() == t;
    }

    // ----- Commands -----

    /** The first argument, of which zero counts as missing. */
    method Arg0(defaultValue: int) returns (n: int)
      requires Valid()
      ensures n == I.Arg0(State(), defaultValue)
    {
      hide TerminalBuffer.Valid, Inv;
      n := GetArg(0, defaultValue, true);
    }

    /** RIS. */
    method FullReset()
      requires Valid()
      modifies Footprint()
      ensures Valid() && fresh(Footprint() - old(Footprint()))
      ensures State() == I.FullReset(old(State()))
    {
      hide TerminalBuffer.Valid, Inv, T.Reset, C.ClearTranscript, C.BlockClear, T.SetCursorPosition;
      Reset();
      ClearTranscript();
      BlockClear(0, 0, columns, rows);
      SetCursorPosition(0, 0);
    }

    method NextLine()
      requires Valid()
      modifies screen.Repr, this`cursorRow, this`cursorCol, this`aboutToAutoWrap
      ensures Valid() && fresh(screen.Repr - old(screen.Repr))
      ensures State() == I.NextLine(old(State()))
    {
      hide TerminalBuffer.Valid, Inv, T.SetCursorCol, T.Linefeed;
      SetCursorCol(if OriginMode in currentDecSetFlags then leftMargin else 0);
      DoLinefeed();
    }

    /** Escape sequences of one character that move the cursor or the screen. */
    method EscMotion(b: CodePoint)
      requires Valid()
      modifies screen.Repr, this`cursorRow, this`cursorCol, this`aboutToAutoWrap
      ensures Valid() && fresh(screen.Repr - old(screen.Repr))
      ensures State() == I.EscMotion(old(State()), b)
    {
      hide TerminalBuffer.Valid, Inv, C.BackIndex, C.ForwardIndex, T.Linefeed, I.NextLine, T.SetCursorRowCol,
        C.ReverseIndex;
      if b == 54 {
        BackIndex();
      } else if b == 57 {
        ForwardIndex();
      } else if b == 68 {
        DoLinefeed();
      } else if b == 69 {
        NextLine();
      } else if b == 70 {
        SetCursorRowCol(0, bottomMargin - 1);
      } else if b == 77 {
        ReverseIndex();
      }
    }

    /** Escape sequences of one character that change settings. */
    method EscSetting(b: CodePoint)
      requires Valid()
      modifies this`cursorRow, this`cursorCol, this`aboutToAutoWrap, this`foreColor, this`backColor, this`effect,
        this`currentDecSetFlags, this`useLineDrawingG0, this`useLineDrawingG1, this`useLineDrawingUsesG0,
        this`savedStateMain, this`savedStateAlt, tabStop
      ensures Valid() && State() == I.EscSetting(old(State()), b)
    {
      hide TerminalBuffer.Valid, Inv, T.SaveCursor, T.RestoreCursor, T.SetTabStops, T.SetFlag;
      if b == 55 {
        SaveCursor();
      } else if b == 56 {
        RestoreCursor();
      } else if b == 72 {
        SetTabStop(true);
      } else if b == 61 {
        SetDecSetFlag(ApplicationKeypad, true);
      } else if b == 62 {
        SetDecSetFlag(ApplicationKeypad, false);
      }
    }

    method EscCommand(b: CodePoint)
      requires Valid()
      modifies Footprint()
      ensures Valid() && fresh(Footprint() - old(Footprint()))
      ensures State() == I.EscCommand(old(State()), b)
    {
      hide TerminalBuffer.Valid, Inv, I.EscSetting, I.EscMotion, I.IsEscSetting;
      if I.IsEscSetting(b) {
        EscSetting(b);
      } else {
        EscMotion(b);
      }
    }

    /** doEsc. */
    method DoEsc(b: CodePoint)
      requires Valid()
      modifies Footprint()
      ensures Valid() && fresh(Footprint() - old(Footprint()))
      ensures State() == I.DoEsc(old(State()), b)
    {
      hide TerminalBuffer.Valid, Inv, I.EscCommand, I.FullReset, I.Finish, I.Goto, I.StartString, I.EscNext;
      var next := I.EscNext(b);
      if next.Some? {
        if next.value == Osc || next.value == DeviceControl {
          StartString(next.value);
        } else {
          Goto(next.value);
        }
      } else {
        if b == 99 {
          FullReset();
        } else {
          EscCommand(b);
        }
        FinishSequence();
      }
    }

    method DoEscPound(b: CodePoint)
      requires Valid()
      modifies screen.Repr, this`escapeState
      ensures Valid() && fresh(screen.Repr - old(screen.Repr))
      ensures State() == I.DoEscPound(old(State()), b)
    {
      hide TerminalBuffer.Valid, Inv, D.Fill, D.Ok, T.Edit, I.Finish, PenStyle;
      LatinIsNarrow(69);
      if b == 56 {
        PenIsOk();
        var st := GetStyle();
        BlockSet(0, 0, columns, rows, 69, st);
      }
      FinishSequence();
    }

    /** DECSTBM. */
    method SetTopBottom()
      requires Valid()
      modifies this`topMargin, this`bottomMargin, this`leftMargin, this`rightMargin,
        this`cursorRow, this`cursorCol, this`aboutToAutoWrap
      ensures Valid() && State() == I.SetTopBottom(old(State()))
    {
      hide TerminalBuffer.Valid, Inv, T.SetMargins, T.SetCursorPosition, C.Arg;
      var a0 := Arg(0, 1);
      var a1 := Arg(1, rows);
      var top := Max(0, Min(a0 - 1, rows - 2));
      SetMargins(top, Max(top + 2, Min(a1, rows)));
      SetCursorPosition(0, 0);
    }

    /** The loop of selectGraphicRendition. */
    static method SelectPen(start: Pen, args: array<int>, last: nat) returns (pen: Pen)
      requires PenOk(start) && last < args.Length
      ensures PenOk(pen) && pen == Sgr.Select(start, args[..], last, 0)
    {
      hide PenOk, Sgr.One;
      var i := 0;
      pen := start;
      while i <= last
        invariant PenOk(pen)
        invariant Sgr.Select(pen, args[..], last, i) == Sgr.Select(start, args[..], last, 0)
        decreases last + 1 - i
      {
        Sgr.OneKeeps(pen, args[..], last, i);
        var (next, n) := Sgr.One(pen, args[..], last, i);
        pen, i := next, i + n;
      }
    }

    method SelectGraphicRendition()
      requires Valid()
      modifies this`foreColor, this`backColor, this`effect
      ensures Valid() && State() == I.SelectGraphicRendition(old(State()))
    {
      hide TerminalBuffer.Valid, Inv, PenOk, Sgr.Select, T.SetPen;
      PenIsOk();
      var last := LastArg();
      var pen := SelectPen(Pen(foreColor, backColor, effect), args, last);
      SetPen(pen);
    }

    lemma PenIsOk()
      requires Valid()
      ensures PenOk(CurrentPen())
    {
      hide TerminalBuffer.Valid, PenOk;
    }

    /** Moving the cursor along its row or column. */
    method StepCommand(b: CodePoint)
      requires Valid()
      modifies this`cursorRow, this`cursorCol, this`aboutToAutoWrap
      ensures Valid() && State() == I.StepCommand(old(State()), b)
    {
      hide TerminalBuffer.Valid, Inv, C.Arg, T.SetCursorRow, T.SetCursorCol;
      var n := Arg(0, 1);
      if b == 65 {
        SetCursorRow(Max(0, cursorRow - n));
      } else if b == 66 {
        SetCursorRow(Min(rows - 1, cursorRow + n));
      } else if b == 67 || b == 97 {
        SetCursorCol(Min(rightMargin - 1, cursorCol + n));
      } else if b == 68 {
        SetCursorCol(Max(leftMargin, cursorCol - n));
      } else if b == 71 {
        SetCursorCol(Min(Max(1, n), columns) - 1);
      } else if b == 100 {
        SetCursorRow(Min(Max(1, n), rows) - 1);
      }
    }

    /** Moving the cursor to a tab stop. */
    method TabCommand(b: CodePoint)
      requires Valid()
      modifies this`cursorRow, this`cursorCol, this`aboutToAutoWrap
      ensures Valid() && State() == I.TabCommand(old(State()), b)
    {
      hide TerminalBuffer.Valid, Inv, C.Arg, T.SetCursorCol, T.MoveTo, T.NextTabStop, T.PreviousTabStop;
      var n := Arg(0, 1);
      if b == 73 {
        var col := NextTabStop(n);
        SetCursorCol(col);
      } else if b == 90 {
        var col := PreviousTabStop(n);
        MoveTo(cursorRow, col);
      }
    }

    /** Moving the cursor to a position, which depends on origin mode. */
    method PositionCommand(b: CodePoint)
      requires Valid()
      modifies this`cursorRow, this`cursorCol, this`aboutToAutoWrap
      ensures Valid() && State() == I.PositionCommand(old(State()), b)
    {
      hide TerminalBuffer.Valid, Inv, C.Arg, T.SetCursorPosition;
      var n := Arg(0, 1);
      if b == 69 {
        SetCursorPosition(0, cursorRow + n);
      } else if b == 70 {
        SetCursorPosition(0, cursorRow - n);
      } else if b == 72 || b == 102 {
        var a1 := Arg(1, 1);
        SetCursorPosition(a1 - 1, n - 1);
      } else if b == 96 {
        SetCursorPosition(n - 1, cursorRow);
      } else if b == 101 {
        SetCursorPosition(cursorCol, cursorRow + n);
      }
    }

    /** Changing what is on the screen. */
    method EditCommand(b: CodePoint)
      requires Valid()
      modifies Footprint()
      ensures Valid() && fresh(Footprint() - old(Footprint()))
      ensures State() == I.EditCommand(old(State()), b)
    {
      hide TerminalBuffer.Valid, Inv, C.Arg, I.Arg0, C.InsertCharacters, C.EraseInDisplay, C.EraseInLine, C.InsertLines,
        C.DeleteLines, C.DeleteCharacters, C.ScrollUpLines, C.ScrollDownLines, C.EraseCharacters, C.Repeat;
      var n := Arg(0, 1);
      if b == 64 {
        InsertCharacters(n);
      } else if b == 74 {
        var arg := Arg0(0);
        EraseInDisplay(arg);
      } else if b == 75 {
        var arg := Arg0(0);
        EraseInLine(arg);
      } else if b == 76 {
        InsertLines(n);
      } else if b == 77 {
        DeleteLines(n);
      } else if b == 80 {
        DeleteCharacters(n);
      } else if b == 83 {
        ScrollUpLines(n);
      } else if b == 84 {
        if argIndex == 0 {
          ScrollDownLines(n);
        }
      } else if b == 88 {
        EraseCharacters(n);
      } else if b == 98 {
        if lastEmittedCodePoint.Some? {
          Repeat(lastEmittedCodePoint.value, n);
        }
      }
    }

    method SetMode(value: bool)
      requires Valid()
      modifies this`insertMode
      ensures Valid() && State() == I.SetMode(old(State()), value)
    {
      hide TerminalBuffer.Valid, Inv, I.Arg0;
      ghost var t := I.SetMode(State(), value);
      var mode := Arg0(0);
      if mode == 4 {
        insertMode := value;
      }
      assert State() == t;
    }

    /** Margins, and saving the cursor. */
    method MarginCommand(b: CodePoint)
      requires Valid() && !(b == 115 && LeftRightMargins in currentDecSetFlags)
      modifies this`cursorRow, this`cursorCol, this`aboutToAutoWrap, this`foreColor, this`backColor, this`effect,
        this`currentDecSetFlags, this`useLineDrawingG0, this`useLineDrawingG1, this`useLineDrawingUsesG0,
        this`savedStateMain, this`savedStateAlt, this`topMargin, this`bottomMargin, this`leftMargin, this`rightMargin
      ensures Valid() && State() == I.MarginCommand(old(State()), b)
    {
      hide TerminalBuffer.Valid, Inv, I.SetTopBottom, T.SaveCursor, T.RestoreCursor;
      if b == 114 {
        SetTopBottom();
      } else if b == 115 {
        SaveCursor();
      } else if b == 117 {
        RestoreCursor();
      }
    }

    method ClearTabStop(arg: int)
      requires Valid()
      modifies tabStop
      ensures Valid() && State() == I.ClearTabStops(old(State()), arg)
    {
      hide TerminalBuffer.Valid, Inv, T.SetTabStops, I.NoTabStops;
      if arg == 0 {
        SetTabStop(false);
      } else if arg == 3 {
        ClearTabStops();
      }
    }

    /** Tab stops, modes, the pen and replies. */
    method ModeCommand(b: CodePoint)
      requires Valid()
      modifies tabStop, this`insertMode, this`foreColor, this`backColor, this`effect, this`sent
      ensures Valid() && State() == I.ModeCommand(old(State()), b)
    {
      hide TerminalBuffer.Valid, Inv, I.Arg0, I.SetMode, I.SelectGraphicRendition, I.Reply, I.CursorReport,
        I.ClearTabStops;
      if b == 103 {
        var arg := Arg0(0);
        ClearTabStop(arg);
      } else if b == 104 {
        SetMode(true);
      } else if b == 108 {
        SetMode(false);
      } else if b == 109 {
        SelectGraphicRendition();
      } else if b == 110 {
        var arg := Arg0(0);
        if arg == 6 {
          Reply(I.CursorReport(Cursor(cursorRow, cursorCol, aboutToAutoWrap)));
        }
      }
    }

    method CsiCommand(b: CodePoint)
      requires Valid() && !(b == 115 && LeftRightMargins in currentDecSetFlags)
      modifies Footprint()
      ensures Valid() && fresh(Footprint() - old(Footprint()))
      ensures State() == I.CsiCommand(old(State()), b)
    {
      hide TerminalBuffer.Valid, Inv, I.Steps, I.Positions, I.Tabs, I.Edits, I.IsMarginCommand, I.StepCommand,
        I.PositionCommand,
        I.TabCommand, I.EditCommand, I.MarginCommand, I.ModeCommand;
      if !I.Steps(b) && !I.Positions(b) && !I.Tabs(b) && I.Edits(b) {
        EditCommand(b);
      } else {
        CursorCommand(b);
      }
    }

    /** Control sequences that leave the screens alone. */
    method CursorCommand(b: CodePoint)
      requires Valid() && !(b == 115 && LeftRightMargins in currentDecSetFlags)
      requires I.Steps(b) || I.Positions(b) || I.Tabs(b) || !I.Edits(b)
      modifies this`cursorRow, this`cursorCol, this`aboutToAutoWrap, this`foreColor, this`backColor, this`effect,
        this`currentDecSetFlags, this`useLineDrawingG0, this`useLineDrawingG1, this`useLineDrawingUsesG0,
        this`savedStateMain, this`savedStateAlt, this`topMargin, this`bottomMargin, this`leftMargin, this`rightMargin,
        tabStop, this`insertMode, this`sent
      ensures Valid() && State() == I.CsiCommand(old(State()), b)
    {
      hide TerminalBuffer.Valid, Inv, I.Steps, I.Positions, I.Tabs, I.Edits, I.IsMarginCommand, I.StepCommand,
        I.PositionCommand,
        I.TabCommand, I.EditCommand, I.MarginCommand, I.ModeCommand;
      if I.Steps(b) {
        StepCommand(b);
      } else if I.Positions(b) {
        PositionCommand(b);
      } else if I.Tabs(b) {
        TabCommand(b);
      } else if I.IsMarginCommand(b) {
        MarginCommand(b);
      } else {
        ModeCommand(b);
      }
    }

    /** doCsi. */
    method DoCsi(b: CodePoint)
      requires Valid() && !(b == 115 && LeftRightMargins in currentDecSetFlags)
      modifies Footprint()
      ensures Valid() && fresh(Footprint() - old(Footprint()))
      ensures State() == I.DoCsi(old(State()), b)
    {
      hide TerminalBuffer.Valid, Inv, I.CsiNext, I.Goto, I.ArgChar, I.CsiCommand, I.Finish, IsArgChar;
      var next := I.CsiNext(b);
      if next.Some? {
        Goto(next.value);
      } else if IsArgChar(b) {
        ParseArg(b);
      } else {
        CsiCommand(b);
        FinishSequence();
      }
    }

    // ----- Other control sequences -----

    /** DECSET, DECRST, and saving and restoring modes. */
    method PrivateModes(b: CodePoint)
      requires Valid() && b in {104, 108, 114, 115}
      modifies mainBuffer.Repr, altBuffer.Repr, this`screen, this`cursorRow, this`cursorCol, this`aboutToAutoWrap,
        this`topMargin, this`bottomMargin, this`leftMargin, this`rightMargin,
        this`foreColor, this`backColor, this`effect,
        this`useLineDrawingG0, this`useLineDrawingG1, this`useLineDrawingUsesG0,
        this`currentDecSetFlags, this`savedStateMain, this`savedStateAlt, this`savedDecSetFlags
      ensures Valid() && fresh(mainBuffer.Repr - old(mainBuffer.Repr)) && fresh(altBuffer.Repr - old(altBuffer.Repr))
      ensures State() == I.PrivateCommand(old(State()), b)
    {
      hide TerminalBuffer.Valid, Inv, Separate, C.SelectiveErase, I.DecSetAll, I.SaveOrRestoreAll, I.Reply;
      if b == 104 || b == 108 {
        DecSetAll(b == 104);
      } else {
        SaveOrRestoreAll(b == 115);
      }
    }

    /** Settings and screens of "CSI ?". */
    method PrivateCommand(b: CodePoint)
      requires Valid()
      modifies mainBuffer.Repr, altBuffer.Repr, this`screen, this`cursorRow, this`cursorCol, this`aboutToAutoWrap,
        this`topMargin, this`bottomMargin, this`leftMargin, this`rightMargin,
        this`foreColor, this`backColor, this`effect,
        this`useLineDrawingG0, this`useLineDrawingG1, this`useLineDrawingUsesG0,
        this`currentDecSetFlags, this`savedStateMain, this`savedStateAlt, this`savedDecSetFlags, this`sent
      ensures Valid() && fresh(mainBuffer.Repr - old(mainBuffer.Repr)) && fresh(altBuffer.Repr - old(altBuffer.Repr))
      ensures State() == I.PrivateCommand(old(State()), b)
    {
      hide TerminalBuffer.Valid, Inv, C.SelectiveErase, I.DecSetAll, I.SaveOrRestoreAll, I.Reply,
        I.ExtendedCursorReport, I.Arg0;
      if b in {104, 108, 114, 115} {
        PrivateModes(b);
      } else {
        PrivateErase(b);
      }
    }

    /** DECSED, DECSEL and the cursor report. */
    method PrivateErase(b: CodePoint)
      requires Valid() && b !in {104, 108, 114, 115}
      modifies screen.Repr, this`aboutToAutoWrap, this`sent
      ensures Valid() && fresh(screen.Repr - old(screen.Repr))
      ensures State() == I.PrivateCommand(old(State()), b)
    {
      hide TerminalBuffer.Valid, Inv, C.SelectiveErase, I.DecSetAll, I.SaveOrRestoreAll, I.Reply,
        I.ExtendedCursorReport, I.Arg0;
      if b == 74 || b == 75 {
        var arg := Arg0(0);
        SelectiveErase(arg, b == 75);
      } else if b == 110 {
        var arg := Arg0(-1);
        if arg == 6 {
          Reply(I.ExtendedCursorReport(Cursor(cursorRow, cursorCol, aboutToAutoWrap)));
        }
      }
    }

    /** doCsiQuestionMark. */
    method DoCsiQuestionMark(b: CodePoint)
      requires Valid()
      modifies Footprint()
      ensures Valid() && fresh(Footprint() - old(Footprint()))
      ensures State() == I.DoCsiQuestionMark(old(State()), b)
    {
      hide TerminalBuffer.Valid, Inv, I.PrivateCommand, I.IsPrivateCommand, I.Finish, I.Goto, I.ArgChar;
      if I.IsPrivateCommand(b) {
        PrivateCommand(b);
        FinishSequence();
      } else if b == 36 {
        Goto(QuestionMarkDollar);
      } else {
        ParseArg(b);
      }
    }

    /** Operations on rectangles. */
    method DoCsiDollar(b: CodePoint)
      requires Valid() && I.CanChange(State(), b)
      modifies screen.Repr
      ensures Valid() && fresh(screen.Repr - old(screen.Repr))
      ensures State() == I.DoCsiDollar(old(State()), b)
    {
      hide TerminalBuffer.Valid, Inv, C.CopyRectangle, C.EraseRectangle, C.FillRectangle, C.ChangeAttributes, PenStyle;
      LatinIsNarrow(SPACE);
      if b == 118 {
        CopyRectangle();
      } else if b == 123 || b == 122 {
        PenIsOk();
        var st := GetStyle();
        EraseRectangle(0, C.Erasure(SPACE, st, b == 123, b == 123));
      } else if b == 120 {
        FillRectangle();
      } else if b == 114 || b == 116 {
        ChangeAttributes(b == 116);
      }
    }

    /** DECSCA. */
    method SelectProtection()
      requires Valid()
      modifies this`foreColor, this`backColor, this`effect
      ensures Valid() && State() == I.SelectProtection(old(State()))
    {
      PenIsOk();
      I.ProtectionKeeps(CurrentPen());
      hide TerminalBuffer.Valid, Inv, PenOk, T.SetPen, I.Arg0, Remove, Add;
      var arg := Arg0(0);
      if arg == 0 || arg == 2 {
        SetPen(Pen(foreColor, backColor, Remove(effect, TextStyle.PROTECTED)));
      } else if arg == 1 {
        SetPen(Pen(foreColor, backColor, Add(effect, TextStyle.PROTECTED)));
      }
    }

    /** DECSACE. */
    method SelectExtent(b: CodePoint)
      requires Valid()
      modifies this`currentDecSetFlags
      ensures Valid() && State() == I.SelectExtent(old(State()), b)
    {
      hide TerminalBuffer.Valid, Inv, T.SetFlag, I.Arg0;
      var arg := Arg0(0);
      if b == 120 && 0 <= arg <= 2 {
        SetDecSetFlag(RectangularChange, arg == 2);
      }
    }

    method DoSingleQuote(b: CodePoint)
      requires Valid()
      modifies screen.Repr
      ensures Valid() && fresh(screen.Repr - old(screen.Repr))
      ensures State() == I.DoSingleQuote(old(State()), b)
    {
      hide TerminalBuffer.Valid, Inv, C.Arg, C.InsertColumns, C.DeleteColumns;
      if b == 125 {
        var n := Arg(0, 1);
        InsertColumns(n);
      } else if b == 126 {
        var n := Arg(0, 1);
        DeleteColumns(n);
      }
    }

    // ----- One code point -----

    /** Sequences that end with this character, whatever it is. */
    method EndOfSequence(b: CodePoint)
      requires Valid() && I.Supported(State(), b)
      modifies screen.Repr, this`foreColor, this`backColor, this`effect, this`currentDecSetFlags,
        this`useLineDrawingG0, this`useLineDrawingG1, this`useLineDrawingUsesG0
      ensures Valid() && fresh(screen.Repr - old(screen.Repr))
      ensures State() == I.EndOfSequence(old(State()), b)
    {
      hide TerminalBuffer.Valid, Inv, T.SetCharset, I.DoCsiDollar, I.SelectProtection, I.DoSingleQuote, I.SelectExtent;
      if escapeState == CsiDollar {
        I.CanEnd(State(), b);
        DoCsiDollar(b);
      } else if escapeState == SingleQuote {
        DoSingleQuote(b);
      } else {
        EndOfSetting(b);
      }
    }

    /** The last character of a sequence that leaves the screens alone. */
    method EndOfSetting(b: CodePoint)
      requires Valid() && escapeState != CsiDollar && escapeState != SingleQuote
      modifies this`foreColor, this`backColor, this`effect, this`currentDecSetFlags,
        this`useLineDrawingG0, this`useLineDrawingG1, this`useLineDrawingUsesG0
      ensures Valid() && State() == I.EndOfSequence(old(State()), b)
    {
      hide TerminalBuffer.Valid, Inv, T.SetCharset, I.DoCsiDollar, I.SelectProtection, I.DoSingleQuote, I.SelectExtent;
      if escapeState == DoubleQuote {
        if b == 113 {
          SelectProtection();
        }
      } else if escapeState == ArgsAsterisk {
        SelectExtent(b);
      } else {
        EndOfCharset(b);
      }
    }

    /** Which of G0 and G1 is the line drawing set. */
    method EndOfCharset(b: CodePoint)
      requires Valid() && escapeState !in {CsiDollar, SingleQuote, DoubleQuote, ArgsAsterisk}
      modifies this`useLineDrawingG0, this`useLineDrawingG1, this`useLineDrawingUsesG0
      ensures Valid() && State() == I.EndOfSequence(old(State()), b)
    {
      hide TerminalBuffer.Valid, Inv, T.SetCharset, I.DoCsiDollar, I.SelectProtection, I.DoSingleQuote, I.SelectExtent;
      var charset := Charset(useLineDrawingG0, useLineDrawingG1, useLineDrawingUsesG0);
      if escapeState == SelectLeftParen {
        SetCharset(charset.(g0 := b == DIGIT_0));
      } else if escapeState == SelectRightParen {
        SetCharset(charset.(g1 := b == DIGIT_0));
      }
    }

    /** A character in the middle of a sequence that may go on. */
    method MidSequence(b: CodePoint)
      requires Valid() && I.Supported(State(), b)
      modifies Footprint()
      ensures Valid() && fresh(Footprint() - old(Footprint()))
      ensures State() == I.MidSequence(old(State()), b)
    {
      hide TerminalBuffer.Valid, Inv, I.DoEsc, I.DoCsi, T.Reset, I.Finish, I.DoCsiQuestionMark, I.ArgChar,
        I.StringCharacter,
        I.DoEscPound;
      if escapeState == Esc {
        DoEsc(b);
      } else if escapeState == Csi {
        DoCsi(b);
      } else if escapeState == CsiQuestionMark {
        DoCsiQuestionMark(b);
      } else {
        OtherSequence(b);
      }
    }

    method OtherSequence(b: CodePoint)
      requires Valid() && I.Supported(State(), b) && escapeState !in {Esc, Csi, CsiQuestionMark}
      modifies Footprint()
      ensures Valid() && fresh(Footprint() - old(Footprint()))
      ensures State() == I.MidSequence(old(State()), b)
    {
      hide TerminalBuffer.Valid, Inv, I.DoEsc, I.DoCsi, T.Reset, I.Finish, I.DoCsiQuestionMark, I.ArgChar,
        I.StringCharacter,
        I.DoEscPound;
      if escapeState == Pound {
        DoEscPound(b);
      } else {
        SettingSequence(b);
      }
    }

    /** A character of a sequence that leaves the screens and the cursor's place alone. */
    method SettingSequence(b: CodePoint)
      requires Valid() && I.Supported(State(), b) && escapeState !in {Esc, Csi, CsiQuestionMark, Pound}
      modifies this`argIndex, this`escapeState, this`utf8Index, this`utf8ToFollow, this`aboutToAutoWrap, this`collected,
        this`topMargin, this`bottomMargin, this`leftMargin, this`rightMargin, tabStop, args,
        this`foreColor, this`backColor, this`effect,
        this`useLineDrawingG0, this`useLineDrawingG1, this`useLineDrawingUsesG0,
        this`currentDecSetFlags, this`savedDecSetFlags, this`insertMode, this`savedStateMain, this`savedStateAlt
      ensures Valid()
      ensures State() == I.MidSequence(old(State()), b)
    {
      hide Separate, TerminalBuffer.Valid, Inv, I.DoEsc, I.DoCsi, T.Reset, I.Finish, I.DoCsiQuestionMark, I.ArgChar,
        I.StringCharacter,
        I.DoEscPound;
      if escapeState == Exclamation {
        if b == 112 {
          Reset();
        } else {
          FinishSequence();
        }
      } else {
        ArgumentSequence(b);
      }
    }

    method ArgumentSequence(b: CodePoint)
      requires Valid() && I.Supported(State(), b)
      requires escapeState !in {Esc, Csi, CsiQuestionMark, Pound, Exclamation}
      modifies this`argIndex, this`escapeState, args, this`collected
      ensures Valid()
      ensures State() == I.MidSequence(old(State()), b)
    {
      hide Separate, TerminalBuffer.Valid, Inv, I.Supported, I.DoEsc, I.DoCsi, T.Reset, I.Finish, I.DoCsiQuestionMark,
        I.ArgChar, I.StringCharacter, I.DoEscPound;
      if escapeState == CsiBiggerThan {
        ParseArg(b);
      } else {
        StringCharacter(b);
      }
    }

    /** A character of an operating system command or a device control string. */
    method StringCharacter(b: CodePoint)
      requires Valid()
      modifies this`escapeState, this`collected
      ensures Valid() && State() == I.StringCharacter(old(State()), b)
    {
      hide TerminalBuffer.Valid, Inv, Separate, I.DoOsc, I.DoOscEsc, I.DoDeviceControl;
      if escapeState == Osc {
        DoOsc(b);
      } else if escapeState == OscEsc {
        DoOscEsc(b);
      } else if escapeState == DeviceControl {
        DoDeviceControl(b);
      }
    }

    method Dispatch(b: CodePoint)
      requires Valid() && I.Supported(State(), b)
      modifies Footprint()
      ensures Valid() && fresh(Footprint() - old(Footprint()))
      ensures State() == I.Dispatch(old(State()), b)
    {
      hide TerminalBuffer.Valid, Inv, T.EmitCodePoint, I.MidSequence, I.EndOfSequence, I.Finish, I.EndsSequence,
        I.Supported;
      if escapeState == NoEscape {
        if b >= 32 {
          EmitCodePoint(b);
        }
      } else if I.EndsSequence(escapeState) {
        EndOfSequence(b);
        FinishSequence();
      } else {
        MidSequence(b);
      }
    }

    /** CAN and SUB. */
    method Cancel()
      requires Valid()
      modifies screen.Repr, this`cursorRow, this`cursorCol, this`aboutToAutoWrap, this`lastEmittedCodePoint,
        this`escapeState
      ensures Valid() && fresh(screen.Repr - old(screen.Repr))
      ensures State() == I.Cancel(old(State()))
    {
      hide TerminalBuffer.Valid, Inv, T.EmitCodePoint, I.Finish;
      if escapeState != NoEscape {
        FinishSequence();
        EmitCodePoint(127);
      }
    }

    method Tab()
      requires Valid()
      modifies this`cursorRow, this`cursorCol
      ensures Valid() && State() == I.Tab(old(State()))
    {
      hide TerminalBuffer.Valid, Inv, T.MoveTo, T.NextTabStop;
      var col := NextTabStop(1);
      MoveTo(cursorRow, col);
    }

    /** Control characters that act in any state. */
    method Control(b: CodePoint)
      requires Valid()
      modifies screen.Repr, this`cursorRow, this`cursorCol, this`aboutToAutoWrap, this`lastEmittedCodePoint,
        this`escapeState,
        this`useLineDrawingG0, this`useLineDrawingG1, this`useLineDrawingUsesG0
      ensures Valid() && fresh(screen.Repr - old(screen.Repr))
      ensures State() == I.Control(old(State()), b)
    {
      hide TerminalBuffer.Valid, Inv, T.Backspace, I.Tab, T.Linefeed, T.SetCursorCol, T.SetCharset, I.Cancel;
      var charset := Charset(useLineDrawingG0, useLineDrawingG1, useLineDrawingUsesG0);
      if b == 8 {
        Backspace();
      } else if b == 9 {
        Tab();
      } else if b == 10 || b == 11 || b == 12 {
        DoLinefeed();
      } else if b == 13 {
        SetCursorCol(leftMargin);
      } else if b == 14 {
        SetCharset(charset.(usesG0 := false));
      } else if b == 15 {
        SetCharset(charset.(usesG0 := true));
      } else if b == 24 || b == 26 {
        Cancel();
      }
    }

    /** BEL ends an operating system command. */
    method Bell()
      requires Valid()
      modifies this`escapeState, this`collected
      ensures Valid() && State() == I.Bell(old(State()))
    {
      hide TerminalBuffer.Valid, Inv, I.DoOsc;
      if escapeState == Osc {
        DoOsc(7);
      }
    }

    method Escape()
      requires Valid()
      modifies this`escapeState, this`collected, this`argIndex, args
      ensures Valid() && State() == I.Escape(old(State()))
    {
      hide TerminalBuffer.Valid, Inv, I.DoOsc, I.StartEscapeSequence;
      if escapeState == DeviceControl {
      } else if escapeState == Osc {
        DoOsc(27);
      } else {
        StartEscapeSequence();
      }
    }

    /** processCodePoint. */
    method ProcessCodePoint(b: CodePoint)
      requires Valid() && I.Supported(State(), b)
      modifies Footprint()
      ensures Valid() && fresh(Footprint() - old(Footprint()))
      ensures State() == I.ProcessCodePoint(old(State()), b)
    {
      hide TerminalBuffer.Valid, Inv, I.IsControl, I.Control, I.Dispatch, I.Bell, I.Escape, I.Supported;
      if b == 7 {
        Bell();
      } else if b == 27 {
        Escape();
      } else if I.IsControl(b) {
        Control(b);
      } else {
        Dispatch(b);
      }
    }

    // ----- Bytes -----

    /** Notes a byte of a sequence that goes on. */
    method NoteByte(b: Byte, toFollow: nat)
      requires Valid() && utf8Index + toFollow < 4 && 0 < toFollow
      modifies this`utf8ToFollow, this`utf8Index, utf8InputBuffer
      ensures Valid()
      ensures State() == R.SetDecoder(old(State()), Utf8.Decoder(toFollow, old(CurrentDecoder()).input + [b]))
    {
      hide TerminalBuffer.Valid, Inv;
      ghost var t := R.SetDecoder(State(), Utf8.Decoder(toFollow, CurrentDecoder().input + [b]));
      utf8InputBuffer[utf8Index] := b;
      utf8Index, utf8ToFollow := utf8Index + 1, toFollow;
      assert CurrentDecoder() == t.decoder;
      assert State() == t;
    }

    method ForgetBytes()
      requires Valid()
      modifies this`utf8ToFollow, this`utf8Index
      ensures Valid() && State() == R.SetDecoder(old(State()), Utf8.GROUND)
    {
      hide TerminalBuffer.Valid, Inv;
      ghost var t := R.SetDecoder(State(), Utf8.GROUND);
      utf8Index, utf8ToFollow := 0, 0;
      assert State() == t;
    }

    /** The code point of the bytes of a complete sequence; overlong ones are replaced. */
    static method Collect(input: array<Byte>, length: nat) returns (codePoint: nat)
      requires 0 < length <= input.Length
      ensures Utf8.Finish(input[..length]) == Utf8.Decoded(codePoint)
    {
      hide Utf8.Decoded, Utf8.LeadBits, Utf8.Overlong;
      codePoint := Utf8.LeadBits(input[0], length);
      var i := 1;
      assert input[..length][1..] == input[1..length];
      while i < length
        invariant 1 <= i <= length
        invariant Utf8.Collect(codePoint, input[i..length]) ==
          Utf8.Collect(Utf8.LeadBits(input[0], length), input[1..length])
      {
        assert input[i..length][1..] == input[i + 1..length];
        codePoint := codePoint * 64 + input[i] % 64;
        i := i + 1;
      }
      if Utf8.Overlong(codePoint, length) {
        codePoint := Utf8.REPLACEMENT;
      }
    }

    /** C1 controls are ignored, and unassigned code points replaced. */
    method ProcessDecoded(codePoint: nat)
      requires Valid() && R.CanDeliver(State(), Utf8.Decoded(codePoint))
      modifies Footprint()
      ensures Valid() && fresh(Footprint() - old(Footprint()))
      ensures State() == R.DeliverAll(old(State()), Utf8.Decoded(codePoint))
    {
      hide TerminalBuffer.Valid, Inv, I.ProcessCodePoint, I.Supported, Utf8.Unassigned;
      if !(0x80 <= codePoint <= 0x9F) {
        var c := if Utf8.Unassigned(codePoint) then Utf8.REPLACEMENT else codePoint;
        R.DeliverOne(State(), Utf8.Process(c));
        ProcessCodePoint(c);
      }
    }

    /** Ends a sequence of bytes. */
    method TakeBytes(b: Byte) returns (codePoint: nat)
      requires Valid() && 0 < utf8Index < 4
      modifies this`utf8ToFollow, this`utf8Index, utf8InputBuffer
      ensures Valid() && State() == R.SetDecoder(old(State()), Utf8.GROUND)
      ensures Utf8.Finish(old(CurrentDecoder().input) + [b]) == Utf8.Decoded(codePoint)
    {
      hide TerminalBuffer.Valid, Inv, Utf8.Finish, Utf8.Decoded;
      ghost var t := R.SetDecoder(State(), Utf8.GROUND);
      utf8InputBuffer[utf8Index] := b;
      codePoint := Collect(utf8InputBuffer, utf8Index + 1);
      assert utf8InputBuffer[..utf8Index + 1] == old(CurrentDecoder().input) + [b];
      utf8Index, utf8ToFollow := 0, 0;
      assert State() == t;
    }

    /** A byte that goes on with a sequence. */
    method NextByte(b: Byte)
      requires Valid() && utf8ToFollow > 0 && Utf8.IsContinuation(b) && R.CanProcess(State(), b)
      modifies Footprint()
      ensures Valid() && fresh(Footprint() - old(Footprint()))
      ensures State() == R.ProcessByte(old(State()), b)
    {
      hide TerminalBuffer.Valid, Inv, R.CanDeliver, R.DeliverAll, Utf8.Finish, Utf8.Decoded, R.SetDecoder,
        Utf8.IsContinuation,
        R.CanProcess, R.ProcessByte;
      DecoderFits();
      if utf8ToFollow == 1 {
        R.LastByte(State(), b);
        var codePoint := TakeBytes(b);
        ProcessDecoded(codePoint);
      } else {
        R.MiddleByte(State(), b);
        NoteByte(b, utf8ToFollow - 1);
      }
    }

    /** A byte that breaks a sequence off. */
    method BrokenByte(b: Byte)
      requires Valid() && utf8ToFollow > 0 && !Utf8.IsContinuation(b) && R.CanProcess(State(), b)
      modifies Footprint()
      ensures Valid() && fresh(Footprint() - old(Footprint()))
      ensures State() == R.ProcessByte(old(State()), b)
    {
      hide TerminalBuffer.Valid, Inv, R.CanProcess, R.ProcessByte, Utf8.IsContinuation, T.EmitCodePoint, R.SetDecoder;
      R.BrokenSequence(State(), b);
      ForgetBytes();
      EmitCodePoint(Utf8.REPLACEMENT);
      FirstByte(b);
    }

    lemma DecoderFits()
      requires Valid()
      ensures utf8Index + utf8ToFollow <= 4 && (utf8ToFollow == 0 <==> utf8Index == 0)
      ensures Utf8.Reachable(CurrentDecoder()) && {utf8InputBuffer} <= Footprint()
    {
      hide TerminalBuffer.Valid;
    }

    /** A byte outside a sequence, which may start one. */
    method FirstByte(b: Byte)
      requires Valid() && utf8ToFollow == 0 && R.CanProcess(State(), b)
      modifies Footprint()
      ensures Valid() && fresh(Footprint() - old(Footprint()))
      ensures State() == R.ProcessByte(old(State()), b)
    {
      hide TerminalBuffer.Valid, Inv, R.CanDeliver, R.DeliverAll, I.ProcessCodePoint, I.Supported, R.CanProcess,
        R.ProcessByte;
      DecoderFits();
      var toFollow := if 192 <= b < 224 then 1 else if 224 <= b < 240 then 2 else if 240 <= b < 248 then 3 else 0;
      if toFollow > 0 {
        R.StartByte(State(), b, toFollow);
        NoteByte(b, toFollow);
      } else {
        var c := if b < 128 then b else Utf8.REPLACEMENT;
        R.SingleByte(State(), b);
        ProcessCodePoint(c);
      }
    }

    /** processByte. */
    method ProcessByte(b: Byte)
      requires Valid() && R.CanProcess(State(), b)
      modifies Footprint()
      ensures Valid() && fresh(Footprint() - old(Footprint()))
      ensures State() == R.ProcessByte(old(State()), b)
    {
      hide TerminalBuffer.Valid, Inv, R.CanProcess, R.ProcessByte, Utf8.IsContinuation;
      if utf8ToFollow > 0 {
        if Utf8.IsContinuation(b) {
          NextByte(b);
        } else {
          BrokenByte(b);
        }
      } else {
        FirstByte(b);
      }
    }

    /** One step of a run over bytes. */
    method ProcessFirst(b: Byte, ghost bytes: seq<Byte>)
      requires Valid() && bytes != [] && b == bytes[0] && R.CanRun(State(), R.Inputs(bytes))
      modifies Footprint()
      ensures Valid() && fresh(Footprint() - old(Footprint()))
      ensures R.CanRun(State(), R.Inputs(bytes[1..]))
      ensures R.Run(State(), R.Inputs(bytes[1..])) == R.Run(old(State()), R.Inputs(bytes))
    {
      hide TerminalBuffer.Valid, Inv, R.CanProcess, R.ProcessByte, R.CanRun, R.Run, R.Inputs;
      R.RunUnfold(State(), bytes);
      ProcessByte(b);
    }

    /** append: the effect of a chunk of bytes is that of a run over its bytes. */
    method Append(buffer: array<Byte>, length: nat)
      requires Valid() && length <= buffer.Length && buffer !in Footprint()
      requires R.CanRun(State(), R.Inputs(buffer[..length]))
      modifies Footprint()
      ensures Valid() && fresh(Footprint() - old(Footprint()))
      ensures State() == R.Run(old(State()), R.Inputs(buffer[..length]))
    {
      hide TerminalBuffer.Valid, Inv, R.CanRun, R.Run, R.Inputs;
      ghost var bytes, rest := buffer[..length], buffer[..length];
      var i := 0;
      while i < length
        invariant 0 <= i <= length && rest == bytes[i..] && buffer[..length] == bytes
        invariant Valid() && fresh(Footprint() - old(Footprint()))
        invariant R.CanRun(State(), R.Inputs(rest))
        invariant R.Run(State(), R.Inputs(rest)) == R.Run(old(State()), R.Inputs(bytes))
      {
        assert buffer[i] == buffer[..length][i] == rest[0];
        ProcessFirst(buffer[i], rest);
        i, rest := i + 1, rest[1..];
      }
      R.RunEnds(State(), rest);
    }

    // ----- Size -----

    /** Default tab stops for a new number of columns, with the old ones where there were columns before. */
    static method ResizedTabStops(oldTabStop: array<bool>, columns: nat) returns (tabStop: array<bool>)
      ensures fresh(tabStop) && tabStop.Length == columns && tabStop[..] == T.ResizedTabStops(oldTabStop[..], columns)
    {
      tabStop := new bool[columns](i => i % 8 == 0 && i != 0);
      var toTransfer := Min(oldTabStop.Length, columns);
      forall i | 0 <= i < toTransfer {
        tabStop[i] := oldTabStop[i];
      }
    }

    /** Takes a number of rows; the screens do not have it yet. */
    method SetRows(newRows: nat)
      requires BuffersValid() && 2 <= newRows <= P.Total(mainBuffer.page)
      modifies this`rows, this`topMargin, this`bottomMargin
      ensures BuffersValid()
      ensures State() == T.WithRows(old(State()), newRows)
    {
      hide TerminalBuffer.Valid, P.Good;
      if rows != newRows {
        rows, topMargin, bottomMargin := newRows, 0, newRows;
      }
    }

    /** Takes a number of columns, with its tab stops. */
    method SetColumns(newColumns: nat)
      requires BuffersValid() && 2 <= newColumns
      modifies this`columns, this`leftMargin, this`rightMargin, this`tabStop
      ensures BuffersValid() && (tabStop == old(tabStop) || fresh(tabStop))
      ensures State() == T.WithColumns(old(State()), newColumns)
    {
      hide TerminalBuffer.Valid, P.Good, T.ResizedTabStops, D.OkButSize;
      if columns != newColumns {
        var stops := ResizedTabStops(tabStop, newColumns);
        TakeWidth(newColumns);
        TakeTabStops(stops);
        TakeMargins();
      }
    }

    method TakeWidth(newColumns: nat)
      requires BuffersValid() && 2 <= newColumns
      modifies this`columns
      ensures BuffersValid() && State() == old(State()).(screens := old(CurrentScreens()).(columns := newColumns))
    {
      hide TerminalBuffer.Valid, P.Good;
      columns := newColumns;
    }

    /** The left and right margins become the edges of the screen. */
    method TakeMargins()
      requires BuffersValid()
      modifies this`leftMargin, this`rightMargin
      ensures BuffersValid() && State() == old(State()).(margins := Margins(topMargin, bottomMargin, 0, columns))
    {
      hide TerminalBuffer.Valid, P.Good, D.OkButSize;
      leftMargin, rightMargin := 0, columns;
    }

    method TakeTabStops(stops: array<bool>)
      requires BuffersValid() && stops !in Footprint()
      modifies this`tabStop
      ensures BuffersValid() && tabStop == stops && State() == old(State()).(tabStop := stops[..])
    {
      hide TerminalBuffer.Valid, P.Good, D.OkButSize;
      tabStop := stops;
    }

    lemma SizedBuffers()
      requires Valid()
      ensures BuffersValid()
    {
      hide TerminalBuffer.Valid, P.Good;
    }

    /** Brings the screen that is shown to the terminal's size; the cursor follows. */
    method FitScreen(ghost t: Terminal)
      requires BuffersValid() && Inv(t) && PenOk(CurrentPen())
      requires var p := D.Active(CurrentScreens());
        (cursorCol < p.columns && cursorRow < |p.screen|) ||
        (screen == altBuffer && cursorCol < columns && cursorRow < rows)
      requires var r := T.ResizeScreen(CurrentScreens(), cursorRow, cursorCol, aboutToAutoWrap, PenStyle(CurrentPen()));
        t == State().(screens := r.0, cursor := r.1)
      modifies screen.Repr, this`cursorRow, this`cursorCol
      ensures Valid() && fresh(screen.Repr - old(screen.Repr)) && State() == t
    {
      hide TerminalBuffer.Valid, Inv, D.Ok, P.Good, D.OkButSize, D.Resize, PenStyle, PenOk, TextStyle.IsEncoded;
      var st := GetStyle();
      var col, row := ResizeScreen(cursorCol, cursorRow, st);
      PlaceCursor(row, col, t);
    }

    /** resize. */
    method Resize(newColumns: nat, newRows: nat)
      requires Valid() && 2 <= newColumns && 2 <= newRows <= P.Total(mainBuffer.page)
      modifies screen.Repr, this`cursorRow, this`cursorCol,
        this`rows, this`columns, this`topMargin, this`bottomMargin, this`leftMargin, this`rightMargin, this`tabStop
      ensures Valid() && fresh(screen.Repr - old(screen.Repr)) && (tabStop == old(tabStop) || fresh(tabStop))
      ensures State() == T.Resize(old(State()), newColumns, newRows)
    {
      hide TerminalBuffer.Valid, Inv, D.Ok, P.Good, D.OkButSize, D.Resize, PenStyle, T.WithRows, T.WithColumns, PenOk,
        Separate;
      if rows == newRows && columns == newColumns {
        return;
      }
      ChangeSize(newColumns, newRows);
    }

    method ChangeSize(newColumns: nat, newRows: nat)
      requires Valid() && 2 <= newColumns && 2 <= newRows <= P.Total(mainBuffer.page)
      requires rows != newRows || columns != newColumns
      modifies screen.Repr, this`cursorRow, this`cursorCol,
        this`rows, this`columns, this`topMargin, this`bottomMargin, this`leftMargin, this`rightMargin, this`tabStop
      ensures Valid() && fresh(screen.Repr - old(screen.Repr)) && (tabStop == old(tabStop) || fresh(tabStop))
      ensures State() == T.Resize(old(State()), newColumns, newRows)
    {
      hide TerminalBuffer.Valid, Inv, D.Ok, P.Good, D.OkButSize, D.Resize, PenStyle, T.WithRows, T.WithColumns, PenOk;
      ScreenFits();
      PenIsOk();
      ghost var t := T.Resize(State(), newColumns, newRows);
      SizedBuffers();
      SetRows(newRows);
      SetColumns(newColumns);
      FitScreen(t);
    }
  }
}
