/** Writing characters: which cells they go to, where the cursor goes, and when a line wraps. */
module WriteOps {
  import opened Common
  import opened WcWidth
  import opened Utf16
  import opened Row
  import P = Page
  import TextStyle
  import opened CellCopy
  import StyleCopy
  import opened Display
  import opened TerminalState
  import opened Interpreter
  import opened Sequences
  import CursorOps
  import RectangleOps
  import FeedOps

  // ----- One row -----

  /** The cells of a character that takes columns. */
  function CellsOf(c: CodePoint): Grid {
    if Width(c) == 2 then [Cell(c, []), Rest] else [Cell(c, [])]
  }

  /** Row `r'` is row `r` with character `c` in column `col`: the cells are those of a copy (`CellCopy.Written`), and so
      are the styles, which are all `st`. */
  predicate RowWritten(r: RowValue, r': RowValue, c: CodePoint, st: Style, col: nat)
    requires |r.grid| == |r.style|
  {
    && |r'.grid| == |r'.style| == |r.grid| && r'.wrap == r.wrap && col + |CellsOf(c)| <= |r.grid|
    && r'.grid[col].Cell? && r'.grid[col].base == c && r'.style[col] == st
    && (forall k :: 0 <= k < |r.grid| ==> r'.grid[k] == Written(r.grid, CellsOf(c), col, k))
    && (forall k :: 0 <= k < |r.grid| ==> r'.style[k] == StyleCopy.StyleWritten(r, CellsOf(c), [st, st], col, k))
  }

  lemma PutAt(r: RowValue, col: nat, c: CodePoint, st: Style, k: nat)
    requires WellFormed(r.grid) && |r.grid| == |r.style| && 0 < Width(c) && col + Width(c) <= |r.grid| && k < |r.grid|
    ensures var r' := Put(r, col, c, st);
      && |r'.grid| == |r'.style| == |r.grid|
      && r'.grid[k] == Written(r.grid, CellsOf(c), col, k)
      && r'.style[k] == StyleCopy.StyleWritten(r, CellsOf(c), [st, st], col, k)
  {
    PlaceCellAt(r.grid, col, Cell(c, []), k);
    NoMarks(r.grid, col, c);
    StyleCopy.StyleOfCell(r, Cell(c, []), st, col, k);
    hide WellFormed, Place, PlaceStyle, Written;
  }

  lemma NoMarks(g: Grid, k: nat, c: CodePoint)
    requires WellFormed(g) && 0 < Width(c) && k + Width(c) <= |g|
    ensures PlaceCell(g, k, Cell(c, [])) == Place(g, k, c)
  {
    hide WellFormed;
    var h := Place(g, k, c);
    if h[k].Cell? {
      assert h[k].marks + [] == h[k].marks;
    }
  }

  lemma PutIsWritten(r: RowValue, col: nat, c: CodePoint, st: Style)
    requires WellFormed(r.grid) && |r.grid| == |r.style| && 0 < Width(c) && col + Width(c) <= |r.grid|
    ensures RowWritten(r, Put(r, col, c, st), c, st, col)
  {
    hide WellFormed, Put, Written, StyleCopy.StyleWritten;
    PutAt(r, col, c, st, col);
    AtColumn(r, col, c, st);
    forall k | 0 <= k < |r.grid|
      ensures Put(r, col, c, st).grid[k] == Written(r.grid, CellsOf(c), col, k)
      ensures Put(r, col, c, st).style[k] == StyleCopy.StyleWritten(r, CellsOf(c), [st, st], col, k)
    {
      PutAt(r, col, c, st, k);
    }
    PutKeepsWrap(r, col, c, st);
  }

  lemma AtColumn(r: RowValue, col: nat, c: CodePoint, st: Style)
    requires |r.grid| == |r.style| && 0 < Width(c) && col + Width(c) <= |r.grid|
    ensures Written(r.grid, CellsOf(c), col, col).Cell? && Written(r.grid, CellsOf(c), col, col).base == c
    ensures StyleCopy.StyleWritten(r, CellsOf(c), [st, st], col, col) == st
  {
  }

  lemma PutKeepsWrap(r: RowValue, col: nat, c: CodePoint, st: Style)
    requires col + Width(c) <= |r.grid| == |r.style| && col < |r.grid|
    ensures Put(r, col, c, st).wrap == r.wrap
  {
  }

  // ----- The screen -----

  /** The screen with another row in place of row `i`. */
  function WithRow(s: Screens, i: nat, r: RowValue): Screens
    requires i < |Active(s).screen|
  {
    WithActive(s, P.SetRow(Active(s), i, r))
  }

  /** The terminal with its row `row` changed, its cursor moved, and the character remembered for REP. */
  function Shows(t: Terminal, row: nat, r: RowValue, cursor: Cursor, last: Option<CodePoint>): Terminal
    requires row < |Active(t.screens).screen|
  {
    t.(screens := WithRow(t.screens, row, r), cursor := cursor, lastEmitted := last)
  }

  lemma Fits(t: Terminal)
    requires Inv(t)
    ensures t.cursor.row < Rows(t) == |Active(t.screens).screen| && t.cursor.col < Columns(t)
    ensures P.GoodRow(Active(t.screens).screen[t.cursor.row], Columns(t)) && TextStyle.IsEncoded(CurrentStyle(t))
    ensures t.margins.left == 0 && t.margins.right == Columns(t) && t.margins.top + 2 <= t.margins.bottom <= Rows(t)
  {
    ActiveIsGood(t.screens);
    hide TextStyle.IsEncoded;
  }

  /** Where the cursor goes behind a character of `w` columns. */
  function NextCursor(t: Terminal, w: nat): Cursor
    requires 0 < Columns(t)
  {
    Cursor(t.cursor.row, Min(t.cursor.col + w, Columns(t) - 1),
           if Has(t, AutoWrap) then t.cursor.col + w == Columns(t) else t.cursor.aboutToWrap)
  }

  lemma WrittenHere(t: Terminal, c: CodePoint)
    requires Inv(t) && 0 < Width(c) && t.cursor.col + Width(c) <= Columns(t)
    ensures t.cursor.row < |Active(t.screens).screen| && P.GoodRow(Active(t.screens).screen[t.cursor.row], Columns(t))
    ensures WriteHere(t, c) ==
      Shows(t, t.cursor.row, Put(Active(t.screens).screen[t.cursor.row], t.cursor.col, c, CurrentStyle(t)),
            NextCursor(t, Width(c)), t.lastEmitted)
  {
    hide Ok, P.Good, P.GoodRow, Put, TextStyle.IsEncoded, WellFormed;
    Fits(t);
  }

  // ----- Characters that fit -----

  /** The character that is shown for `c`: in the line drawing set another one stands for it. */
  function Shown(t: Terminal, c: CodePoint): CodePoint {
    if (if t.charset.usesG0 then t.charset.g0 else t.charset.g1) && c in TABLES.lineDrawing then TABLES.lineDrawing[c]
    else c
  }

  /** A line wraps when the cursor waits behind its last column, or a wide character does not fit into that. */
  predicate MustWrap(t: Terminal, w: int) {
    Has(t, AutoWrap) && t.cursor.col == Columns(t) - 1 && ((t.cursor.aboutToWrap && w == 1) || w == 2)
  }

  lemma EmitCases(t: Terminal, m: CodePoint)
    requires Inv(t)
    ensures 2 <= Columns(t)
    ensures Width(m) == 2 && !Has(t, AutoWrap) && t.cursor.col == Columns(t) - 1 ==> EmitMapped(t, m) == t
    ensures !MustWrap(t, Width(m)) && t.cursor.col + Width(m) <= Columns(t) ==>
      EmitMapped(t, m) == InsertOrReplace(t, m)
    ensures MustWrap(t, Width(m)) ==>
      WrapLine(t).cursor.col == 0 && Columns(WrapLine(t)) == Columns(t) &&
      EmitMapped(t, m) == InsertOrReplace(WrapLine(t), m)
  {
    Fits(t);
    assert 2 <= Columns(t);
    hide Ok, SavedOk, InsertOrReplace, WrapLine;
  }

  lemma WritesInPlace(t: Terminal, m: CodePoint)
    requires Inv(t) && !t.modes.insert && t.cursor.col + Width(m) <= Columns(t)
    ensures InsertOrReplace(t, m) == WriteHere(t, m)
  {
    hide Inv, WriteHere;
  }

  lemma Remembers(t: Terminal, c: CodePoint)
    requires Inv(t)
    ensures Inv(t.(lastEmitted := Some(c)))
    ensures EmitCodePoint(t, c) == EmitMapped(t.(lastEmitted := Some(c)), Shown(t, c))
  {
    RememberKeeps(t, c);
    hide Inv, EmitMapped;
  }

  lemma RememberKeeps(t: Terminal, c: CodePoint)
    requires Inv(t)
    ensures Inv(t.(lastEmitted := Some(c)))
  {
    hide Ok;
  }

  lemma EmitsDirectly(t: Terminal, c: CodePoint)
    requires Inv(t) && !t.modes.insert
    ensures var m, t1 := Shown(t, c), t.(lastEmitted := Some(c));
      var w := Width(m);
      && Inv(t1)
      && (w == 2 && !Has(t, AutoWrap) && t.cursor.col == Columns(t) - 1 ==> EmitCodePoint(t, c) == t1)
      && (!MustWrap(t, w) && t.cursor.col + w <= Columns(t) ==> EmitCodePoint(t, c) == WriteHere(t1, m))
  {
    hide Inv, WriteHere, WrapLine, EmitMapped, InsertOrReplace, EmitCodePoint;
    Remembers(t, c);
    var t1, m := t.(lastEmitted := Some(c)), Shown(t, c);
    EmitCases(t1, m);
    if t.cursor.col + Width(m) <= Columns(t) {
      WritesInPlace(t1, m);
    }
  }

  /** A character that fits where the cursor is goes there, in the current style, and the cursor goes behind it. In the
      last column it stays, and with automatic wrapping it then waits for the next character to wrap. */
  lemma WritesCharacter(t: Terminal, c: CodePoint)
    requires Inv(t) && !t.modes.insert && 0 < Width(Shown(t, c)) && t.cursor.col + Width(Shown(t, c)) <= Columns(t)
    requires !MustWrap(t, Width(Shown(t, c)))
    ensures t.cursor.row < |Active(t.screens).screen| == |Active(EmitCodePoint(t, c).screens).screen|
    ensures P.GoodRow(Active(t.screens).screen[t.cursor.row], Columns(t))
    ensures var r' := Active(EmitCodePoint(t, c).screens).screen[t.cursor.row];
      && EmitCodePoint(t, c) == Shows(t, t.cursor.row, r', NextCursor(t, Width(Shown(t, c))), Some(c))
      && RowWritten(Active(t.screens).screen[t.cursor.row], r', Shown(t, c), CurrentStyle(t), t.cursor.col)
  {
    hide Inv, P.GoodRow, Put, TextStyle.IsEncoded, WellFormed, EmitCodePoint, WriteHere, RowWritten;
    EmitsDirectly(t, c);
    var t1, m := t.(lastEmitted := Some(c)), Shown(t, c);
    WrittenHere(t1, m);
    var r := Active(t.screens).screen[t.cursor.row];
    GridOfRow(r, Columns(t));
    PutIsWritten(r, t.cursor.col, m, CurrentStyle(t));
  }

  lemma GridOfRow(r: RowValue, columns: nat)
    requires P.GoodRow(r, columns)
    ensures WellFormed(r.grid) && |r.grid| == |r.style| == columns
  {
  }

  /** Without automatic wrapping a wide character that does not fit into the last column is not shown. */
  lemma IgnoresWide(t: Terminal, c: CodePoint)
    requires Inv(t) && !t.modes.insert && Width(Shown(t, c)) == 2 && !Has(t, AutoWrap)
    requires t.cursor.col == Columns(t) - 1
    ensures EmitCodePoint(t, c) == t.(lastEmitted := Some(c))
  {
    hide Inv, EmitCodePoint, WriteHere;
    EmitsDirectly(t, c);
  }

  // ----- Marks -----

  /** The column a mark is written to: the one before the cursor, but for the first column and for a cursor that
      waits. */
  function MarkColumn(t: Terminal): nat {
    if t.cursor.col > 0 && !t.cursor.aboutToWrap then t.cursor.col - 1 else t.cursor.col
  }

  /** A mark joins the cell that covers its column, and that column takes the current style; the cursor stays. */
  lemma WritesMark(t: Terminal, c: CodePoint)
    requires Inv(t) && Width(Shown(t, c)) == 0
    ensures t.cursor.row < |Active(t.screens).screen| == |Active(EmitCodePoint(t, c).screens).screen|
    ensures var r, k := Active(t.screens).screen[t.cursor.row], MarkColumn(t);
      && P.GoodRow(r, Columns(t)) && k < |r.grid| && r.grid[Head(r.grid, k)].Cell?
      && var r' := RowValue(Marked(r.grid, Head(r.grid, k), [Shown(t, c)]), r.style[k := CurrentStyle(t)], r.wrap);
         EmitCodePoint(t, c) == Shows(t, t.cursor.row, r', t.cursor, Some(c))
  {
    Fits(t);
    var r, k := Active(t.screens).screen[t.cursor.row], MarkColumn(t);
    MarkIsPut(r, k, Shown(t, c), CurrentStyle(t));
    hide Ok, SavedOk, WellFormed, Put, WrapLine, Copy;
  }

  lemma MarkIsPut(r: RowValue, k: nat, c: CodePoint, st: Style)
    requires WellFormed(r.grid) && k < |r.grid| == |r.style| && Width(c) == 0
    ensures r.grid[Head(r.grid, k)].Cell?
    ensures Put(r, k, c, st) == RowValue(Marked(r.grid, Head(r.grid, k), [c]), r.style[k := st], r.wrap)
  {
    PlaceMarkAt(r.grid, k, c, k);
  }

  /** The style that characters are written in is that of the pen. */
  lemma StyleIsThatOfPen(t: Terminal)
    requires Inv(t)
    ensures TextStyle.DecodeForeColor(CurrentStyle(t)) == t.pen.fore
    ensures TextStyle.DecodeBackColor(CurrentStyle(t)) == t.pen.back
    ensures TextStyle.Low(TextStyle.DecodeEffect(CurrentStyle(t))) == t.pen.effect
  {
    hide Ok, TextStyle.Encode, TextStyle.DecodeForeColor, TextStyle.DecodeBackColor, TextStyle.DecodeEffect,
      TextStyle.Low,
      TextStyle.Encodable;
    TextStyle.RoundTrip(t.pen.fore, t.pen.back, t.pen.effect);
  }

  // ----- Wrapping -----

  /** The page when row `row` is marked as continued on the next one. */
  function MarkedRow(p: P.Page, row: nat): P.Page
    requires row < |p.screen|
  {
    P.SetRow(p, row, p.screen[row].(wrap := true))
  }

  /** The terminal when the line is wrapped: the row is marked, and the cursor goes to the start of the next one. Where
      there is none in the region it scrolls instead, and the cursor stays on its row. */
  predicate Wrapped(t: Terminal, t1: Terminal)
    requires t.cursor.row < |Active(t.screens).screen| && t.margins.top < t.margins.bottom <= |Active(t.screens).screen|
  {
    var p, p1 := MarkedRow(Active(t.screens), t.cursor.row), Active(t1.screens);
    if t.cursor.row + 1 < t.margins.bottom then
      t1 == t.(screens := WithActive(t.screens, p), cursor := t.cursor.(row := t.cursor.row + 1, col := 0))
    else
      && t1 == t.(screens := WithActive(t.screens, p1), cursor := t.cursor.(col := 0))
      && FeedOps.Scrolled(p, p1, t.margins.top, t.margins.bottom, CurrentStyle(t))
  }

  lemma WrapLineWraps(t: Terminal)
    requires Inv(t)
    ensures t.cursor.row < |Active(t.screens).screen| && t.margins.top < t.margins.bottom <= |Active(t.screens).screen|
    ensures Wrapped(t, WrapLine(t))
  {
    Fits(t);
    MarkedIsGood(t.screens, t.cursor.row);
    var p := MarkedRow(Active(t.screens), t.cursor.row);
    FeedOps.ScrollIsScrolled(p, t.margins.top, t.margins.bottom, CurrentStyle(t));
    hide Ok, SavedOk, P.Good, FeedOps.Scrolled, P.ScrollDownOneLine;
  }

  lemma MarkedIsGood(s: Screens, row: nat)
    requires Ok(s) && row < s.rows
    ensures row < |Active(s).screen| && P.Good(MarkedRow(Active(s), row))
    ensures SetWrap(s, row, true) == WithActive(s, MarkedRow(Active(s), row))
  {
    ActiveIsGood(s);
    assert P.GoodRow(Active(s).screen[row], s.columns);
    hide Ok, WellFormed;
  }

  /** A character that must wrap is written as if the cursor were at the start of the wrapped line. */
  lemma WritesWrapped(t: Terminal, c: CodePoint)
    requires Inv(t) && MustWrap(t, Width(Shown(t, c)))
    ensures t.cursor.row < |Active(t.screens).screen| && t.margins.top < t.margins.bottom <= |Active(t.screens).screen|
    ensures Wrapped(t, WrapLine(t)) && !MustWrap(WrapLine(t), Width(Shown(t, c)))
    ensures EmitCodePoint(t, c) == EmitCodePoint(WrapLine(t), c)
  {
    hide Inv, WriteHere, WrapLine, EmitMapped, InsertOrReplace, EmitCodePoint, Wrapped;
    WrapLineWraps(t);
    var t1, m := t.(lastEmitted := Some(c)), Shown(t, c);
    Remembers(t, c);
    Remembers(WrapLine(t), c);
    WrapRemembers(t, c);
    WrapLineKeeps(t);
    EmitCases(t1, m);
    EmitCases(WrapLine(t).(lastEmitted := Some(c)), m);
  }

  lemma WrapRemembers(t: Terminal, c: CodePoint)
    requires Inv(t)
    ensures Inv(t.(lastEmitted := Some(c)))
    ensures WrapLine(t.(lastEmitted := Some(c))) == WrapLine(t).(lastEmitted := Some(c))
  {
    RememberKeeps(t, c);
    hide Ok, SavedOk, ScrollUp, SetWrap;
  }

  lemma WrapLineKeeps(t: Terminal)
    requires Inv(t)
    ensures var t1 := WrapLine(t);
      && t1.cursor.col == 0 && Columns(t1) == Columns(t) && t1.charset == t.charset && t1.modes == t.modes
      && t1.margins == t.margins && t1.cursor.aboutToWrap == t.cursor.aboutToWrap
  {
    hide Ok, SavedOk, ScrollUp, SetWrap;
  }

  // ----- Insert mode -----

  function MovedRight(t: Terminal, w: nat): P.Block
    requires t.cursor.col + w < Columns(t)
  {
    P.Block(t.cursor.col, t.cursor.row, Columns(t) - (t.cursor.col + w), 1, t.cursor.col + w, t.cursor.row)
  }

  /** The rest of the line has moved right by `w` columns; what has left the screen is lost. */
  predicate RoomMade(t: Terminal, s: Screens, w: nat)
    requires Ok(t.screens) && Ok(s) && s.rows == Rows(t) && s.columns == Columns(t)
    requires t.cursor.row < Rows(t) && t.cursor.col < Columns(t)
  {
    if t.cursor.col + w < Columns(t) then
      forall i, k :: 0 <= i < Rows(t) && 0 <= k < Columns(t) ==>
        RectangleOps.CopiedAt(t.screens, s, MovedRight(t, w), i, k)
    else s == t.screens
  }

  ghost function RoomScreens(t: Terminal, w: nat): (s: Screens)
    requires Inv(t)
    ensures Ok(t.screens) && Ok(s) && s.rows == Rows(t) && s.columns == Columns(t)
  {
    Fits(t);
    hide SavedOk, P.Good;
    if t.cursor.col + w < Columns(t) then Copy(t.screens, MovedRight(t, w)) else t.screens
  }

  lemma RoomCopied(t: Terminal, w: nat)
    requires Inv(t) && t.modes.insert && 0 < w
    ensures MakeRoom(t, w) == t.(screens := RoomScreens(t, w))
  {
    hide Ok, SavedOk, Copy;
    Fits(t);
  }

  lemma CopyMovesRight(s: Screens, b: P.Block)
    requires Ok(s) && P.Fits(b, s.columns, s.rows)
    ensures forall i, k :: 0 <= i < s.rows && 0 <= k < s.columns ==> RectangleOps.CopiedAt(s, Copy(s, b), b, i, k)
  {
    hide Ok, RectangleOps.CopiedAt, Copy;
    forall i, k | 0 <= i < s.rows && 0 <= k < s.columns ensures RectangleOps.CopiedAt(s, Copy(s, b), b, i, k) {
      RectangleOps.CopiedRowAt(s, b, i, k);
    }
  }

  lemma RoomIsMade(t: Terminal, w: nat)
    requires Inv(t)
    ensures t.cursor.row < Rows(t) && t.cursor.col < Columns(t) && RoomMade(t, RoomScreens(t, w), w)
  {
    hide Inv, Ok, RectangleOps.CopiedAt, Copy;
    Fits(t);
    var s := RoomScreens(t, w);
    if t.cursor.col + w < Columns(t) {
      CopyMovesRight(t.screens, MovedRight(t, w));
    }
  }

  lemma InsertsThenWrites(t: Terminal, m: CodePoint)
    requires Inv(t) && t.cursor.col + Width(m) <= Columns(t)
    ensures var t1 := MakeRoom(t, Width(m));
      t1.cursor.col + Width(m) <= Columns(t1) && InsertOrReplace(t, m) == WriteHere(t1, m)
  {
    hide Inv, WriteHere, MakeRoom;
  }

  lemma SameRoom(t: Terminal, c: CodePoint, w: nat)
    requires Inv(t) && Inv(t.(lastEmitted := Some(c)))
    ensures RoomScreens(t.(lastEmitted := Some(c)), w) == RoomScreens(t, w)
  {
    hide Inv, Copy;
  }

  /** In insert mode the rest of the line first moves right by the width of the character. */
  lemma InsertsCharacter(t: Terminal, c: CodePoint)
    requires Inv(t) && t.modes.insert && 0 < Width(Shown(t, c)) && t.cursor.col + Width(Shown(t, c)) <= Columns(t)
    requires !MustWrap(t, Width(Shown(t, c)))
    ensures var s, m := RoomScreens(t, Width(Shown(t, c))), Shown(t, c);
      && t.cursor.row < Rows(t) == |Active(s).screen| == |Active(EmitCodePoint(t, c).screens).screen|
      && t.cursor.col < Columns(t) && RoomMade(t, s, Width(m))
      && P.GoodRow(Active(s).screen[t.cursor.row], Columns(t))
      && var r' := Active(EmitCodePoint(t, c).screens).screen[t.cursor.row];
         && EmitCodePoint(t, c) == Shows(t.(screens := s), t.cursor.row, r', NextCursor(t, Width(m)), Some(c))
         && RowWritten(Active(s).screen[t.cursor.row], r', m, CurrentStyle(t), t.cursor.col)
  {
    hide Inv, P.GoodRow, Put, TextStyle.IsEncoded, WellFormed, EmitCodePoint, WriteHere, RowWritten, MakeRoom, RoomMade,
      EmitMapped, InsertOrReplace, WrapLine, Ok, RoomScreens;
    var m, w, t0 := Shown(t, c), Width(Shown(t, c)), t.(lastEmitted := Some(c));
    RoomIsMade(t, w);
    Remembers(t, c);
    EmitCases(t0, m);
    InsertsThenWrites(t0, m);
    RoomCopied(t0, w);
    SameRoom(t, c, w);
    var t1 := MakeRoom(t0, w);
    Fits(t1);
    WrittenHere(t1, m);
    var r := Active(t1.screens).screen[t.cursor.row];
    GridOfRow(r, Columns(t));
    PutIsWritten(r, t.cursor.col, m, CurrentStyle(t));
  }

  // ----- Text -----

  /** Between sequences a character from the space on is written. */
  lemma CharacterIsWritten(t: Terminal, c: CodePoint)
    requires Inv(t) && t.parser.state == NoEscape && 32 <= c
    ensures Yields(t, [c], EmitCodePoint(t, c))
  {
    hide Inv, EmitCodePoint, Feed, CanFeed, Supported, ProcessCodePoint;
    CharacterActs(t, c);
    FeedOne(t, c);
  }

  lemma CharacterActs(t: Terminal, c: CodePoint)
    requires Inv(t) && t.parser.state == NoEscape && 32 <= c
    ensures Supported(t, c) && ProcessCodePoint(t, c) == EmitCodePoint(t, c)
  {
    hide Inv, EmitCodePoint;
  }

  /** The terminal after a list of characters. */
  ghost function Typed(t: Terminal, s: seq<CodePoint>): (t': Terminal)
    requires Inv(t)
    ensures Inv(t')
    decreases s
  {
    hide Inv, EmitCodePoint;
    if s == [] then t else Typed(EmitCodePoint(t, s[0]), s[1..])
  }

  lemma {:induction false} TypedConcat(t: Terminal, a: seq<CodePoint>, b: seq<CodePoint>)
    requires Inv(t)
    ensures Typed(t, a + b) == Typed(Typed(t, a), b)
    decreases a
  {
    hide Inv, EmitCodePoint;
    if a == [] {
      assert a + b == b;
    } else {
      assert (a + b)[1..] == a[1..] + b;
      TypedConcat(EmitCodePoint(t, a[0]), a[1..], b);
    }
  }
}
