/** Text is shown as it is sent: the code points of a row's cells, with their marks and wide characters, sent to a
    terminal fill these cells from the cursor on. */
module TypedText {
  import opened Common
  import opened WcWidth
  import opened Utf16
  import opened Row
  import P = Page
  import TextStyle
  import RowCopy
  import opened CellCopy
  import StyleCopy
  import opened Display
  import opened TerminalState
  import opened Interpreter
  import opened Sequences
  import opened WriteOps

  /** The settings that text is usually written with, and that a reset selects: it is not inserted, lines wrap, and
      letters stand for themselves. */
  predicate Plain(t: Terminal) {
    !t.modes.insert && Has(t, AutoWrap) && !(if t.charset.usesG0 then t.charset.g0 else t.charset.g1)
  }

  lemma PlainShows(t: Terminal, c: CodePoint)
    requires Plain(t)
    ensures Shown(t, c) == c
  {
  }

  // ----- One cell -----

  lemma ShowsTwice(t: Terminal, row: nat, r1: RowValue, c1: Cursor, l1: Option<CodePoint>, r2: RowValue, c2: Cursor,
      l2: Option<CodePoint>)
    requires row < |Active(t.screens).screen|
    ensures row < |Active(Shows(t, row, r1, c1, l1).screens).screen|
    ensures Active(Shows(t, row, r1, c1, l1).screens).screen[row] == r1
    ensures Shows(Shows(t, row, r1, c1, l1), row, r2, c2, l2) == Shows(t, row, r2, c2, l2)
  {
    assert Active(t.screens).screen[row := r1][row := r2] == Active(t.screens).screen[row := r2];
  }

  /** A row with more marks in the cell that covers column `k`, which takes a style along. */
  function MarkRow(r: RowValue, k: nat, m: seq<CodePoint>, st: Style): (r': RowValue)
    requires WellFormed(r.grid) && k < |r.grid| == |r.style|
    ensures |r'.grid| == |r'.style| == |r.grid|
  {
    HeadIsCell(r.grid, k);
    RowValue(Marked(r.grid, Head(r.grid, k), m), if m == [] then r.style else r.style[k := st], r.wrap)
  }

  lemma HeadIsCell(g: Grid, k: nat)
    requires WellFormed(g) && k < |g|
    ensures g[Head(g, k)].Cell?
  {
    Neighbours(g, k);
  }

  lemma NoMarkInRow(r: RowValue, k: nat, st: Style)
    requires WellFormed(r.grid) && k < |r.grid| == |r.style|
    ensures MarkRow(r, k, [], st) == r
  {
    HeadIsCell(r.grid, k);
    assert r.grid[Head(r.grid, k)].marks + [] == r.grid[Head(r.grid, k)].marks;
  }

  lemma MarkRowTwice(r: RowValue, k: nat, m: seq<CodePoint>, st: Style)
    requires WellFormed(r.grid) && k < |r.grid| == |r.style| && m != [] && AllMarks(m)
    ensures WellFormed(MarkRow(r, k, [m[0]], st).grid)
    ensures MarkRow(MarkRow(r, k, [m[0]], st), k, m[1..], st) == MarkRow(r, k, m, st)
  {
    HeadIsCell(r.grid, k);
    var h := Head(r.grid, k);
    MoreMarksKeep(r.grid, h, [m[0]]);
    MarkedTwice(r.grid, h, m);
    assert Head(Marked(r.grid, h, [m[0]]), k) == h;
    assert r.style[k := st][k := st] == r.style[k := st];
    hide WellFormed;
  }

  /** The row of the cursor. */
  function CursorRow(t: Terminal): (r: RowValue)
    requires Inv(t)
    ensures WellFormed(r.grid) && |r.grid| == |r.style| == Columns(t)
    ensures t.cursor.row < |Active(t.screens).screen| && r == Active(t.screens).screen[t.cursor.row]
    ensures t.cursor.col < Columns(t)
  {
    WriteOps.Fits(t);
    Active(t.screens).screen[t.cursor.row]
  }

  /** Marks sent behind a character. */
  lemma {:induction false} TypedMarks(t: Terminal, m: seq<CodePoint>)
    requires Inv(t) && Plain(t) && AllMarks(m)
    ensures var r' := MarkRow(CursorRow(t), MarkColumn(t), m, CurrentStyle(t));
      Typed(t, m) == Shows(t, t.cursor.row, r', t.cursor, if m == [] then t.lastEmitted else Some(m[|m| - 1]))
    decreases m
  {
    hide Inv, EmitCodePoint, P.GoodRow, Marked, WellFormed, MarkRow;
    var r, k, st := CursorRow(t), MarkColumn(t), CurrentStyle(t);
    if m == [] {
      NoMarkInRow(r, k, st);
      ShowsItself(t);
    } else {
      OneMark(t, m[0]);
      TypedMarks(EmitCodePoint(t, m[0]), m[1..]);
      MarkRowTwice(r, k, m, st);
      ShowsTwice(t, t.cursor.row, MarkRow(r, k, [m[0]], st), t.cursor, Some(m[0]), MarkRow(r, k, m, st), t.cursor,
                 Some(m[|m| - 1]));
    }
  }

  lemma ShowsItself(t: Terminal)
    requires t.cursor.row < |Active(t.screens).screen|
    ensures Shows(t, t.cursor.row, Active(t.screens).screen[t.cursor.row], t.cursor, t.lastEmitted) == t
  {
  }

  lemma OneMark(t: Terminal, c: CodePoint)
    requires Inv(t) && Plain(t) && Width(c) == 0
    ensures EmitCodePoint(t, c) ==
      Shows(t, t.cursor.row, MarkRow(CursorRow(t), MarkColumn(t), [c], CurrentStyle(t)), t.cursor, Some(c))
    ensures Plain(EmitCodePoint(t, c))
  {
    hide Inv, EmitCodePoint, P.GoodRow, Marked, WellFormed;
    var r := CursorRow(t);
    PlainShows(t, c);
    WritesMark(t, c);
  }

  /** A row with a cell and its marks, as they are sent, in column `col`. */
  function CellRow(r: RowValue, col: nat, c: Slot, st: Style): (r': RowValue)
    requires WellFormed(r.grid) && |r.grid| == |r.style| && c.Cell? && 0 < Width(c.base)
    requires col + Width(c.base) <= |r.grid|
    ensures |r'.grid| == |r'.style| == |r.grid|
  {
    PlaceKeeps(r.grid, col, c.base);
    MarkRow(Put(r, col, c.base, st), col + Width(c.base) - 1, c.marks, st)
  }

  /** The last code point of a cell. */
  function Last(c: Slot): CodePoint
    requires c.Cell?
  {
    if c.marks == [] then c.base else c.marks[|c.marks| - 1]
  }

  /** Whether the cursor can be where it is with room for `n` columns. */
  predicate HasRoom(t: Terminal, n: nat) {
    t.cursor.col + n <= Columns(t) && (t.cursor.aboutToWrap ==> t.cursor.col < Columns(t) - 1)
  }

  lemma RoomWraps(t: Terminal, w: nat)
    requires 2 <= Columns(t) && HasRoom(t, w) && 0 < w
    ensures !MustWrap(t, w)
  {
  }

  /** What comes behind the character goes to its last column. */
  lemma BehindBase(t: Terminal, c: CodePoint)
    requires Inv(t) && Plain(t) && 0 < Width(c) && HasRoom(t, Width(c))
    ensures var t1, w := EmitCodePoint(t, c), Width(c);
      && Plain(t1) && t1.cursor == NextCursor(t, w) && t1.cursor.row == t.cursor.row && t1.lastEmitted == Some(c)
      && MarkColumn(t1) == t.cursor.col + w - 1 && CurrentStyle(t1) == CurrentStyle(t)
      && CursorRow(t1) == Put(CursorRow(t), t.cursor.col, c, CurrentStyle(t))
  {
    hide Inv, EmitCodePoint, P.GoodRow, Put, WellFormed;
    TwoColumns(t);
    RoomWraps(t, Width(c));
    BaseTyped(t, c);
    LastColumn(t, Width(c));
  }

  lemma TypedHead(t: Terminal, c: CodePoint, m: seq<CodePoint>)
    requires Inv(t)
    ensures Typed(t, [c] + m) == Typed(EmitCodePoint(t, c), m)
  {
    assert ([c] + m)[1..] == m;
    hide Inv, EmitCodePoint;
  }

  /** A character and its marks. */
  lemma TypedCell(t: Terminal, c: Slot)
    requires Inv(t) && Plain(t) && c.Cell? && 0 < Width(c.base) && AllMarks(c.marks) && HasRoom(t, Width(c.base))
    ensures Typed(t, [c.base] + c.marks) ==
      Shows(t, t.cursor.row, CellRow(CursorRow(t), t.cursor.col, c, CurrentStyle(t)), NextCursor(t, Width(c.base)),
            Some(Last(c)))
  {
    hide Inv, EmitCodePoint, P.GoodRow, Marked, WellFormed, MarkRow, Put, NextCursor, MarkColumn, Typed;
    var w, t1, row, r1 := Width(c.base), EmitCodePoint(t, c.base), t.cursor.row, CursorRow(EmitCodePoint(t, c.base));
    TwoColumns(t);
    RoomWraps(t, w);
    BaseTyped(t, c.base);
    BehindBase(t, c.base);
    TypedHead(t, c.base, c.marks);
    TypedMarks(t1, c.marks);
    ShowsTwice(t, row, r1, t1.cursor, t1.lastEmitted,
               CellRow(CursorRow(t), t.cursor.col, c, CurrentStyle(t)), t1.cursor, Some(Last(c)));
  }

  lemma TwoColumns(t: Terminal)
    requires Inv(t)
    ensures 2 <= Columns(t)
  {
  }

  lemma BaseTyped(t: Terminal, c: CodePoint)
    requires Inv(t) && Plain(t) && 0 < Width(c) && t.cursor.col + Width(c) <= Columns(t) && !MustWrap(t, Width(c))
    ensures var t1 := EmitCodePoint(t, c);
      t1 == Shows(t, t.cursor.row, Put(CursorRow(t), t.cursor.col, c, CurrentStyle(t)), NextCursor(t, Width(c)),
                  Some(c))
      && Plain(t1)
  {
    var r := CursorRow(t);
    hide Inv, EmitCodePoint, P.GoodRow, Put, RowWritten, WellFormed, WriteHere;
    PlainShows(t, c);
    EmitsDirectly(t, c);
    WrittenHere(t.(lastEmitted := Some(c)), c);
  }

  /** Behind a character the marks go to its last column. */
  lemma LastColumn(t: Terminal, w: nat)
    requires 2 <= Columns(t) && HasRoom(t, w) && 0 < w && Has(t, AutoWrap)
    ensures var c := NextCursor(t, w);
      (if c.col > 0 && !c.aboutToWrap then c.col - 1 else c.col) == t.cursor.col + w - 1
  {
  }

  // ----- What the row shows -----

  /** The style of column `k` after cells `c` were written with style `st`: the second column of a wide character
      takes it only where it cuts a wide character, or with a mark. */
  function TypedStyle(r: RowValue, c: Grid, st: Style, col: nat, k: nat): Style
    requires col + |c| <= |r.grid| == |r.style| && k < |r.grid|
  {
    if col <= k < col + |c| then
      if c[k - col].Cell? || WideAt(r.grid, k) then st
      else if k > col && c[k - col - 1].Cell? && c[k - col - 1].marks != [] then st
      else r.style[k]
    else if c != [] && k + 1 == col && r.grid[col].Rest? then st
    else r.style[k]
  }

  lemma CellRowAt(r: RowValue, col: nat, c: Slot, st: Style, k: nat)
    requires WellFormed(r.grid) && |r.grid| == |r.style| && c.Cell? && 0 < Width(c.base) && AllMarks(c.marks)
    requires col + Width(c.base) <= |r.grid| && k < |r.grid|
    ensures var r', cells := CellRow(r, col, c, st), if Width(c.base) == 2 then [c, Rest] else [c];
      && r'.grid == PlaceCell(r.grid, col, c) && r'.wrap == r.wrap
      && r'.grid[k] == Written(r.grid, cells, col, k)
      && r'.style[k] == TypedStyle(r, cells, st, col, k)
  {
    PlaceCellAt(r.grid, col, c, k);
    PlaceCellAt(r.grid, col, c, col);
    StyleCopy.StyleOfCell(r, Cell(c.base, []), st, col, k);
    CellHead(r.grid, col, c.base);
    hide WellFormed, Place, Written, PlaceStyle;
  }

  lemma CellHead(g: Grid, col: nat, b: CodePoint)
    requires WellFormed(g) && 0 < Width(b) && col + Width(b) <= |g|
    ensures Place(g, col, b)[col].Cell? && Head(Place(g, col, b), col + Width(b) - 1) == col
  {
    PlaceKeeps(g, col, b);
    if Width(b) == 2 {
      PlaceWideAt(g, col, b, col);
      PlaceWideAt(g, col, b, col + 1);
    } else {
      PlaceNarrowAt(g, col, b, col);
    }
  }

  /** Row `r'` is row `r` with the cells `c` from column `col` on, in style `st`. */
  predicate RowTyped(r: RowValue, r': RowValue, c: Grid, st: Style, col: nat)
    requires |r.grid| == |r.style|
  {
    && |r'.grid| == |r'.style| == |r.grid| && r'.wrap == r.wrap && col + |c| <= |r.grid|
    && (forall k :: 0 <= k < |r.grid| ==> r'.grid[k] == Written(r.grid, c, col, k))
    && (forall k :: 0 <= k < |r.grid| ==> r'.style[k] == TypedStyle(r, c, st, col, k))
  }

  /** What one cell does to the columns behind it. */
  lemma BehindCell(r: RowValue, col: nat, c: Slot, st: Style, k: nat)
    requires WellFormed(r.grid) && |r.grid| == |r.style| && c.Cell? && 0 < Width(c.base) && AllMarks(c.marks)
    requires col + Width(c.base) <= |r.grid| && k < |r.grid|
    ensures var r1, w := CellRow(r, col, c, st), Width(c.base);
      && WellFormed(r1.grid) && r1.grid == PlaceCell(r.grid, col, c) && r1.wrap == r.wrap
      && (col + w <= k ==> r1.style[k] == r.style[k] && (WideAt(r1.grid, k) <==> WideAt(r.grid, k)))
      && (col + w < |r.grid| ==> r1.grid[col + w].Cell?)
  {
    CellRowAt(r, col, c, st, k);
    StyleCopy.AfterCell(r, c, st, col, k);
    PlaceCellAt(r.grid, col, c, k);
    hide WellFormed, PlaceCell, CellRow;
  }

  /** One cell after the other. */
  lemma TypedFurther(r: RowValue, c: Grid, st: Style, col: nat, k: nat)
    requires WellFormed(r.grid) && |r.grid| == |r.style| && WellFormed(c) && c != [] && col + |c| <= |r.grid|
    requires k < |r.grid| && c[0].Cell? && 0 < Width(c[0].base) <= |c|
    ensures var w, r1 := Width(c[0].base), CellRow(r, col, c[0], st);
      TypedStyle(r1, c[w..], st, col + w, k) == TypedStyle(r, c, st, col, k)
  {
    hide WellFormed, CellRow, WideAt, TypedStyle;
    var w := Width(c[0].base);
    MarksOf(c, 0);
    NextIsBase(c, 0);
    BehindCell(r, col, c[0], st, k);
    if col + w <= k < col + |c| {
      LaterTyped(r, CellRow(r, col, c[0], st), c, st, col, w, k);
    } else {
      FirstTyped(r, c, st, col, k);
    }
  }

  lemma LaterTyped(r: RowValue, r1: RowValue, c: Grid, st: Style, col: nat, w: nat, k: nat)
    requires |r.grid| == |r.style| == |r1.grid| == |r1.style| && col + |c| <= |r.grid|
    requires 0 < w <= k - col < |c| && c[w].Cell? && r1.style[k] == r.style[k]
    requires WideAt(r1.grid, k) <==> WideAt(r.grid, k)
    ensures TypedStyle(r1, c[w..], st, col + w, k) == TypedStyle(r, c, st, col, k)
  {
    hide WideAt;
    assert c[w..][k - (col + w)] == c[k - col];
    if w < k - col {
      assert c[w..][k - (col + w) - 1] == c[k - col - 1];
    }
  }

  lemma FirstTyped(r: RowValue, c: Grid, st: Style, col: nat, k: nat)
    requires WellFormed(r.grid) && |r.grid| == |r.style| && WellFormed(c) && c != [] && col + |c| <= |r.grid|
    requires k < |r.grid| && c[0].Cell? && 0 < Width(c[0].base) <= |c| && !(col + Width(c[0].base) <= k < col + |c|)
    ensures var w, r1 := Width(c[0].base), CellRow(r, col, c[0], st);
      TypedStyle(r1, c[w..], st, col + w, k) == TypedStyle(r, c, st, col, k)
  {
    MarksOf(c, 0);
    Neighbours(c, 0);
    BehindCell(r, col, c[0], st, k);
    CellRowAt(r, col, c[0], st, k);
    hide WellFormed, CellRow;
    if Width(c[0].base) == 2 {
      assert c[1].Rest?;
    }
  }

  /** The row after the first cell, and then after the others. */
  lemma RowTypedFurther(r: RowValue, r': RowValue, c: Grid, st: Style, col: nat)
    requires WellFormed(r.grid) && |r.grid| == |r.style| && WellFormed(c) && c != [] && col + |c| <= |r.grid|
    requires c[0].Cell? && 0 < Width(c[0].base) <= |c|
    requires RowTyped(CellRow(r, col, c[0], st), r', c[Width(c[0].base)..], st, col + Width(c[0].base))
    ensures RowTyped(r, r', c, st, col)
  {
    hide WellFormed, CellRow, Written, TypedStyle;
    MarksOf(c, 0);
    BehindCell(r, col, c[0], st, col);
    forall k | 0 <= k < |r.grid|
      ensures r'.grid[k] == Written(r.grid, c, col, k) && r'.style[k] == TypedStyle(r, c, st, col, k)
    {
      WrittenFurther(r.grid, c, col, k);
      TypedFurther(r, c, st, col, k);
    }
  }

  lemma NothingTyped(r: RowValue, st: Style, col: nat)
    requires |r.grid| == |r.style| && col <= |r.grid|
    ensures RowTyped(r, r, [], st, col)
  {
  }

  /** The terminal after cells were sent to it. */
  predicate CellsTyped(t: Terminal, t': Terminal, c: Grid)
    requires t.cursor.row < |Active(t.screens).screen|
    requires |Active(t.screens).screen[t.cursor.row].grid| == |Active(t.screens).screen[t.cursor.row].style|
    requires 0 < Columns(t)
  {
    && |Active(t'.screens).screen| == |Active(t.screens).screen|
    && var r, r' := Active(t.screens).screen[t.cursor.row], Active(t'.screens).screen[t.cursor.row];
       && t' == Shows(t, t.cursor.row, r', if c == [] then t.cursor else NextCursor(t, |c|), t'.lastEmitted)
       && RowTyped(r, r', c, CurrentStyle(t), t.cursor.col)
  }

  /** The code points of cells, wide ones and marks included, fill these cells from the cursor on, and the cursor goes
      behind them. What a wide character takes over and what it cuts is said by `CellCopy.Written`. */
  lemma {:induction false} TypedCells(t: Terminal, c: Grid)
    requires Inv(t) && Plain(t) && WellFormed(c) && (c == [] || HasRoom(t, |c|))
    ensures t.cursor.row < |Active(t.screens).screen| && 0 < Columns(t)
    ensures CursorRow(t) == Active(t.screens).screen[t.cursor.row]
    ensures CellsTyped(t, Typed(t, Points(c)), c)
    decreases |c|
  {
    hide Inv, EmitCodePoint, P.GoodRow, WellFormed, CellRow, RowTyped, Typed, Points;
    var r, st := CursorRow(t), CurrentStyle(t);
    if c == [] {
      NoCells(t);
    } else {
      FirstCell(c);
      var w := Width(c[0].base);
      var t1, rest := Typed(t, [c[0].base] + c[0].marks), c[w..];
      TypedCell(t, c[0]);
      AfterFirst(t, c[0], t1);
      TypedCells(t1, rest);
      PointsSplit(t, c[0].base, c[0].marks, Points(rest));
      if rest == [] {
        NothingMore(t1);
        NothingTyped(CursorRow(t1), st, t.cursor.col + w);
      }
      RowTypedFurther(r, CursorRow(Typed(t1, Points(rest))), c, st, t.cursor.col);
    }
  }

  lemma NoCells(t: Terminal)
    requires Inv(t)
    ensures CellsTyped(t, Typed(t, Points([])), [])
  {
    NothingTyped(CursorRow(t), CurrentStyle(t), t.cursor.col);
    hide Inv;
  }

  lemma NothingMore(t: Terminal)
    requires Inv(t)
    ensures Typed(t, Points([])) == t
  {
    hide Inv;
  }

  lemma AfterFirst(t: Terminal, c: Slot, t1: Terminal)
    requires Inv(t) && Inv(t1) && Plain(t) && c.Cell? && 0 < Width(c.base) && HasRoom(t, Width(c.base))
    requires t1 == Shows(t, t.cursor.row, CellRow(CursorRow(t), t.cursor.col, c, CurrentStyle(t)),
                         NextCursor(t, Width(c.base)), Some(Last(c)))
    ensures Plain(t1) && CurrentStyle(t1) == CurrentStyle(t) && Columns(t1) == Columns(t)
    ensures CursorRow(t1) == CellRow(CursorRow(t), t.cursor.col, c, CurrentStyle(t)) && t1.cursor.row == t.cursor.row
    ensures forall n: nat :: 0 < n && t.cursor.col + Width(c.base) + n <= Columns(t) ==>
      && HasRoom(t1, n) && t1.cursor.col == t.cursor.col + Width(c.base)
      && NextCursor(t1, n) == NextCursor(t, Width(c.base) + n)
  {
    hide Inv, CellRow;
  }

  lemma PointsSplit(t: Terminal, b: CodePoint, m: seq<CodePoint>, s: seq<CodePoint>)
    requires Inv(t)
    ensures Typed(t, [b] + (m + s)) == Typed(Typed(t, [b] + m), s)
  {
    hide Inv, Typed;
    TypedConcat(t, [b] + m, s);
    assert [b] + (m + s) == ([b] + m) + s;
  }

  /** All these code points are ones that are written. */
  predicate Printable(s: seq<CodePoint>) {
    forall i :: 0 <= i < |s| ==> 32 <= s[i]
  }

  lemma EmitKeepsParser(t: Terminal, c: CodePoint)
    requires Inv(t)
    ensures EmitCodePoint(t, c).parser == t.parser
  {
    hide Ok, SavedOk, SetChar, Copy, ScrollUp, SetWrap;
  }

  /** Sent between sequences, they are typed. */
  lemma {:induction false} TextIsTyped(t: Terminal, s: seq<CodePoint>)
    requires Inv(t) && t.parser.state == NoEscape && Printable(s)
    ensures Yields(t, s, Typed(t, s))
    decreases s
  {
    hide Inv, EmitCodePoint, Yields;
    if s == [] {
      YieldsNothing(t);
    } else {
      CharacterIsWritten(t, s[0]);
      EmitKeepsParser(t, s[0]);
      var t1 := EmitCodePoint(t, s[0]);
      TextIsTyped(t1, s[1..]);
      YieldsConcat(t, [s[0]], t1, s[1..], Typed(t1, s[1..]));
      assert [s[0]] + s[1..] == s;
    }
  }

  /** Text is shown as it is sent: the code points of cells that fit on the line, sent between sequences, take the
      terminal to one that shows these cells from the cursor on and is otherwise the same, but for its cursor. */
  lemma TextIsShown(t: Terminal, c: Grid)
    requires Inv(t) && t.parser.state == NoEscape && Plain(t)
    requires WellFormed(c) && Printable(Points(c)) && (c == [] || HasRoom(t, |c|))
    ensures CursorRow(t) == Active(t.screens).screen[t.cursor.row] && 0 < Columns(t)
    ensures Yields(t, Points(c), Typed(t, Points(c))) && CellsTyped(t, Typed(t, Points(c)), c)
  {
    hide Inv, Typed, Points, CellsTyped, Yields, Printable, WellFormed;
    TextIsTyped(t, Points(c));
    TypedCells(t, c);
  }

  /** In particular, a row is reproduced on a blank one. */
  lemma RowIsReproduced(t: Terminal, c: Grid)
    requires Inv(t) && t.parser.state == NoEscape && Plain(t) && t.cursor.col == 0 && !t.cursor.aboutToWrap
    requires WellFormed(c) && Printable(Points(c)) && |c| == Columns(t) && CursorRow(t).grid == Blanks(Columns(t))
    ensures |Active(Typed(t, Points(c)).screens).screen| == |Active(t.screens).screen|
    ensures Yields(t, Points(c), Typed(t, Points(c)))
    ensures Active(Typed(t, Points(c)).screens).screen[t.cursor.row].grid == c
  {
    hide Inv, Typed, Points, Yields, Printable, WellFormed;
    TextIsShown(t, c);
    var r' := Active(Typed(t, Points(c)).screens).screen[t.cursor.row];
    BlanksLendNothing(Columns(t), c);
    assert forall k :: 0 <= k < |c| ==> r'.grid[k] == Written(Blanks(Columns(t)), c, 0, k);
  }

  lemma BlanksLendNothing(columns: nat, c: Grid)
    requires |c| == columns
    ensures forall k :: 0 <= k < columns ==> Written(Blanks(columns), c, 0, k) == c[k]
  {
    BlanksAreClean(columns, c);
    RowOverExactly(Blanks(columns), c);
  }
}
