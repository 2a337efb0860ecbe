/** A terminal buffer as a value: the list of history rows, the list of screen rows, and the slots not in use.
    This is what TerminalBuffer's ring of row objects is proved to stand for. */
module Page {
  import opened Common
  import opened WcWidth
  import opened Utf16
  import opened Row
  import RowCopy
  import CellCopy
  import StyleCopy
  import TextStyle
  import Ring

  datatype Page = Page(
    columns: nat,
    history: seq<RowValue>,          // oldest first
    screen: seq<RowValue>,
    spare: seq<Option<RowValue>>,    // slots below the screen that hold no visible row, in ring order
    first: nat)                      // the slot where the screen starts

  function Total(p: Page): nat {
    |p.screen| + |p.spare| + |p.history|
  }

  /** The ring read from the first screen row on. */
  function SlotOf(p: Page, k: nat): Option<RowValue>
    requires k < Total(p)
  {
    if k < |p.screen| then Some(p.screen[k])
    else if k < |p.screen| + |p.spare| then p.spare[k - |p.screen|]
    else Some(p.history[k - |p.screen| - |p.spare|])
  }

  predicate GoodRow(r: RowValue, columns: nat) {
    |r.grid| == columns == |r.style| && WellFormed(r.grid)
  }

  predicate GoodRows(rows: seq<RowValue>, columns: nat) {
    forall i :: 0 <= i < |rows| ==> GoodRow(rows[i], columns)
  }

  predicate Good(p: Page) {
    && 2 <= p.columns && 0 < |p.screen|
    && GoodRows(p.screen, p.columns) && GoodRows(p.history, p.columns)
    && (forall i :: 0 <= i < |p.spare| ==> p.spare[i].Some? ==> GoodRow(p.spare[i].value, p.columns))
  }

  lemma BlankRowIsGood(columns: nat, st: Style, wrap: bool)
    ensures GoodRow(BlankRow(columns, st, wrap), columns)
  {
    LatinIsNarrow(SPACE);
  }

  function SetRow(p: Page, row: nat, r: RowValue): Page
    requires row < |p.screen|
  {
    p.(screen := p.screen[row := r])
  }

  // ----- Writing -----

  function SetChar(p: Page, column: nat, row: nat, c: CodePoint, st: Style): (p': Page)
    requires Good(p) && row < |p.screen| && column < p.columns && column + Width(c) <= p.columns
    ensures Good(p') && |p'.screen| == |p.screen| && p'.columns == p.columns
  {
    assert GoodRow(p.screen[row], p.columns);
    PlaceKeeps(p.screen[row].grid, column, c);
    SetRow(p, row, Put(p.screen[row], column, c, st))
  }

  function FillRow(r: RowValue, x: nat, w: nat, c: CodePoint, st: Style): (r': RowValue)
    requires x + w <= |r.grid| == |r.style| && Width(c) == 1
    ensures |r'.grid| == |r.grid| == |r'.style| && r'.wrap == r.wrap
    decreases w
  {
    if w == 0 then r else FillRow(Put(r, x, c, st), x + 1, w - 1, c, st)
  }

  lemma {:induction false} FillRowKeeps(r: RowValue, x: nat, w: nat, c: CodePoint, st: Style)
    requires x + w <= |r.grid| == |r.style| && Width(c) == 1 && WellFormed(r.grid)
    ensures WellFormed(FillRow(r, x, w, c, st).grid)
    decreases w
  {
    hide WellFormed, Place, PlaceStyle;
    if w > 0 {
      PlaceKeeps(r.grid, x, c);
      FillRowKeeps(Put(r, x, c, st), x + 1, w - 1, c, st);
    }
  }

  /** Filling part of a row: the columns get the narrow code point, and a wide cell cut at either end leaves a
      space behind. Only the space to the left takes the new style. */
  lemma {:induction false} FillRowAt(r: RowValue, x: nat, w: nat, c: CodePoint, st: Style, k: nat)
    requires x + w <= |r.grid| == |r.style| && Width(c) == 1 && WellFormed(r.grid) && 0 < w && k < |r.grid|
    ensures FillRow(r, x, w, c, st).grid[k] ==
      if x <= k < x + w then Cell(c, [])
      else if (k + 1 == x && r.grid[x].Rest?) || (k == x + w && r.grid[k].Rest?) then BLANK
      else r.grid[k]
    ensures FillRow(r, x, w, c, st).style[k] ==
      if x <= k < x + w || (k + 1 == x && r.grid[x].Rest?) then st else r.style[k]
    decreases w
  {
    hide Place, WellFormed;
    var r1 := Put(r, x, c, st);
    PlaceNarrowAt(r.grid, x, c, k);
    PlaceKeeps(r.grid, x, c);
    if w > 1 {
      PlaceNarrowAt(r.grid, x, c, x + 1);
      PlaceNarrowAt(r.grid, x, c, if k == x + w then k else x);
      FillRowAt(r1, x + 1, w - 1, c, st, k);
    }
  }

  /** Filling a whole row. */
  lemma FillWholeRow(r: RowValue, c: CodePoint, st: Style)
    requires 0 < |r.grid| == |r.style| && Width(c) == 1 && WellFormed(r.grid)
    ensures FillRow(r, 0, |r.grid|, c, st) ==
      RowValue(seq(|r.grid|, _ => Cell(c, [])), seq(|r.grid|, _ => st), r.wrap)
  {
    var n, r' := |r.grid|, FillRow(r, 0, |r.grid|, c, st);
    hide FillRow;
    forall k | 0 <= k < n ensures r'.grid[k] == Cell(c, []) && r'.style[k] == st {
      FillRowAt(r, 0, n, c, st, k);
    }
    assert r'.grid == seq(n, _ => Cell(c, []));
    assert r'.style == seq(n, _ => st);
  }

  /** Filling columns [sx, sx + w) of rows [sy, sy + h). */
  function BlockSet(p: Page, sx: nat, sy: nat, w: nat, h: nat, c: CodePoint, st: Style): (p': Page)
    requires Good(p) && sx + w <= p.columns && sy + h <= |p.screen| && Width(c) == 1
    ensures Good(p') && |p'.screen| == |p.screen| && p'.columns == p.columns
    decreases h
  {
    if h == 0 then p
    else
      assert GoodRow(p.screen[sy], p.columns);
      FillRowKeeps(p.screen[sy], sx, w, c, st);
      BlockSet(SetRow(p, sy, FillRow(p.screen[sy], sx, w, c, st)), sx, sy + 1, w, h - 1, c, st)
  }

  lemma {:induction false} BlockSetRows(p: Page, sx: nat, sy: nat, w: nat, h: nat, c: CodePoint, st: Style, i: nat)
    requires Good(p) && sx + w <= p.columns && sy + h <= |p.screen| && Width(c) == 1 && i < |p.screen|
    ensures GoodRow(p.screen[i], p.columns)
    ensures var p' := BlockSet(p, sx, sy, w, h, c, st);
      && p' == p.(screen := p'.screen)
      && p'.screen[i] == if sy <= i < sy + h then FillRow(p.screen[i], sx, w, c, st) else p.screen[i]
    decreases h
  {
    hide WellFormed, FillRow;
    if h > 0 {
      assert GoodRow(p.screen[sy], p.columns);
      FillRowKeeps(p.screen[sy], sx, w, c, st);
      BlockSetRows(SetRow(p, sy, FillRow(p.screen[sy], sx, w, c, st)), sx, sy + 1, w, h - 1, c, st, i);
    }
  }

  // ----- Copying -----

  /** A rectangle of `w` by `h` columns and rows at (sx, sy), to be copied to (dx, dy). */
  datatype Block = Block(sx: nat, sy: nat, w: nat, h: nat, dx: nat, dy: nat)

  predicate Fits(b: Block, columns: nat, rows: nat) {
    b.sx + b.w <= columns && b.sy + b.h <= rows && b.dx + b.w <= columns && b.dy + b.h <= rows
  }

  /** The row `dst` with the block's columns copied from `src`. */
  ghost function CopyColumns(dst: RowValue, src: RowValue, b: Block): RowValue {
    var same := b.sy == b.dy;
    if RowCopy.CanCopy(dst, src, same, b.sx, b.sx + b.w, b.dx) then
      RowCopy.CopyInterval(dst, src, same, b.sx, b.sx + b.w, b.dx)
    else dst
  }

  lemma CopyColumnsKeeps(dst: RowValue, src: RowValue, b: Block, columns: nat)
    requires GoodRow(dst, columns) && GoodRow(src, columns) && (b.sy == b.dy ==> src == dst)
    requires b.sx + b.w <= columns && b.dx + b.w <= columns
    ensures RowCopy.CanCopy(dst, src, b.sy == b.dy, b.sx, b.sx + b.w, b.dx)
    ensures GoodRow(CopyColumns(dst, src, b), columns)
  {
    hide RowCopy.CopyInterval, WellFormed;
    RowCopy.CopyKeeps(dst, src, b.sy == b.dy, b.sx, b.sx + b.w, b.dx);
  }

  /** One row of a block copy. */
  ghost function CopyRow(rows: seq<RowValue>, b: Block, y: nat): seq<RowValue>
    requires b.sy + y < |rows| && b.dy + y < |rows|
  {
    rows[b.dy + y := CopyColumns(rows[b.dy + y], rows[b.sy + y], b)]
  }

  /** Rows y, y + 1, ..., h - 1 of the block, in this order. */
  ghost function CopyUp(rows: seq<RowValue>, b: Block, y: nat): (r: seq<RowValue>)
    requires b.sy + b.h <= |rows| && b.dy + b.h <= |rows| && y <= b.h
    ensures |r| == |rows|
    decreases b.h - y
  {
    if y == b.h then rows else CopyUp(CopyRow(rows, b, y), b, y + 1)
  }

  /** Rows y - 1, y - 2, ..., 0 of the block, in this order. */
  ghost function CopyDown(rows: seq<RowValue>, b: Block, y: nat): (r: seq<RowValue>)
    requires b.sy + b.h <= |rows| && b.dy + b.h <= |rows| && y <= b.h
    ensures |r| == |rows|
    decreases y
  {
    if y == 0 then rows else CopyDown(CopyRow(rows, b, y - 1), b, y - 1)
  }

  ghost function CopyRows(rows: seq<RowValue>, b: Block): (r: seq<RowValue>)
    requires b.sy + b.h <= |rows| && b.dy + b.h <= |rows|
    ensures |r| == |rows|
  {
    if b.w == 0 then rows
    else if b.sy > b.dy then CopyUp(rows, b, 0)
    else CopyDown(rows, b, b.h)
  }

  /** What row `i` should be after a block copy: copied from the source row as it was before the call. */
  ghost function Moved(rows: seq<RowValue>, b: Block, i: nat): RowValue
    requires b.sy + b.h <= |rows| && b.dy + b.h <= |rows| && i < |rows|
  {
    if b.dy <= i < b.dy + b.h then CopyColumns(rows[i], rows[b.sy + i - b.dy], b) else rows[i]
  }

  lemma {:induction false} CopyUpRows(rows: seq<RowValue>, b: Block, y: nat, i: nat)
    requires b.sy + b.h <= |rows| && b.dy + b.h <= |rows| && y <= b.h && b.sy > b.dy && i < |rows|
    ensures CopyUp(rows, b, y)[i] == if b.dy + y <= i then Moved(rows, b, i) else rows[i]
    decreases b.h - y
  {
    hide CopyColumns;
    if y < b.h {
      CopyUpRows(CopyRow(rows, b, y), b, y + 1, i);
    }
  }

  lemma {:induction false} CopyDownRows(rows: seq<RowValue>, b: Block, y: nat, i: nat)
    requires b.sy + b.h <= |rows| && b.dy + b.h <= |rows| && y <= b.h && b.sy <= b.dy && i < |rows|
    ensures CopyDown(rows, b, y)[i] == if i < b.dy + y then Moved(rows, b, i) else rows[i]
    decreases y
  {
    hide CopyColumns;
    if y > 0 {
      CopyDownRows(CopyRow(rows, b, y - 1), b, y - 1, i);
    }
  }

  /** Overlapping or not, every row of the target is copied from its source row as it was before the call,
      and all other rows are unchanged. */
  lemma CopyRowsIsMove(rows: seq<RowValue>, b: Block, i: nat)
    requires b.sy + b.h <= |rows| && b.dy + b.h <= |rows| && 0 < b.w && i < |rows|
    ensures CopyRows(rows, b)[i] == Moved(rows, b, i)
  {
    if b.sy > b.dy {
      CopyUpRows(rows, b, 0, i);
    } else {
      CopyDownRows(rows, b, b.h, i);
    }
  }

  lemma CopyRowsKeeps(rows: seq<RowValue>, b: Block, columns: nat)
    requires GoodRows(rows, columns) && Fits(b, columns, |rows|)
    ensures GoodRows(CopyRows(rows, b), columns)
  {
    if b.w > 0 {
      hide CopyRows, CopyColumns, WellFormed, Moved, GoodRow;
      forall i | 0 <= i < |rows| ensures GoodRow(CopyRows(rows, b)[i], columns) {
        CopyRowsIsMove(rows, b, i);
        MovedKeeps(rows, b, i, columns);
      }
    }
  }

  lemma MovedKeeps(rows: seq<RowValue>, b: Block, i: nat, columns: nat)
    requires GoodRows(rows, columns) && Fits(b, columns, |rows|) && i < |rows|
    ensures GoodRow(Moved(rows, b, i), columns)
  {
    hide WellFormed, CopyColumns;
    if b.dy <= i < b.dy + b.h {
      CopyColumnsKeeps(rows[i], rows[b.sy + i - b.dy], b, columns);
    }
  }

  lemma MovedRowIsGood(p: Page, b: Block, y: nat)
    requires Good(p) && Fits(b, p.columns, |p.screen|) && y < b.h
    ensures Good(p.(screen := CopyRow(p.screen, b, y)))
  {
    hide CopyColumns, WellFormed;
    CopyColumnsKeeps(p.screen[b.dy + y], p.screen[b.sy + y], b, p.columns);
  }

  ghost function BlockCopy(p: Page, b: Block): (p': Page)
    requires Good(p) && Fits(b, p.columns, |p.screen|)
    ensures Good(p') && |p'.screen| == |p.screen| && p'.columns == p.columns
  {
    CopyRowsKeeps(p.screen, b, p.columns);
    p.(screen := CopyRows(p.screen, b))
  }

  /** On rows of single code points a block copy is memmove on the text of the rectangle; styles move along
      unless the copy goes to the right within the same rows. */
  lemma BlockCopyIsMemmove(p: Page, b: Block, i: nat)
    requires Good(p) && Fits(b, p.columns, |p.screen|) && 0 < b.w && i < |p.screen|
    requires b.dy <= i < b.dy + b.h ==>
      RowCopy.Simple(p.screen[i].grid) && RowCopy.Simple(p.screen[b.sy + i - b.dy].grid)
    ensures BlockCopy(p, b).screen[i] ==
      if b.dy <= i < b.dy + b.h then MovedCells(p.screen[i], p.screen[b.sy + i - b.dy], b) else p.screen[i]
  {
    hide CopyRows, CopyColumns, WellFormed, RowCopy.Simple;
    CopyRowsIsMove(p.screen, b, i);
    if b.dy <= i < b.dy + b.h {
      MoveSimple(p.screen[i], p.screen[b.sy + i - b.dy], b, p.columns);
    }
  }

  function MovedCells(dst: RowValue, src: RowValue, b: Block): RowValue
    requires |dst.grid| == |dst.style| == |src.grid| == |src.style|
    requires b.sx + b.w <= |src.grid| && b.dx + b.w <= |dst.grid|
  {
    RowValue(
      RowCopy.Overlay(dst.grid, b.dx, src.grid[b.sx..b.sx + b.w]),
      if b.sy == b.dy && b.sx < b.dx then RowCopy.Smear(dst.style, b.sx, b.dx, b.w)
      else RowCopy.Overlay(dst.style, b.dx, src.style[b.sx..b.sx + b.w]),
      dst.wrap)
  }

  lemma MoveSimple(dst: RowValue, src: RowValue, b: Block, columns: nat)
    requires GoodRow(dst, columns) && GoodRow(src, columns) && (b.sy == b.dy ==> src == dst)
    requires b.sx + b.w <= columns && b.dx + b.w <= columns
    requires RowCopy.Simple(dst.grid) && RowCopy.Simple(src.grid)
    ensures CopyColumns(dst, src, b) == MovedCells(dst, src, b)
  {
    hide RowCopy.CopyInterval, WellFormed, RowCopy.Smear, RowCopy.Overlay, RowCopy.Simple;
    RowCopy.CopySimple(dst, src, b.sy == b.dy, b.sx, b.sx + b.w, b.dx);
  }

  /** A block copy, row by row. */
  lemma RowCopied(p: Page, b: Block, i: nat)
    requires Good(p) && Fits(b, p.columns, |p.screen|) && i < |p.screen|
    ensures GoodRow(p.screen[i], p.columns)
    ensures b.dy <= i < b.dy + b.h ==> GoodRow(p.screen[b.sy + i - b.dy], p.columns)
    ensures BlockCopy(p, b).screen[i] == Moved(p.screen, b, i)
  {
    assert GoodRow(p.screen[i], p.columns);
    assert b.dy <= i < b.dy + b.h ==> GoodRow(p.screen[b.sy + i - b.dy], p.columns);
    hide Good, CopyColumns, GoodRow;
    if b.w > 0 {
      CopyRowsIsMove(p.screen, b, i);
    } else if b.dy <= i < b.dy + b.h {
      NoColumns(p.screen[i], p.screen[b.sy + i - b.dy], b, p.columns);
    }
  }

  lemma NoColumns(dst: RowValue, src: RowValue, b: Block, columns: nat)
    requires GoodRow(dst, columns) && GoodRow(src, columns) && b.w == 0 && b.sx <= columns && b.dx <= columns
    ensures CopyColumns(dst, src, b) == dst
  {
  }

  /** Every cell after a block copy, for all rows: it is written with what was read from the source row as it was. */
  lemma BlockCopyCell(p: Page, b: Block, i: nat, k: nat)
    requires Good(p) && Fits(b, p.columns, |p.screen|) && i < |p.screen| && k < p.columns
    ensures GoodRow(p.screen[i], p.columns)
    ensures b.dy <= i < b.dy + b.h ==> GoodRow(p.screen[b.sy + i - b.dy], p.columns)
    ensures |BlockCopy(p, b).screen[i].grid| == p.columns
    ensures BlockCopy(p, b).screen[i].grid[k] ==
      if b.dy <= i < b.dy + b.h then
        var read := CellCopy.CellsRead(p.screen[b.sy + i - b.dy].grid, b.sx, b.sx + b.w);
        CellCopy.Written(p.screen[i].grid, read, b.dx, k)
      else p.screen[i].grid[k]
  {
    hide CopyColumns, WellFormed, Good, BlockCopy;
    RowCopied(p, b, i);
    if b.dy <= i < b.dy + b.h {
      ColumnsCopied(p.screen[i], p.screen[b.sy + i - b.dy], b, p.columns, k);
    }
  }

  lemma ColumnsCopied(dst: RowValue, src: RowValue, b: Block, columns: nat, k: nat)
    requires GoodRow(dst, columns) && GoodRow(src, columns) && (b.sy == b.dy ==> src == dst)
    requires b.sx + b.w <= columns && b.dx + b.w <= columns && k < columns
    ensures |CopyColumns(dst, src, b).grid| == columns
    ensures CopyColumns(dst, src, b).grid[k] ==
      CellCopy.Written(dst.grid, CellCopy.CellsRead(src.grid, b.sx, b.sx + b.w), b.dx, k)
  {
    hide RowCopy.CopyInterval, WellFormed;
    CellCopy.CopiedCell(dst, src, b.sy == b.dy, b.sx, b.sx + b.w, b.dx, k);
  }

  /** Every style after a block copy that does not go to the right within the same rows. */
  lemma BlockCopyStyle(p: Page, b: Block, i: nat, k: nat)
    requires Good(p) && Fits(b, p.columns, |p.screen|) && i < |p.screen| && k < p.columns
    requires !(b.sy == b.dy && b.sx < b.dx)
    ensures GoodRow(p.screen[i], p.columns)
    ensures b.dy <= i < b.dy + b.h ==> GoodRow(p.screen[b.sy + i - b.dy], p.columns)
    ensures |BlockCopy(p, b).screen[i].style| == p.columns
    ensures BlockCopy(p, b).screen[i].style[k] ==
      if b.dy <= i < b.dy + b.h then StyleAfterCopy(p.screen[i], p.screen[b.sy + i - b.dy], b, k)
      else p.screen[i].style[k]
  {
    hide CopyColumns, WellFormed, Good, BlockCopy, StyleAfterCopy;
    RowCopied(p, b, i);
    if b.dy <= i < b.dy + b.h {
      StylesCopied(p.screen[i], p.screen[b.sy + i - b.dy], b, p.columns, k);
    }
  }

  function StyleAfterCopy(dst: RowValue, src: RowValue, b: Block, k: nat): Style
    requires |dst.grid| == |dst.style| == |src.grid| == |src.style|
    requires b.sx + b.w <= |src.grid| && b.dx + b.w <= |dst.grid| && k < |dst.grid|
  {
    StyleCopy.StyleWritten(dst, CellCopy.CellsRead(src.grid, b.sx, b.sx + b.w), src.style[b.sx..], b.dx, k)
  }

  lemma StylesCopied(dst: RowValue, src: RowValue, b: Block, columns: nat, k: nat)
    requires GoodRow(dst, columns) && GoodRow(src, columns) && (b.sy == b.dy ==> src == dst && b.dx <= b.sx)
    requires b.sx + b.w <= columns && b.dx + b.w <= columns && k < columns
    ensures |CopyColumns(dst, src, b).style| == columns
    ensures CopyColumns(dst, src, b).style[k] == StyleAfterCopy(dst, src, b, k)
  {
    hide RowCopy.CopyInterval, WellFormed;
    StyleCopy.CopiedStyle(dst, src, b.sy == b.dy, b.sx, b.sx + b.w, b.dx, k);
  }

  /** Copying whole rows. */
  lemma WholeRowsMove(p: Page, b: Block, i: nat)
    requires Good(p) && Fits(b, p.columns, |p.screen|) && b.sx == b.dx == 0 && b.w == p.columns && i < |p.screen|
    ensures GoodRow(p.screen[i], p.columns)
    ensures b.dy <= i < b.dy + b.h ==> GoodRow(p.screen[b.sy + i - b.dy], p.columns)
    ensures BlockCopy(p, b).screen[i].grid ==
      if b.dy <= i < b.dy + b.h then CellCopy.RowOver(p.screen[i].grid, p.screen[b.sy + i - b.dy].grid)
      else p.screen[i].grid
  {
    hide CopyColumns, WellFormed, Good, BlockCopy, CellCopy.RowOver;
    RowCopied(p, b, i);
    if b.dy <= i < b.dy + b.h {
      WholeRowMoves(p.screen[i], p.screen[b.sy + i - b.dy], b, p.columns);
    }
  }

  lemma WholeRowMoves(dst: RowValue, src: RowValue, b: Block, columns: nat)
    requires GoodRow(dst, columns) && GoodRow(src, columns) && (b.sy == b.dy ==> src == dst)
    requires b.sx == 0 && b.dx == 0 && b.w == columns
    ensures CopyColumns(dst, src, b).grid == CellCopy.RowOver(dst.grid, src.grid)
  {
    hide RowCopy.CopyInterval, WellFormed;
    CellCopy.WholeRowCopied(dst, src, b.sy == b.dy);
  }

  // ----- Scrolling -----

  /** Scrolling rows [top, bottom) up by one: the row at `top` becomes the newest history row, and a blank row
      appears above `bottom`. The blank row takes a free slot, or else the slot of the oldest history row, and
      keeps the line wrap mark found there. */
  function ScrollDownOneLine(p: Page, top: nat, bottom: nat, st: Style): (p': Page)
    requires Good(p) && top < bottom <= |p.screen|
    ensures Good(p') && Total(p') == Total(p) && |p'.screen| == |p.screen| && p'.columns == p.columns
  {
    var grown := p.history + [p.screen[top]];
    var taken := if p.spare == [] then Some(grown[0]) else p.spare[0];
    var wrap := taken.Some? && taken.value.wrap;
    BlankRowIsGood(p.columns, st, wrap);
    Page(
      p.columns,
      if p.spare == [] then grown[1..] else grown,
      p.screen[..top] + p.screen[top + 1..bottom] + [BlankRow(p.columns, st, wrap)] + p.screen[bottom..],
      if p.spare == [] then [] else p.spare[1..],
      (p.first + 1) % Total(p))
  }

  /** The wrap mark that the blank row of a scroll inherits. */
  function InheritedWrap(p: Page, top: nat): bool
    requires top < |p.screen|
  {
    var taken := SlotOf(p, if |p.screen| < Total(p) then |p.screen| else top);
    taken.Some? && taken.value.wrap
  }

  /** A scroll on the ring of slots. */
  lemma ScrollSlots(p: Page, top: nat, bottom: nat, st: Style, k: nat)
    requires Good(p) && top < bottom <= |p.screen| && k < Total(p)
    ensures SlotOf(ScrollDownOneLine(p, top, bottom, st), k) ==
      if k == bottom - 1 then Some(BlankRow(p.columns, st, InheritedWrap(p, top)))
      else SlotOf(p, Ring.ScrolledFrom(Total(p), top, bottom, |p.screen|, k))
  {
    hide Good;
  }

  /** A screen without history whose top row is wrapped. */
  function TopWrapped(): Page {
    Page(2, [], [BlankRow(2, 0, true), BlankRow(2, 0, false)], [], 0)
  }

  /** When it scrolls, the blank row at the bottom is marked as wrapped, without ever having been written to. */
  lemma BlankRowIsWrapped(st: Style)
    ensures Good(TopWrapped())
    ensures ScrollDownOneLine(TopWrapped(), 0, 2, st).screen == [BlankRow(2, 0, false), BlankRow(2, st, true)]
  {
    BlankRowIsGood(2, 0, true);
    BlankRowIsGood(2, 0, false);
    hide BlankRow, GoodRow;
  }

  /** Scrolling `n` times. */
  function Scrolls(p: Page, top: nat, bottom: nat, st: Style, n: nat): (p': Page)
    requires Good(p) && top < bottom <= |p.screen|
    ensures Good(p') && Total(p') == Total(p) && |p'.screen| == |p.screen| && p'.columns == p.columns
  {
    if n == 0 then p else ScrollDownOneLine(Scrolls(p, top, bottom, st, n - 1), top, bottom, st)
  }

  lemma {:induction false} ScrollsFromFront(p: Page, top: nat, bottom: nat, st: Style, n: nat)
    requires Good(p) && top < bottom <= |p.screen| && 0 < n
    ensures Scrolls(p, top, bottom, st, n) == Scrolls(ScrollDownOneLine(p, top, bottom, st), top, bottom, st, n - 1)
    decreases n
  {
    hide Good, ScrollDownOneLine;
    if n > 1 {
      ScrollsFromFront(p, top, bottom, st, n - 1);
    }
  }

  /** The newest rows, as many as there is room for. */
  function Newest(rows: seq<RowValue>, room: nat): seq<RowValue> {
    if |rows| <= room then rows else rows[|rows| - room..]
  }

  predicate AllBlank(rows: seq<RowValue>, columns: nat, st: Style) {
    forall i :: 0 <= i < |rows| ==>
      rows[i].grid == Blanks(columns) && rows[i].style == BlankRow(columns, st, false).style
  }

  /** `n` scrolls append the top `n` rows of the region to the history, which keeps the newest rows that fit beside the
      screen; the other rows of the region move up, blank ones follow, and the rows outside it stay. */
  lemma {:induction false} ScrollsAreList(p: Page, top: nat, bottom: nat, st: Style, n: nat)
    requires Good(p) && top + n <= bottom <= |p.screen| && top < bottom
    ensures var p' := Scrolls(p, top, bottom, st, n);
      && p'.history == Newest(p.history + p.screen[top..top + n], Total(p) - |p.screen|)
      && p'.screen[..bottom - n] == p.screen[..top] + p.screen[top + n..bottom]
      && AllBlank(p'.screen[bottom - n..bottom], p.columns, st)
      && p'.screen[bottom..] == p.screen[bottom..]
    decreases n
  {
    hide Good, AllBlank, Newest, ScrollDownOneLine;
    if n == 0 {
      NoScroll(p, top, bottom, st);
    } else {
      ScrollsAreList(p, top, bottom, st, n - 1);
      var q := Scrolls(p, top, bottom, st, n - 1);
      TopRow(p, q, top, bottom, n);
      NewestNext(p.history + p.screen[top..top + n - 1], q.screen[top], Total(p) - |p.screen|);
      ScrollHistory(q, top, bottom, st);
      ScrollRows(p, q, top, bottom, st, n);
    }
  }

  lemma NoScroll(p: Page, top: nat, bottom: nat, st: Style)
    requires Good(p) && top < bottom <= |p.screen|
    ensures p.history == Newest(p.history + p.screen[top..top], Total(p) - |p.screen|)
    ensures p.screen[..bottom] == p.screen[..top] + p.screen[top..bottom]
    ensures AllBlank(p.screen[bottom..bottom], p.columns, st)
  {
    hide Good;
    assert p.history + p.screen[top..top] == p.history;
  }

  /** The row that the next scroll takes into the history. */
  lemma TopRow(p: Page, q: Page, top: nat, bottom: nat, n: nat)
    requires 0 < n && top + n <= bottom <= |p.screen| == |q.screen|
    requires q.screen[..bottom - (n - 1)] == p.screen[..top] + p.screen[top + n - 1..bottom]
    ensures p.history + p.screen[top..top + n - 1] + [q.screen[top]] == p.history + p.screen[top..top + n]
  {
    assert q.screen[top] == q.screen[..bottom - (n - 1)][top] == p.screen[top + n - 1];
  }

  lemma NewestNext(rows: seq<RowValue>, r: RowValue, room: nat)
    ensures Newest(Newest(rows, room) + [r], room) == Newest(rows + [r], room)
  {
  }

  /** The history after one scroll. */
  lemma ScrollHistory(p: Page, top: nat, bottom: nat, st: Style)
    requires Good(p) && top < bottom <= |p.screen|
    ensures ScrollDownOneLine(p, top, bottom, st).history == Newest(p.history + [p.screen[top]], Total(p) - |p.screen|)
  {
    hide Good;
  }

  /** The screen after one more scroll. */
  lemma ScrollRows(p: Page, q: Page, top: nat, bottom: nat, st: Style, n: nat)
    requires Good(q) && 0 < n && top + n <= bottom <= |p.screen| == |q.screen| && p.columns == q.columns
    requires q.screen[..bottom - (n - 1)] == p.screen[..top] + p.screen[top + n - 1..bottom]
    requires AllBlank(q.screen[bottom - (n - 1)..bottom], p.columns, st) && q.screen[bottom..] == p.screen[bottom..]
    ensures var p' := ScrollDownOneLine(q, top, bottom, st);
      && p'.screen[..bottom - n] == p.screen[..top] + p.screen[top + n..bottom]
      && AllBlank(p'.screen[bottom - n..bottom], p.columns, st)
      && p'.screen[bottom..] == p.screen[bottom..]
  {
    hide Good, Blanks;
    var p', m := ScrollDownOneLine(q, top, bottom, st), bottom - n;
    var blank := p'.screen[bottom - 1];
    assert p'.screen == q.screen[..top] + q.screen[top + 1..bottom] + [blank] + q.screen[bottom..];
    ShiftedUp(q.screen, top, m, bottom, blank);
    var head := q.screen[..m + 1];
    assert head[..top] == p.screen[..top] && head[top + 1..] == p.screen[top + n..bottom];
  }

  lemma ShiftedUp<T>(s: seq<T>, top: nat, m: nat, bottom: nat, last: T)
    requires top <= m < bottom <= |s|
    ensures var s' := s[..top] + s[top + 1..bottom] + [last] + s[bottom..];
      && s'[..m] == s[..m + 1][..top] + s[..m + 1][top + 1..]
      && s'[m..bottom] == s[m + 1..bottom] + [last] && s'[bottom..] == s[bottom..]
  {
  }

  /** Forgetting the history frees its slots. */
  function ClearTranscript(p: Page): (p': Page)
    requires Good(p)
    ensures Good(p') && Total(p') == Total(p)
  {
    p.(history := [], spare := p.spare + seq(|p.history|, _ => None))
  }

  lemma ForgottenSlot(p: Page, k: nat)
    requires Good(p) && k < Total(p)
    ensures SlotOf(ClearTranscript(p), k) == if k < |p.screen| + |p.spare| then SlotOf(p, k) else None
  {
    hide Good;
  }

  // ----- Effects -----

  /** What setOrClearEffect is called with. */
  datatype Change = Change(bits: bv32, setOrClear: bool, reverse: bool, rectangular: bool,
                           leftMargin: nat, rightMargin: nat, top: nat, left: nat, bottom: nat, right: nat)

  function StartOfLine(e: Change, y: nat): nat {
    if e.rectangular || y == e.top then e.left else e.leftMargin
  }

  function EndOfLine(e: Change, y: nat): nat {
    if e.rectangular || y + 1 == e.bottom then e.right else e.rightMargin
  }

  predicate ChangeFits(p: Page, e: Change) {
    e.bottom <= |p.screen| && e.right <= p.columns && e.rightMargin <= p.columns
  }

  function ChangeRow(r: RowValue, e: Change, y: nat): (r': RowValue)
    requires EndOfLine(e, y) <= |r.style|
    ensures |r'.style| == |r.style| && r'.grid == r.grid && r'.wrap == r.wrap
  {
    var x, end := StartOfLine(e, y), EndOfLine(e, y);
    if x < end then r.(style := ChangeColumns(r.style, x, end - x, e.bits, e.setOrClear, e.reverse)) else r
  }

  lemma ChangedRowIsGood(p: Page, e: Change, y: nat)
    requires Good(p) && ChangeFits(p, e) && y < e.bottom
    ensures GoodRow(p.screen[y], p.columns)
    ensures Good(SetRow(p, y, ChangeRow(p.screen[y], e, y)))
  {
  }

  /** Rows y, ..., bottom - 1 get changed effects. */
  function SetOrClearEffect(p: Page, e: Change, y: nat): (p': Page)
    requires Good(p) && ChangeFits(p, e)
    ensures Good(p') && |p'.screen| == |p.screen| && p'.columns == p.columns
    decreases e.bottom - y
  {
    if y >= e.bottom then p
    else
      assert GoodRow(p.screen[y], p.columns);
      SetOrClearEffect(SetRow(p, y, ChangeRow(p.screen[y], e, y)), e, y + 1)
  }

  lemma {:induction false} EffectEdits(p: Page, e: Change, y: nat)
    requires Good(p) && ChangeFits(p, e)
    ensures var p' := SetOrClearEffect(p, e, y); p' == p.(screen := p'.screen)
    decreases e.bottom - y
  {
    hide Good;
    if y < e.bottom {
      ChangedRowIsGood(p, e, y);
      EffectEdits(SetRow(p, y, ChangeRow(p.screen[y], e, y)), e, y + 1);
    }
  }

  /** What changing effects does to row `i`. */
  lemma {:induction false} ChangedRow(p: Page, e: Change, y: nat, i: nat)
    requires Good(p) && ChangeFits(p, e) && i < |p.screen|
    ensures e.bottom <= i || i < y ==> SetOrClearEffect(p, e, y).screen[i] == p.screen[i]
    ensures EndOfLine(e, i) <= |p.screen[i].style|
    ensures y <= i < e.bottom ==> SetOrClearEffect(p, e, y).screen[i] == ChangeRow(p.screen[i], e, i)
    decreases e.bottom - y
  {
    hide Good, ChangeRow, EndOfLine;
    RowFits(p, e, i);
    if y < e.bottom {
      RowFits(p, e, y);
      ChangedRowIsGood(p, e, y);
      ChangedRow(SetRow(p, y, ChangeRow(p.screen[y], e, y)), e, y + 1, i);
    }
  }

  lemma RowFits(p: Page, e: Change, i: nat)
    requires Good(p) && ChangeFits(p, e) && i < |p.screen|
    ensures EndOfLine(e, i) <= |p.screen[i].style|
  {
    assert GoodRow(p.screen[i], p.columns);
  }

  /** Blanking the whole screen. */
  lemma BlankScreen(p: Page, st: Style)
    requires Good(p)
    ensures BlockSet(p, 0, 0, p.columns, |p.screen|, SPACE, st) ==
      p.(screen := seq(|p.screen|, i requires 0 <= i < |p.screen| => BlankRow(p.columns, st, p.screen[i].wrap)))
  {
    LatinIsNarrow(SPACE);
    hide BlockSet, WellFormed;
    var p' := BlockSet(p, 0, 0, p.columns, |p.screen|, SPACE, st);
    BlockSetRows(p, 0, 0, p.columns, |p.screen|, SPACE, st, 0);
    forall i | 0 <= i < |p.screen| ensures p'.screen[i] == BlankRow(p.columns, st, p.screen[i].wrap) {
      BlockSetRows(p, 0, 0, p.columns, |p.screen|, SPACE, st, i);
      FillWholeRow(p.screen[i], SPACE, st);
    }
  }

  function SetLineWrap(p: Page, row: nat, wrap: bool): (p': Page)
    requires Good(p) && row < |p.screen|
    ensures Good(p')
  {
    assert GoodRow(p.screen[row], p.columns);
    SetRow(p, row, p.screen[row].(wrap := wrap))
  }

  /** A buffer when its screen rows have just been allocated. */
  function Allocated(columns: nat, total: nat, rows: nat): (p: Page)
    requires 2 <= columns && 0 < rows <= total
    ensures Good(p)
  {
    BlankRowIsGood(columns, 0, false);
    Page(columns, [], seq(rows, _ => BlankRow(columns, 0, false)), seq(total - rows, _ => None), 0)
  }

  /** A buffer when it is created. */
  function Initial(columns: nat, total: nat, rows: nat): (p: Page)
    requires 2 <= columns && 0 < rows <= total
    ensures Good(p)
  {
    BlankRowIsGood(columns, TextStyle.NORMAL, false);
    Page(columns, [], seq(rows, _ => BlankRow(columns, TextStyle.NORMAL, false)), seq(total - rows, _ => None), 0)
  }

  lemma InitialIsBlanked(columns: nat, total: nat, rows: nat)
    requires 2 <= columns && 0 < rows <= total && Width(SPACE) == 1
    ensures BlockSet(Allocated(columns, total, rows), 0, 0, columns, rows, SPACE, TextStyle.NORMAL) ==
      Initial(columns, total, rows)
  {
    BlankScreen(Allocated(columns, total, rows), TextStyle.NORMAL);
  }
}
