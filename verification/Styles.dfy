/** The styles of all cells: every one of them is the encoding of two colours and an effect, whatever is done to a
    buffer. */
module Styles {
  import opened Common
  import opened WcWidth
  import opened Utf16
  import opened Row
  import RowCopy
  import P = Page
  import FastResize
  import Reflow
  import TextStyle

  type Page = P.Page

  ghost predicate AllEncoded(style: seq<Style>) {
    forall k :: 0 <= k < |style| ==> TextStyle.IsEncoded(style[k])
  }

  ghost predicate RowEncoded(r: RowValue) {
    AllEncoded(r.style)
  }

  ghost predicate RowsEncoded(rows: seq<RowValue>) {
    forall i :: 0 <= i < |rows| ==> RowEncoded(rows[i])
  }

  ghost predicate SlotsEncoded(slots: seq<Option<RowValue>>) {
    forall i :: 0 <= i < |slots| && slots[i].Some? ==> RowEncoded(slots[i].value)
  }

  /** Every row of a buffer, those not visible included. */
  ghost predicate PageEncoded(p: Page) {
    RowsEncoded(p.screen) && RowsEncoded(p.history) && SlotsEncoded(p.spare)
  }

  // ----- Edits -----

  lemma PutEncoded(r: RowValue, k: nat, c: CodePoint, st: Style)
    requires RowEncoded(r) && TextStyle.IsEncoded(st) && k + Width(c) <= |r.grid| == |r.style| && k < |r.grid|
    ensures RowEncoded(Put(r, k, c, st))
  {
    hide TextStyle.IsEncoded, Place;
  }

  lemma BlankEncoded(columns: nat, st: Style, wrap: bool)
    requires TextStyle.IsEncoded(st)
    ensures RowEncoded(BlankRow(columns, st, wrap))
  {
    hide TextStyle.IsEncoded;
  }

  lemma SetRowEncoded(p: Page, row: nat, r: RowValue)
    requires PageEncoded(p) && row < |p.screen| && RowEncoded(r)
    ensures PageEncoded(P.SetRow(p, row, r))
  {
    hide RowEncoded;
  }

  lemma SetCharEncoded(p: Page, column: nat, row: nat, c: CodePoint, st: Style)
    requires P.Good(p) && row < |p.screen| && column < p.columns && column + Width(c) <= p.columns
    requires PageEncoded(p) && TextStyle.IsEncoded(st)
    ensures PageEncoded(P.SetChar(p, column, row, c, st))
  {
    assert P.GoodRow(p.screen[row], p.columns);
    hide P.Good, TextStyle.IsEncoded, Put, RowEncoded;
    PutEncoded(p.screen[row], column, c, st);
    SetRowEncoded(p, row, Put(p.screen[row], column, c, st));
  }

  lemma {:induction false} FillRowEncoded(r: RowValue, x: nat, w: nat, c: CodePoint, st: Style)
    requires x + w <= |r.grid| == |r.style| && Width(c) == 1 && RowEncoded(r) && TextStyle.IsEncoded(st)
    ensures RowEncoded(P.FillRow(r, x, w, c, st))
    decreases w
  {
    hide TextStyle.IsEncoded, RowEncoded;
    if w > 0 {
      PutEncoded(r, x, c, st);
      FillRowEncoded(Put(r, x, c, st), x + 1, w - 1, c, st);
    }
  }

  lemma BlockSetEncoded(p: Page, sx: nat, sy: nat, w: nat, h: nat, c: CodePoint, st: Style)
    requires P.Good(p) && sx + w <= p.columns && sy + h <= |p.screen| && Width(c) == 1
    requires PageEncoded(p) && TextStyle.IsEncoded(st)
    ensures PageEncoded(P.BlockSet(p, sx, sy, w, h, c, st))
  {
    assert 0 < |p.screen|;
    hide P.Good, TextStyle.IsEncoded, P.FillRow, RowEncoded, P.BlockSet;
    var p' := P.BlockSet(p, sx, sy, w, h, c, st);
    P.BlockSetRows(p, sx, sy, w, h, c, st, 0);
    forall i | 0 <= i < |p.screen| ensures RowEncoded(p'.screen[i]) {
      P.BlockSetRows(p, sx, sy, w, h, c, st, i);
      if sy <= i < sy + h {
        FillRowEncoded(p.screen[i], sx, w, c, st);
      }
    }
  }

  // ----- Copies -----

  ghost predicate SourceEncoded(from: RowCopy.StyleSource) {
    from.Fixed? ==> AllEncoded(from.style)
  }

  lemma {:induction false} WriteAllEncoded(r: RowValue, s: seq<CodePoint>, from: RowCopy.StyleSource,
      cur: RowCopy.Cursor)
    requires RowCopy.CanWrite(r, s, from, cur) && RowEncoded(r) && SourceEncoded(from)
    ensures RowEncoded(RowCopy.WriteAll(r, s, from, cur))
    decreases s
  {
    hide TextStyle.IsEncoded, RowCopy.WriteAll, Put, RowCopy.CanWrite, Width;
    if s != [] {
      RowCopy.WriteUnfold(r, s, from, cur);
      var next := RowCopy.Advance(cur, Width(s[0]));
      PutEncoded(r, next.dx, s[0], RowCopy.Styles(r, from)[next.sx]);
      WriteAllEncoded(RowCopy.WriteOne(r, s[0], from, next), s[1..], from, next);
    } else {
      RowCopy.NothingWritten(r, from, cur);
    }
  }

  lemma CopyCanWrite(dst: RowValue, src: RowValue, same: bool, x1: nat, x2: nat, dx: nat)
    requires RowCopy.CanCopy(dst, src, same, x1, x2, dx)
    ensures RowCopy.CanWrite(dst, RowCopy.Copied(src.grid, x1, x2),
                            if same then RowCopy.Live else RowCopy.Fixed(src.style), RowCopy.Cursor(x1, dx, 0))
  {
    hide RowCopy.Copied, WellFormed, RowCopy.TotalWidth;
    RowCopy.CopiedFits(src.grid, x1, x2);
  }

  lemma CopyColumnsEncoded(dst: RowValue, src: RowValue, b: P.Block)
    requires RowEncoded(dst) && RowEncoded(src)
    ensures RowEncoded(P.CopyColumns(dst, src, b))
  {
    hide TextStyle.IsEncoded, RowCopy.WriteAll, RowCopy.Copied, WellFormed, RowCopy.CanWrite, RowCopy.TotalWidth;
    var same := b.sy == b.dy;
    if RowCopy.CanCopy(dst, src, same, b.sx, b.sx + b.w, b.dx) {
      RowCopy.CopiedFits(src.grid, b.sx, b.sx + b.w);
      CopyCanWrite(dst, src, same, b.sx, b.sx + b.w, b.dx);
      WriteAllEncoded(dst, RowCopy.Copied(src.grid, b.sx, b.sx + b.w),
                      if same then RowCopy.Live else RowCopy.Fixed(src.style), RowCopy.Cursor(b.sx, b.dx, 0));
    }
  }

  lemma BlockCopyEncoded(p: Page, b: P.Block)
    requires P.Good(p) && P.Fits(b, p.columns, |p.screen|) && PageEncoded(p)
    ensures PageEncoded(P.BlockCopy(p, b))
  {
    hide P.Good, RowEncoded, P.CopyColumns;
    if b.w > 0 {
      forall i | 0 <= i < |p.screen| ensures RowEncoded(P.CopyRows(p.screen, b)[i]) {
        P.CopyRowsIsMove(p.screen, b, i);
        if b.dy <= i < b.dy + b.h {
          CopyColumnsEncoded(p.screen[i], p.screen[b.sy + i - b.dy], b);
        }
      }
    }
  }

  // ----- Scrolling, marks and effects -----

  lemma ScrollEncoded(p: Page, top: nat, bottom: nat, st: Style)
    requires P.Good(p) && top < bottom <= |p.screen| && PageEncoded(p) && TextStyle.IsEncoded(st)
    ensures PageEncoded(P.ScrollDownOneLine(p, top, bottom, st))
  {
    hide P.Good, RowEncoded, TextStyle.IsEncoded, BlankRow;
    var p' := P.ScrollDownOneLine(p, top, bottom, st);
    var wrap := P.InheritedWrap(p, top);
    BlankEncoded(p.columns, st, wrap);
    var grown := p.history + [p.screen[top]];
    assert RowsEncoded(grown);
    var blank := [BlankRow(p.columns, st, wrap)];
    assert p'.screen == p.screen[..top] + p.screen[top + 1..bottom] + blank + p.screen[bottom..];
  }

  lemma ClearTranscriptEncoded(p: Page)
    requires P.Good(p) && PageEncoded(p)
    ensures PageEncoded(P.ClearTranscript(p))
  {
    hide P.Good, RowEncoded;
  }

  lemma SetLineWrapEncoded(p: Page, row: nat, wrap: bool)
    requires P.Good(p) && row < |p.screen| && PageEncoded(p)
    ensures PageEncoded(P.SetLineWrap(p, row, wrap))
  {
    hide P.Good, AllEncoded;
    assert RowEncoded(p.screen[row]);
    assert RowEncoded(p.screen[row].(wrap := wrap));
  }

  lemma ChangeRowEncoded(r: RowValue, e: P.Change, y: nat)
    requires P.EndOfLine(e, y) <= |r.style| && RowEncoded(r)
    ensures RowEncoded(P.ChangeRow(r, e, y))
  {
    hide TextStyle.IsEncoded, TextStyle.ChangeEffect;
    forall k | 0 <= k < |r.style| ensures TextStyle.IsEncoded(P.ChangeRow(r, e, y).style[k]) {
      TextStyle.ChangeKeepsColors(r.style[k], e.bits, e.setOrClear, e.reverse);
    }
  }

  lemma EffectsEncoded(p: Page, e: P.Change)
    requires P.Good(p) && P.ChangeFits(p, e) && PageEncoded(p)
    ensures PageEncoded(P.SetOrClearEffect(p, e, e.top))
  {
    hide P.Good, RowEncoded, P.ChangeRow, P.SetOrClearEffect, P.EndOfLine;
    P.EffectEdits(p, e, e.top);
    forall i | 0 <= i < |p.screen| ensures RowEncoded(P.SetOrClearEffect(p, e, e.top).screen[i]) {
      P.ChangedRow(p, e, e.top, i);
      if e.top <= i < e.bottom {
        ChangeRowEncoded(p.screen[i], e, i);
      }
    }
  }

  /** Reversing the same effects of a row twice restores it. */
  lemma ReverseRowTwice(r: RowValue, e: P.Change, y: nat)
    requires P.EndOfLine(e, y) <= |r.style| && e.reverse && RowEncoded(r)
    ensures P.ChangeRow(P.ChangeRow(r, e, y), e, y) == r
  {
    hide TextStyle.ChangeEffect, TextStyle.IsEncoded;
    var r2 := P.ChangeRow(P.ChangeRow(r, e, y), e, y);
    forall k | 0 <= k < |r.style| ensures r2.style[k] == r.style[k] {
      TextStyle.ReverseTwice(r.style[k], e.bits, e.setOrClear);
    }
    assert r2.style == r.style;
  }

  /** Reversing the same effects of a region twice restores every style on the screen. */
  lemma ReverseTwice(p: Page, e: P.Change)
    requires P.Good(p) && P.ChangeFits(p, e) && e.reverse
    requires forall i :: e.top <= i < e.bottom ==> RowEncoded(p.screen[i])
    ensures P.SetOrClearEffect(P.SetOrClearEffect(p, e, e.top), e, e.top) == p
  {
    hide P.Good, P.ChangeRow, P.EndOfLine, RowEncoded, P.SetOrClearEffect;
    P.EffectEdits(p, e, e.top);
    var q := P.SetOrClearEffect(p, e, e.top);
    P.EffectEdits(q, e, e.top);
    var r := P.SetOrClearEffect(q, e, e.top);
    forall i | 0 <= i < |p.screen| ensures r.screen[i] == p.screen[i] {
      P.ChangedRow(p, e, e.top, i);
      P.ChangedRow(q, e, e.top, i);
      if e.top <= i < e.bottom {
        ReverseRowTwice(p.screen[i], e, i);
      }
    }
  }

  // ----- New buffers and new sizes -----

  lemma InitialEncoded(columns: nat, total: nat, rows: nat)
    requires 2 <= columns && 0 < rows <= total
    ensures PageEncoded(P.Initial(columns, total, rows))
  {
    TextStyle.NormalIsEncoded();
    hide TextStyle.IsEncoded, BlankRow, RowEncoded;
    BlankEncoded(columns, TextStyle.NORMAL, false);
  }

  lemma ShrinkEncoded(p: Page, newRows: nat, s: nat)
    requires P.Good(p) && 0 < newRows && s + newRows <= |p.screen| && PageEncoded(p)
    ensures PageEncoded(FastResize.Shrink(p, newRows, s))
  {
    hide P.Good, RowEncoded;
  }

  lemma ShrinkRingEncoded(p: Page, newRows: nat, s: nat)
    requires P.Good(p) && p.history == [] && p.spare == [] && 0 < newRows && s + newRows <= |p.screen| && PageEncoded(p)
    ensures PageEncoded(FastResize.ShrinkRing(p, newRows, s))
  {
    hide P.Good, RowEncoded;
  }

  lemma BlankSparesEncoded(p: Page, i: nat, k: nat, st: Style)
    requires P.Good(p) && i <= k <= |p.spare| && PageEncoded(p) && TextStyle.IsEncoded(st)
    ensures PageEncoded(FastResize.BlankSpares(p, i, k, st))
  {
    hide P.Good, RowEncoded, TextStyle.IsEncoded, BlankRow, FastResize.BlankSpares, FastResize.WrapMark;
    forall j | 0 <= j < |p.spare| && i <= j < k
      ensures RowEncoded(BlankRow(p.columns, st, FastResize.WrapMark(p.spare[j])))
    {
      BlankEncoded(p.columns, st, FastResize.WrapMark(p.spare[j]));
    }
  }

  lemma ExtendEncoded(p: Page, h: nat, k: nat)
    requires P.Good(p) && h <= |p.history| && k <= |p.spare| && PageEncoded(p)
    requires forall i :: 0 <= i < k ==> p.spare[i].Some?
    ensures PageEncoded(FastResize.Extend(p, h, k))
  {
    hide P.Good, RowEncoded;
  }

  lemma FastResizeEncoded(p: Page, newRows: nat, cursorRow: nat, st: Style, altScreen: bool)
    requires FastResize.CanResize(p, newRows, altScreen) && PageEncoded(p) && TextStyle.IsEncoded(st)
    ensures PageEncoded(FastResize.Resize(p, newRows, cursorRow, st, altScreen).0)
  {
    hide P.Good, PageEncoded, TextStyle.IsEncoded, FastResize.Shrink, FastResize.ShrinkRing, FastResize.Extend;
    if newRows <= |p.screen| {
      var s := FastResize.ShrinkShift(p, newRows, cursorRow);
      if altScreen {
        ShrinkRingEncoded(p, newRows, s);
      } else {
        ShrinkEncoded(p, newRows, s);
      }
    } else {
      var h := FastResize.FromHistory(p, newRows);
      var k := newRows - |p.screen| - h;
      BlankSparesEncoded(p, 0, k, st);
      ExtendEncoded(FastResize.BlankSpares(p, 0, k, st), h, k);
    }
  }

  // ----- Reflow -----

  lemma FreshEncoded(columns: nat, rows: nat, total: nat, st: Style)
    requires 2 <= columns && 0 < rows <= total && TextStyle.IsEncoded(st)
    ensures PageEncoded(Reflow.Fresh(columns, rows, total, st).page)
  {
    hide TextStyle.IsEncoded, BlankRow, RowEncoded;
    BlankEncoded(columns, st, false);
  }

  lemma LineFeedEncoded(o: Reflow.Output, st: Style, follow: bool)
    requires Reflow.Ready(o) && PageEncoded(o.page) && TextStyle.IsEncoded(st)
    ensures PageEncoded(Reflow.LineFeed(o, st, follow).page)
  {
    hide P.Good, PageEncoded, TextStyle.IsEncoded, P.ScrollDownOneLine;
    if o.at.row == |o.page.screen| - 1 {
      ScrollEncoded(o.page, 0, |o.page.screen|, st);
    }
  }

  lemma {:induction false} LineFeedsEncoded(o: Reflow.Output, n: nat, st: Style)
    requires Reflow.Ready(o) && PageEncoded(o.page) && TextStyle.IsEncoded(st)
    ensures PageEncoded(Reflow.LineFeeds(o, n, st).page)
    decreases n
  {
    hide Reflow.Ready, PageEncoded, TextStyle.IsEncoded, Reflow.LineFeed;
    if n > 0 {
      LineFeedEncoded(o, st, false);
      LineFeedsEncoded(Reflow.LineFeed(o, st, false), n - 1, st);
    }
  }

  lemma WrapEncoded(o: Reflow.Output, w: nat, st: Style)
    requires Reflow.Ready(o) && w <= 2 && PageEncoded(o.page) && TextStyle.IsEncoded(st)
    ensures PageEncoded(Reflow.WrapFor(o, w, st).page)
  {
    hide P.Good, PageEncoded, TextStyle.IsEncoded, Reflow.LineFeed;
    if o.at.col + w > o.page.columns {
      SetLineWrapEncoded(o.page, o.at.row, true);
      LineFeedEncoded(o.(page := P.SetLineWrap(o.page, o.at.row, true)), st, true);
    }
  }

  lemma EmitEncoded(o: Reflow.Output, c: CodePoint, sty: Style)
    requires Reflow.Ready(o) && o.at.col + Width(c) <= o.page.columns && PageEncoded(o.page) && TextStyle.IsEncoded(sty)
    ensures PageEncoded(Reflow.Emit(o, c, sty).page)
  {
    assert 2 <= o.page.columns;
    hide P.Good, PageEncoded, TextStyle.IsEncoded, P.SetChar, Width;
    var k := if Width(c) == 0 && o.at.col > 0 then o.at.col - 1 else o.at.col;
    SetCharEncoded(o.page, k, o.at.row, c, sty);
  }

  lemma StepEncoded(o: Reflow.Output, c: CodePoint, from: Reflow.Source, st: Style)
    requires Reflow.Ready(o) && PageEncoded(o.page) && TextStyle.IsEncoded(st) && TextStyle.IsEncoded(from.sty)
    ensures PageEncoded(Reflow.Step(o, c, from, st).page)
  {
    hide Reflow.Ready, PageEncoded, TextStyle.IsEncoded, Reflow.WrapFor, Reflow.Emit, Width;
    WrapEncoded(o, Width(c), st);
    EmitEncoded(Reflow.WrapFor(o, Width(c), st), c, from.sty);
  }

  lemma {:induction false} CopyPointsEncoded(
    o: Reflow.Output, s: seq<CodePoint>, style: seq<Style>, from: Reflow.Source, st: Style)
    requires Reflow.Ready(o) && from.col + RowCopy.TotalWidth(s) <= |style|
    requires PageEncoded(o.page) && TextStyle.IsEncoded(st) && TextStyle.IsEncoded(from.sty) && AllEncoded(style)
    ensures PageEncoded(Reflow.CopyPoints(o, s, style, from, st).page)
    decreases s
  {
    hide P.Good, PageEncoded, TextStyle.IsEncoded, Reflow.Step, Reflow.Ready, Reflow.CopyPoints, Reflow.Here, Width;
    if s != [] {
      var c, src := s[0], Reflow.Restyle(from, s[0], style);
      Reflow.CopyUnfold(o, s, style, from, st);
      StepEncoded(o, c, src, st);
      if !Reflow.Here(src, c) {
        CopyPointsEncoded(Reflow.Step(o, c, src, st), s[1..], style, src.(col := src.col + Width(c)), st);
      }
    } else {
      Reflow.NothingLeft(o, style, from, st);
    }
  }

  lemma CopyRowEncoded(o: Reflow.Output, r: RowValue, cursor: Option<nat>, last: bool, columns: nat, st: Style)
    requires Reflow.Ready(o) && P.GoodRow(r, columns) && PageEncoded(o.page) && RowEncoded(r) && TextStyle.IsEncoded(st)
    ensures PageEncoded(Reflow.CopyRow(o, r, cursor, last, columns, st).page)
  {
    TextStyle.NormalIsEncoded();
    hide P.Good, PageEncoded, TextStyle.IsEncoded, Reflow.CopyPoints, Reflow.Taken, WellFormed, Reflow.LineFeed,
      Reflow.Ready;
    Reflow.TakenFits(r, cursor, columns);
    var from := Reflow.Source(0, 0, cursor);
    CopyPointsEncoded(o, Reflow.Taken(r, cursor), r.style, from, st);
    LineFeedEncoded(Reflow.CopyPoints(o, Reflow.Taken(r, cursor), r.style, from, st), st, true);
  }

  lemma {:induction false} CopyRowsEncoded(
    o: Reflow.Output, rows: seq<RowValue>, i: nat, skipped: nat, c: Reflow.Cursor, columns: nat, st: Style)
    requires Reflow.Ready(o) && P.GoodRows(rows, columns) && i <= |rows|
    requires PageEncoded(o.page) && RowsEncoded(rows) && TextStyle.IsEncoded(st)
    ensures PageEncoded(Reflow.CopyRows(o, rows, i, skipped, c, columns, st).page)
    decreases |rows| - i
  {
    hide P.Good, PageEncoded, TextStyle.IsEncoded, Reflow.Ready, Reflow.CopyRow, Reflow.LineFeeds, P.GoodRow,
      RowEncoded;
    if i < |rows| {
      assert P.GoodRow(rows[i], columns);
      if Reflow.Skipped(o, rows[i], c, i) {
        CopyRowsEncoded(o, rows, i + 1, skipped + 1, c, columns, st);
      } else {
        var o1, last := Reflow.LineFeeds(o, skipped, st), i == |rows| - 1;
        LineFeedsEncoded(o, skipped, st);
        CopyRowEncoded(o1, rows[i], Reflow.CursorIn(c, i), last, columns, st);
        CopyRowsEncoded(Reflow.CopyRow(o1, rows[i], Reflow.CursorIn(c, i), last, columns, st), rows, i + 1, 0, c,
            columns, st);
      }
    }
  }

  lemma ResizeEncoded(p: Page, newColumns: nat, newRows: nat, newTotal: nat, col: nat, row: nat, st: Style,
      altScreen: bool)
    requires Reflow.CanResize(p, newColumns, newRows, newTotal, altScreen) && PageEncoded(p) && TextStyle.IsEncoded(st)
    ensures PageEncoded(Reflow.Resize(p, newColumns, newRows, newTotal, col, row, st, altScreen).page)
  {
    assert P.GoodRows(p.history + p.screen, p.columns);
    hide P.Good, TextStyle.IsEncoded, RowEncoded, Reflow.CopyRows, FastResize.Resize, Reflow.Fresh, P.GoodRows;
    if newColumns == p.columns && newRows <= P.Total(p) {
      FastResizeEncoded(p, newRows, row, st, altScreen);
    } else {
      FreshEncoded(newColumns, newRows, newTotal, st);
      CopyRowsEncoded(Reflow.Fresh(newColumns, newRows, newTotal, st), p.history + p.screen, 0, 0,
                      Reflow.Cursor(|p.history| + row, col), p.columns, st);
    }
  }
}
