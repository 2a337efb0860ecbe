/** Copying rectangles and changing the attributes of rectangles: what these commands do to every cell, and which area
    they work on. */
module RectangleOps {
  import opened Common
  import opened WcWidth
  import opened Utf16
  import opened Row
  import P = Page
  import TextStyle
  import opened CellCopy
  import opened Display
  import opened TerminalState
  import opened Commands
  import CellOps
  import EraseOps
  import SgrOps

  // ----- DECCRA -----

  /** Column `k` of row `i` after block `b` was copied: cells and styles are read as they were before; only the styles
      of a copy that goes to the right within the same rows are not, for which see `RowCopy.SmearIsMoveWhenPeriodic`. */
  predicate CopiedAt(s: Screens, s': Screens, b: P.Block, i: nat, k: nat)
    requires Ok(s) && Ok(s') && s'.rows == s.rows && s'.columns == s.columns && P.Fits(b, s.columns, s.rows)
    requires i < s.rows && k < s.columns
  {
    var r, r' := EraseOps.RowAt(s, i), EraseOps.RowAt(s', i);
    if b.dy <= i < b.dy + b.h then
      var src := EraseOps.RowAt(s, b.sy + i - b.dy);
      && r'.grid[k] == Written(r.grid, CellsRead(src.grid, b.sx, b.sx + b.w), b.dx, k)
      && (b.sy != b.dy || b.dx <= b.sx ==> r'.style[k] == P.StyleAfterCopy(r, src, b, k))
    else r'.grid[k] == r.grid[k] && r'.style[k] == r.style[k]
  }

  lemma CopiedRowAt(s: Screens, b: P.Block, i: nat, k: nat)
    requires Ok(s) && P.Fits(b, s.columns, s.rows) && i < s.rows && k < s.columns
    ensures CopiedAt(s, Copy(s, b), b, i, k)
  {
    hide Ok, Copy, Written, CellsRead, P.StyleAfterCopy, P.Fits, P.GoodRow;
    CellOps.CopiedCell(s, b, i, k);
    CopiedStyleAt(s, b, i, k);
  }

  lemma CopiedStyleAt(s: Screens, b: P.Block, i: nat, k: nat)
    requires Ok(s) && P.Fits(b, s.columns, s.rows) && i < s.rows && k < s.columns
    ensures var r, r' := EraseOps.RowAt(s, i), EraseOps.RowAt(Copy(s, b), i);
      if b.dy <= i < b.dy + b.h then
        b.sy != b.dy || b.dx <= b.sx ==>
          r'.style[k] == P.StyleAfterCopy(r, EraseOps.RowAt(s, b.sy + i - b.dy), b, k)
      else r'.style[k] == r.style[k]
  {
    ActiveIsGood(s);
    hide Ok, P.Good, P.BlockCopy, WellFormed, P.StyleAfterCopy;
    P.RowCopied(Active(s), b, i);
    if b.sy != b.dy || b.dx <= b.sx {
      P.BlockCopyStyle(Active(s), b, i, k);
    }
  }

  /** DECCRA copies the rectangle. */
  lemma CopyRectangleCopies(t: Terminal, i: nat, k: nat)
    requires Inv(t) && i < Rows(t) && k < Columns(t)
    ensures Ok(t.screens) && Ok(CopyRectangle(t).screens)
    ensures CopiedAt(t.screens, CopyRectangle(t).screens, BlockToCopy(t), i, k)
  {
    CellOps.CursorFits(t);
    hide Ok, Copy, CopiedAt, BlockToCopy;
    CopiedRowAt(t.screens, BlockToCopy(t), i, k);
  }

  // ----- DECCARA and DECRARA -----

  /** The cells whose attributes change: a rectangle, or else a stretch of text from its first to its last corner. */
  predicate Changes(e: P.Change, i: nat, k: nat) {
    e.top <= i < e.bottom && P.StartOfLine(e, i) <= k < P.EndOfLine(e, i)
  }

  /** Exactly these cells get the changed effect, and no text changes. */
  predicate ChangedAt(s: Screens, s': Screens, e: P.Change, i: nat, k: nat)
    requires Ok(s) && Ok(s') && s'.rows == s.rows && s'.columns == s.columns && i < s.rows && k < s.columns
  {
    var r, r' := EraseOps.RowAt(s, i), EraseOps.RowAt(s', i);
    && r'.grid == r.grid && r'.wrap == r.wrap
    && r'.style[k] ==
       if Changes(e, i, k) then TextStyle.ChangeEffect(r.style[k], e.bits, e.setOrClear, e.reverse) else r.style[k]
  }

  lemma EffectsChanged(s: Screens, e: P.Change, i: nat, k: nat)
    requires Ok(s) && P.ChangeFits(Active(s), e) && i < s.rows && k < s.columns
    ensures ChangedAt(s, ChangeEffects(s, e), e, i, k)
  {
    ActiveIsGood(s);
    hide Ok, P.Good, P.SetOrClearEffect, WellFormed, TextStyle.ChangeEffect;
    P.ChangedRow(Active(s), e, e.top, i);
  }

  /** One attribute of DECCARA, or one of DECRARA that can be reversed; of the others nothing comes. */
  lemma AttributeChanges(t: Terminal, code: int, reverse: bool, i: nat, k: nat)
    requires Inv(t) && AttributeFits(t) && i < Rows(t) && k < Columns(t)
    ensures Ok(t.screens) && Ok(ChangeAttribute(t, code, reverse).screens)
    ensures if reverse && !Attribute(code, reverse).1 then ChangeAttribute(t, code, reverse) == t
      else ChangedAt(t.screens, ChangeAttribute(t, code, reverse).screens, AttributeArea(t, code, reverse), i, k)
  {
    CellOps.CursorFits(t);
    ActiveIsGood(t.screens);
    hide Ok, ChangedAt, ChangeEffects, AttributeArea, P.Good;
    EffectsChanged(t.screens, AttributeArea(t, code, reverse), i, k);
  }

  /** The attributes of DECCARA are those of SGR with the same codes, but that 22 leaves dim text dim; 0 means all
      four, and other codes none. DECRARA reverses them. */
  lemma AttributesAreThoseOfSgr(code: int)
    ensures Attribute(code, false) ==
      if code in {1, 4, 5, 7} then (SgrOps.SETS[code], true)
      else if code in {24, 25, 27} then (SgrOps.CLEARS[code], false)
      else if code == 22 then (SgrOps.CLEARS[code] & !TextStyle.DIM, false)
      else if code == 0 then (SgrOps.SETS[1] | SgrOps.SETS[4] | SgrOps.SETS[5] | SgrOps.SETS[7], false)
      else (0, true)
    ensures Attribute(code, true) == if code == 0 then (Attribute(0, false).0, true) else Attribute(code, false)
  {
  }

  /** Line or column `i` is one of those asked for, which are counted from one. */
  predicate Asked(from: int, to: int, i: nat) {
    from <= i + 1 <= to
  }

  /** Those that the source goes through instead. */
  predicate Spanned(n: nat, from: int, to: int, i: nat) {
    Min(from - 1, n) <= i < Min(to + 1, n - 1)
  }

  /** They are one more than asked for, but never the last of all; so they are right in these cases only. */
  lemma SpanIsAskedExactly(n: nat, from: int, to: int)
    requires 0 < from && 0 < to
    ensures (forall i: nat :: i < n ==> (Asked(from, to, i) <==> Spanned(n, from, to, i))) <==>
      to == n - 1 || to + 1 < from || n < from
  {
    if to >= n >= from {
      assert Asked(from, to, n - 1) && !Spanned(n, from, to, n - 1);
    } else if to < n - 1 && from <= to + 1 {
      assert !Asked(from, to, to) && Spanned(n, from, to, to);
    }
  }

  lemma AreaOutsideOriginMode(t: Terminal, code: int, reverse: bool)
    requires Inv(t) && !Has(t, OriginMode)
    ensures var e := AttributeArea(t, code, reverse);
      && (forall i: nat :: e.top <= i < e.bottom <==> Spanned(Rows(t), Arg(t, 0, 1), Arg(t, 2, Rows(t)), i))
      && (e.rectangular ==> forall k: nat :: P.StartOfLine(e, e.top) <= k < P.EndOfLine(e, e.top) <==>
            Spanned(Columns(t), Arg(t, 1, 1), Arg(t, 3, Columns(t)), k))
  {
    CellOps.CursorFits(t);
    hide Inv, Arg, Attribute, Ok;
  }

  /** Outside origin mode the lines of DECCARA and DECRARA are those asked for exactly when the last of them is the last
      but one of the screen, or the first one is beyond the screen or more than one behind the last; and so are the
      columns in rectangular mode. */
  lemma AttributeAreaExactly(t: Terminal, code: int, reverse: bool)
    requires Inv(t) && !Has(t, OriginMode)
    ensures var e, from, to := AttributeArea(t, code, reverse), Arg(t, 0, 1), Arg(t, 2, Rows(t));
      (forall i: nat :: i < Rows(t) ==> (Asked(from, to, i) <==> e.top <= i < e.bottom)) <==>
      to == Rows(t) - 1 || to + 1 < from || Rows(t) < from
    ensures var e, from, to := AttributeArea(t, code, reverse), Arg(t, 1, 1), Arg(t, 3, Columns(t));
      e.rectangular ==>
        ((forall k: nat :: k < Columns(t) ==>
            (Asked(from, to, k) <==> P.StartOfLine(e, e.top) <= k < P.EndOfLine(e, e.top))) <==>
         to == Columns(t) - 1 || to + 1 < from || Columns(t) < from)
  {
    CellOps.CursorFits(t);
    AreaOutsideOriginMode(t, code, reverse);
    hide Inv, Arg, AttributeArea, Spanned;
    SpanIsAskedExactly(Rows(t), Arg(t, 0, 1), Arg(t, 2, Rows(t)));
    SpanIsAskedExactly(Columns(t), Arg(t, 1, 1), Arg(t, 3, Columns(t)));
  }

  /** There the last line of the screen is never changed, whatever is asked for. */
  lemma LastLineStays(t: Terminal, code: int, reverse: bool, k: nat)
    requires Inv(t) && !Has(t, OriginMode) && k < Columns(t)
    ensures 0 < Rows(t) && !Changes(AttributeArea(t, code, reverse), Rows(t) - 1, k)
  {
    CellOps.CursorFits(t);
    AreaOutsideOriginMode(t, code, reverse);
    hide Inv, Arg, AttributeArea, Ok;
    var i: nat := Rows(t) - 1;
    assert !Spanned(Rows(t), Arg(t, 0, 1), Arg(t, 2, Rows(t)), i);
  }
}
