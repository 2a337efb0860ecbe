/** Changing the number of rows only: the fast path of TerminalBuffer.resize, on pages. */
module FastResize {
  import opened Common
  import opened Utf16
  import opened Row
  import P = Page
  import Ring

  type Page = P.Page

  predicate IsBlankRow(r: RowValue) {
    IsBlankText(Points(r.grid))
  }

  function CountBlank(rows: seq<RowValue>): nat {
    if rows == [] then 0
    else CountBlank(rows[..|rows| - 1]) + if IsBlankRow(rows[|rows| - 1]) then 1 else 0
  }

  /** The loop over the rows below the cursor, bottom first, which takes one off the shift for every blank row. */
  function SkipBlanks(screen: seq<RowValue>, i: int, cursorRow: nat, shift: nat): (s: nat)
    requires i < |screen| && 0 < shift
    ensures s <= shift
    decreases i
  {
    if i <= 0 || cursorRow >= i then shift
    else if IsBlankRow(screen[i]) then
      if shift == 1 then 0 else SkipBlanks(screen, i - 1, cursorRow, shift - 1)
    else SkipBlanks(screen, i - 1, cursorRow, shift)
  }

  /** The shift is reduced by the number of blank rows anywhere below the cursor. */
  lemma {:induction false} ShiftIsCounted(screen: seq<RowValue>, i: int, cursorRow: nat, shift: nat)
    requires cursorRow <= i < |screen| && 0 < shift
    ensures var n := CountBlank(screen[cursorRow + 1..i + 1]);
      SkipBlanks(screen, i, cursorRow, shift) == if shift <= n then 0 else shift - n
    decreases i
  {
    hide IsBlankText, Points;
    var rows := screen[cursorRow + 1..i + 1];
    if cursorRow < i {
      assert rows[..|rows| - 1] == screen[cursorRow + 1..i];
      if IsBlankRow(screen[i]) {
        if shift > 1 {
          ShiftIsCounted(screen, i - 1, cursorRow, shift - 1);
        }
      } else {
        ShiftIsCounted(screen, i - 1, cursorRow, shift);
      }
    } else {
      assert rows == [];
    }
  }

  lemma {:induction false} CountedRows(rows: seq<RowValue>)
    ensures CountBlank(rows) <= |rows|
  {
    if rows != [] {
      CountedRows(rows[..|rows| - 1]);
    }
  }

  /** How far the top row moves down the ring when the screen shrinks to `newRows`. */
  function ShrinkShift(p: Page, newRows: nat, cursorRow: nat): (s: nat)
    requires 0 < newRows <= |p.screen|
    ensures s <= |p.screen| - newRows
  {
    if newRows == |p.screen| then 0
    else SkipBlanks(p.screen, |p.screen| - 1, cursorRow, |p.screen| - newRows)
  }

  function Somes(rows: seq<RowValue>): (r: seq<Option<RowValue>>)
    ensures |r| == |rows|
  {
    seq(|rows|, i requires 0 <= i < |rows| => Some(rows[i]))
  }

  /** The screen becomes `newRows` rows starting at row `s`: the rows above join the history, those below are spare. */
  function Shrink(p: Page, newRows: nat, s: nat): (p': Page)
    requires P.Good(p) && 0 < newRows && s + newRows <= |p.screen|
    ensures P.Good(p') && P.Total(p') == P.Total(p)
  {
    P.Page(p.columns, p.history + p.screen[..s], p.screen[s..s + newRows],
           Somes(p.screen[s + newRows..]) + p.spare, (p.first + s) % P.Total(p))
  }

  /** How many rows come back from the history when the screen grows to `newRows`. */
  function FromHistory(p: Page, newRows: nat): (h: nat)
    requires |p.screen| <= newRows
    ensures h <= |p.history|
  {
    var d := newRows - |p.screen|;
    if d <= |p.history| then d else |p.history|
  }

  /** The wrap mark left in a slot. */
  function WrapMark(slot: Option<RowValue>): bool {
    slot.Some? && slot.value.wrap
  }

  function BlankSpare(p: Page, i: nat, st: Style): (p': Page)
    requires P.Good(p) && i < |p.spare|
    ensures P.Good(p') && |p'.spare| == |p.spare|
  {
    P.BlankRowIsGood(p.columns, st, WrapMark(p.spare[i]));
    p.(spare := p.spare[i := Some(BlankRow(p.columns, st, WrapMark(p.spare[i])))])
  }

  function BlankSpares(p: Page, i: nat, k: nat, st: Style): (p': Page)
    requires P.Good(p) && i <= k <= |p.spare|
    ensures P.Good(p') && p' == p.(spare := p'.spare) && |p'.spare| == |p.spare|
    ensures forall j :: 0 <= j < |p.spare| ==>
      p'.spare[j] == if i <= j < k then Some(BlankRow(p.columns, st, WrapMark(p.spare[j]))) else p.spare[j]
    decreases k - i
  {
    hide P.GoodRow, BlankRow;
    if i == k then p else BlankSpares(BlankSpare(p, i, st), i + 1, k, st)
  }

  function Values(slots: seq<Option<RowValue>>): (rows: seq<RowValue>)
    requires forall i :: 0 <= i < |slots| ==> slots[i].Some?
    ensures |rows| == |slots| && forall i :: 0 <= i < |slots| ==> rows[i] == slots[i].value
  {
    seq(|slots|, i requires 0 <= i < |slots| => slots[i].value)
  }

  /** The slot where the screen starts after it has moved up by `h` rows. */
  function FirstAbove(first: nat, h: nat, total: nat): nat
    requires 0 < total && h <= total
  {
    if first < h then first + total - h else (first - h) % total
  }

  /** `h` rows come back from the history, and the `k` slots below the screen become screen rows. */
  function Extend(p: Page, h: nat, k: nat): (p': Page)
    requires P.Good(p) && h <= |p.history| && k <= |p.spare|
    requires forall i :: 0 <= i < k ==> p.spare[i].Some?
    ensures P.Good(p') && P.Total(p') == P.Total(p) && |p'.screen| == h + |p.screen| + k && p'.columns == p.columns
  {
    var n := |p.history| - h;
    var below := p.spare[..k];
    P.Page(p.columns, p.history[..n], p.history[n..] + p.screen + Values(below), p.spare[k..],
           FirstAbove(p.first, h, P.Total(p)))
  }

  function Grow(p: Page, newRows: nat, st: Style): (p': Page)
    requires P.Good(p) && |p.screen| <= newRows <= P.Total(p)
    ensures P.Good(p') && P.Total(p') == P.Total(p) && |p'.screen| == newRows && p'.columns == p.columns
  {
    var h := FromHistory(p, newRows);
    var k := newRows - |p.screen| - h;
    Extend(BlankSpares(p, 0, k, st), h, k)
  }

  /** The alternate screen has no history and shrinks its ring with the screen: rows stay in their slots, and
      those in slots past the new end are lost. */
  function ShrinkRing(p: Page, newRows: nat, s: nat): (p': Page)
    requires P.Good(p) && p.history == [] && p.spare == [] && 0 < newRows && s + newRows <= |p.screen|
    ensures P.Good(p') && P.Total(p') == newRows == |p'.screen| && p'.columns == p.columns
  {
    var first := (p.first + s) % P.Total(p);
    P.Page(p.columns, [],
           seq(newRows, k requires 0 <= k < newRows =>
             p.screen[Ring.Position(p.first, Ring.Slot(first, k, newRows), |p.screen|)]),
           [], first)
  }

  /** The whole fast path: the new page and the row the cursor moves to. */
  function Resize(p: Page, newRows: nat, cursorRow: nat, st: Style, altScreen: bool): (r: (Page, int))
    requires CanResize(p, newRows, altScreen)
    ensures P.Good(r.0) && |r.0.screen| == newRows && r.0.columns == p.columns
    ensures P.Total(r.0) == if altScreen then newRows else P.Total(p)
  {
    if newRows <= |p.screen| then
      var s := ShrinkShift(p, newRows, cursorRow);
      (if altScreen then ShrinkRing(p, newRows, s) else Shrink(p, newRows, s), cursorRow - s)
    else
      (Grow(p, newRows, st), cursorRow + FromHistory(p, newRows))
  }

  predicate CanResize(p: Page, newRows: nat, altScreen: bool) {
    P.Good(p) && 0 < newRows <= P.Total(p) && (altScreen ==> p.history == [] && p.spare == [])
  }

  lemma ResizedFirst(p: Page, newRows: nat, cursorRow: nat, st: Style, altScreen: bool)
    requires CanResize(p, newRows, altScreen)
    ensures var p' := Resize(p, newRows, cursorRow, st, altScreen).0;
      && (altScreen ==> p'.history == [] && p'.spare == [])
      && (!altScreen ==> p'.first < P.Total(p'))
  {
    hide P.Good;
  }

  // ----- What the fast path keeps -----

  /** Shrinking loses nothing but rows at the bottom, all of them below the cursor. */
  lemma ShrinkConserves(p: Page, newRows: nat, cursorRow: nat, st: Style)
    requires CanResize(p, newRows, false) && newRows <= |p.screen| && cursorRow < |p.screen|
    ensures var r := Resize(p, newRows, cursorRow, st, false);
      var kept := ShrinkShift(p, newRows, cursorRow) + newRows;
      && r.0.history + r.0.screen + p.screen[kept..] == p.history + p.screen
      && cursorRow < kept && r.1 < newRows
  {
    hide SkipBlanks, P.Good, CountBlank;
    var n := |p.screen|;
    if newRows < n {
      var below := p.screen[cursorRow + 1..n];
      ShiftIsCounted(p.screen, n - 1, cursorRow, n - newRows);
      CountedRows(below);
    }
  }

  /** Growing loses nothing and adds blank rows at the bottom once the history is used up. */
  lemma GrowConserves(p: Page, newRows: nat, cursorRow: nat, st: Style)
    requires CanResize(p, newRows, false) && |p.screen| <= newRows && cursorRow < |p.screen|
    ensures FromHistory(p, newRows) == if newRows <= |p.screen| + |p.history| then newRows - |p.screen| else |p.history|
    ensures var k := newRows - |p.screen| - FromHistory(p, newRows);
      var p' := Grow(p, newRows, st);
      && k <= |p.spare| && |p'.history| + newRows == |p.history| + |p.screen| + k
      && p'.history + p'.screen[..newRows - k] == p.history + p.screen
      && forall i :: newRows - k <= i < newRows ==>
        p'.screen[i] == BlankRow(p.columns, st, WrapMark(p.spare[i - (newRows - k)]))
    ensures cursorRow + FromHistory(p, newRows) < newRows
  {
    hide P.Good;
  }

  /** The cursor follows its row. */
  lemma CursorFollows(p: Page, newRows: nat, cursorRow: nat, st: Style)
    requires CanResize(p, newRows, false) && cursorRow < |p.screen|
    ensures var r := Resize(p, newRows, cursorRow, st, false);
      r.1 < newRows && (0 <= r.1 ==> r.0.screen[r.1] == p.screen[cursorRow])
  {
    hide SkipBlanks, P.Good;
    if newRows <= |p.screen| {
      ShrinkConserves(p, newRows, cursorRow, st);
    } else {
      GrowConserves(p, newRows, cursorRow, st);
    }
  }

  /** Shrinking and growing back restores the page and the cursor when no row was dropped. */
  lemma ShrinkThenGrow(p: Page, newRows: nat, cursorRow: nat, st: Style, st': Style)
    requires CanResize(p, newRows, false) && newRows <= |p.screen| && cursorRow < |p.screen| && p.first < P.Total(p)
    requires Dropped(p, newRows, cursorRow) == 0
    ensures var r := Resize(p, newRows, cursorRow, st, false);
      Grow(r.0, |p.screen|, st') == p && r.1 + FromHistory(r.0, |p.screen|) == cursorRow
  {
    hide SkipBlanks, P.Good, BlankSpares;
    var s, n := |p.screen| - newRows, |p.screen|;
    var q := Shrink(p, newRows, s);
    assert q.spare == p.spare;
    assert FromHistory(q, n) == s;
    var q' := Grow(q, n, st');
    assert BlankSpares(q, 0, 0, st') == q;
    assert q'.history == p.history;
    assert q'.screen == p.screen;
    BackAgain(p.first, s, P.Total(p));
  }

  lemma BackAgain(first: nat, s: nat, total: nat)
    requires first < total && s <= total
    ensures FirstAbove((first + s) % total, s, total) == first
  {
    Ring.SlotIsMod(first, s, total);
    Ring.SlotOfSmall(first, total);
    if Ring.Slot(first, s, total) >= s {
      Ring.SlotOfSmall(Ring.Slot(first, s, total) - s, total);
    }
  }

  /** How many rows at the bottom a shrink drops. */
  function Dropped(p: Page, newRows: nat, cursorRow: nat): nat
    requires 0 < newRows <= |p.screen|
  {
    |p.screen| - newRows - ShrinkShift(p, newRows, cursorRow)
  }

  /** Shrinking and growing back restores history and screen exactly when no row was dropped, or when there is no
      history and every dropped row was what the new blank rows are. */
  lemma ShrinkThenGrowExactly(p: Page, newRows: nat, cursorRow: nat, st: Style, st': Style)
    requires CanResize(p, newRows, false) && newRows <= |p.screen| && cursorRow < |p.screen|
    ensures var r := Resize(p, newRows, cursorRow, st, false);
      var q := Grow(r.0, |p.screen|, st');
      q.history + q.screen == p.history + p.screen <==>
      || Dropped(p, newRows, cursorRow) == 0
      || (p.history == [] && BlankBelow(p, |p.screen| - Dropped(p, newRows, cursorRow), st'))
  {
    hide SkipBlanks, P.Good, BlankRow, Grow;
    var k, n := Dropped(p, newRows, cursorRow), |p.screen|;
    GrowAfterShrink(p, newRows, ShrinkShift(p, newRows, cursorRow), st');
    var q := Grow(Shrink(p, newRows, ShrinkShift(p, newRows, cursorRow)), n, st');
    hide Shrink, ShrinkShift;
    if k == 0 {
      assert p.screen[..n] == p.screen;
    } else if p.history == [] {
      GrowWithoutHistory(p, newRows, ShrinkShift(p, newRows, cursorRow), st');
      assert q.history + q.screen == q.screen && p.history + p.screen == p.screen;
      SameExactly(q.screen, p.screen, n - k);
    }
  }

  lemma SameExactly<T>(a: seq<T>, b: seq<T>, n: nat)
    requires n <= |a| == |b| && a[..n] == b[..n]
    ensures a == b <==> forall i :: n <= i < |a| ==> a[i] == b[i]
  {
    if forall i :: n <= i < |a| ==> a[i] == b[i] {
      assert forall i :: 0 <= i < n ==> a[i] == a[..n][i] == b[..n][i] == b[i];
    }
  }

  /** History and screen after shrinking by `s` rows above and `k` rows below and growing back. */
  lemma GrowAfterShrink(p: Page, newRows: nat, s: nat, st: Style)
    requires P.Good(p) && 0 < newRows && s + newRows <= |p.screen|
    ensures var n := |p.screen|;
      var k := n - newRows - s;
      var q := Grow(Shrink(p, newRows, s), n, st);
      && (k <= |p.history| ==> q.history + q.screen == p.history + p.screen[..n - k])
      && (k > 0 && p.history != [] ==> |q.history| < |p.history|)
  {
    hide P.Good, BlankRow, BlankSpares;
    var n := |p.screen|;
    var k := n - newRows - s;
    var q := Shrink(p, newRows, s);
    assert |q.history| == |p.history| + s;
    var h := FromHistory(q, n);
    assert h == if k <= |p.history| then s + k else s + |p.history|;
    if k <= |p.history| {
      var q' := Grow(q, n, st);
      assert q'.history == q.history[..|q.history| - h];
      assert q'.screen == q.history[|q.history| - h..] + q.screen;
    }
  }

  lemma GrowWithoutHistory(p: Page, newRows: nat, s: nat, st: Style)
    requires P.Good(p) && 0 < newRows && s + newRows <= |p.screen| && p.history == []
    ensures var n := |p.screen|;
      var k := n - newRows - s;
      var q := Grow(Shrink(p, newRows, s), n, st);
      && q.history == [] && q.screen[..n - k] == p.screen[..n - k]
      && forall i :: n - k <= i < n ==> q.screen[i] == BlankRow(p.columns, st, p.screen[i].wrap)
  {
    hide P.Good, BlankRow, BlankSpares;
    assert FromHistory(Shrink(p, newRows, s), |p.screen|) == s;
  }

  /** The screen rows from `from` on are blank rows of one style. */
  predicate BlankBelow(p: Page, from: nat, st: Style) {
    forall i :: from <= i < |p.screen| ==> p.screen[i] == BlankRow(p.columns, st, p.screen[i].wrap)
  }

  // ----- The ring -----

  /** Which element of the ring comes to position `k` when the screen moves down by `s`. */
  function Turned(total: nat, s: int, k: nat): (j: nat)
    requires k < total && 0 <= total + s && s <= total
    ensures j < total
  {
    if k + s < 0 then k + s + total else if k + s < total then k + s else k + s - total
  }

  lemma ShrinkSlots(p: Page, newRows: nat, s: nat, k: nat)
    requires P.Good(p) && 0 < newRows && s + newRows <= |p.screen| && k < P.Total(p)
    ensures P.SlotOf(Shrink(p, newRows, s), k) == P.SlotOf(p, Turned(P.Total(p), s, k))
  {
    hide P.Good;
  }

  lemma ExtendSlots(p: Page, h: nat, k: nat, j: nat)
    requires P.Good(p) && h <= |p.history| && k <= |p.spare| && j < P.Total(p)
    requires forall i :: 0 <= i < k ==> p.spare[i].Some?
    ensures P.SlotOf(Extend(p, h, k), j) == P.SlotOf(p, Turned(P.Total(p), 0 - h, j))
  {
    hide P.Good;
  }

  /** The page after the screen has moved down the ring by `shift` and changed its size. */
  function MoveScreen(p: Page, shift: int, newRows: nat, altScreen: bool): (p': Page)
    requires CanMove(p, shift, newRows, altScreen)
    ensures P.Good(p') && |p'.screen| == newRows && p'.columns == p.columns
    ensures P.Total(p') == if altScreen then newRows else P.Total(p)
  {
    if newRows > |p.screen| then Extend(p, -shift, newRows - |p.screen| + shift)
    else if altScreen then ShrinkRing(p, newRows, shift)
    else Shrink(p, newRows, shift)
  }

  predicate CanMove(p: Page, shift: int, newRows: nat, altScreen: bool) {
    && CanResize(p, newRows, altScreen)
    && (newRows <= |p.screen| ==> 0 <= shift && shift + newRows <= |p.screen|)
    && (newRows > |p.screen| ==>
          shift <= 0 && 0 <= |p.history| + shift && 0 <= newRows - |p.screen| + shift <= |p.spare|)
    && (newRows > |p.screen| ==> forall i :: 0 <= i < newRows - |p.screen| + shift ==> p.spare[i].Some?)
  }

  /** The ring position in the old page of every ring position in the new one. */
  function MovedFrom(p: Page, shift: int, newRows: nat, altScreen: bool): (from: seq<nat>)
    requires CanMove(p, shift, newRows, altScreen)
    ensures |from| == P.Total(MoveScreen(p, shift, newRows, altScreen))
  {
    var total := P.Total(p);
    if altScreen then
      var first := (p.first + shift) % total;
      seq(newRows, k requires 0 <= k < newRows => Ring.Position(p.first, Ring.Slot(first, k, newRows), total))
    else
      seq(total, k requires 0 <= k < total => Turned(total, shift, k))
  }

  lemma MovedFromSlot(p: Page, shift: int, newRows: nat, altScreen: bool, k: nat)
    requires CanMove(p, shift, newRows, altScreen) && (shift < 0 ==> p.first < P.Total(p))
    requires k < P.Total(MoveScreen(p, shift, newRows, altScreen))
    ensures var from, q := MovedFrom(p, shift, newRows, altScreen), MoveScreen(p, shift, newRows, altScreen);
      && from[k] < P.Total(p)
      && P.SlotOf(q, k) == P.SlotOf(p, from[k])
      && Ring.Slot(q.first, k, P.Total(q)) == Ring.Slot(p.first, from[k], P.Total(p))
  {
    hide P.Good, Shrink, Extend, ShrinkRing, Ring.Slot, P.SlotOf, Turned, Ring.Position;
    if newRows > |p.screen| {
      ExtendedSlot(p, -shift, newRows - |p.screen| + shift, k);
    } else if altScreen {
      RingSlot(p, newRows, shift, k);
    } else {
      ShrunkSlot(p, newRows, shift, k);
    }
  }

  lemma ExtendedSlot(p: Page, h: nat, k: nat, j: nat)
    requires P.Good(p) && h <= |p.history| && k <= |p.spare| && j < P.Total(p) && (h > 0 ==> p.first < P.Total(p))
    requires forall i :: 0 <= i < k ==> p.spare[i].Some?
    ensures P.SlotOf(Extend(p, h, k), j) == P.SlotOf(p, Turned(P.Total(p), 0 - h, j))
    ensures Ring.Slot(Extend(p, h, k).first, j, P.Total(p)) ==
      Ring.Slot(p.first, Turned(P.Total(p), 0 - h, j), P.Total(p))
  {
    ExtendSlots(p, h, k, j);
    SlotOfTurned(p.first, 0 - h, P.Total(p), j);
    hide P.Good, Turned, Ring.Slot, P.SlotOf;
  }

  lemma ShrunkSlot(p: Page, newRows: nat, s: nat, k: nat)
    requires P.Good(p) && 0 < newRows && s + newRows <= |p.screen| && k < P.Total(p)
    ensures P.SlotOf(Shrink(p, newRows, s), k) == P.SlotOf(p, Turned(P.Total(p), s, k))
    ensures Ring.Slot(Shrink(p, newRows, s).first, k, P.Total(p)) ==
      Ring.Slot(p.first, Turned(P.Total(p), s, k), P.Total(p))
  {
    ShrinkSlots(p, newRows, s, k);
    SlotOfTurned(p.first, s, P.Total(p), k);
    hide P.Good, Turned, Ring.Slot, P.SlotOf;
  }

  lemma RingSlot(p: Page, newRows: nat, s: nat, k: nat)
    requires P.Good(p) && p.history == [] && p.spare == [] && 0 < newRows && s + newRows <= |p.screen| && k < newRows
    ensures var q := ShrinkRing(p, newRows, s);
      var j := Ring.Position(p.first, Ring.Slot(q.first, k, newRows), P.Total(p));
      && q.first == (p.first + s) % P.Total(p)
      && P.SlotOf(q, k) == P.SlotOf(p, j) && Ring.Slot(q.first, k, newRows) == Ring.Slot(p.first, j, P.Total(p))
  {
    Ring.PositionOfSlot(p.first, Ring.Slot((p.first + s) % P.Total(p), k, newRows), P.Total(p));
    hide P.Good, Ring.Slot, Ring.Position;
  }

  lemma NoBlankSpares(p: Page, st: Style)
    requires P.Good(p)
    ensures BlankSpares(p, 0, 0, st) == p
  {
  }

  /** The numbers the source computes for the moved screen. */
  lemma MovedNumbers(p: Page, shift: int, newRows: nat, altScreen: bool)
    requires CanMove(p, shift, newRows, altScreen) && (shift < 0 ==> p.first < P.Total(p))
    ensures var q, total := MoveScreen(p, shift, newRows, altScreen), P.Total(p);
      && q.first == (if p.first + shift < 0 then p.first + shift + total else (p.first + shift) % total)
      && q.first < total
      && |q.history| == if altScreen || |p.history| + shift <= 0 then 0 else |p.history| + shift
  {
    hide P.Good;
  }

  lemma MovedFromInjective(p: Page, shift: int, newRows: nat, altScreen: bool, i: nat, j: nat)
    requires CanMove(p, shift, newRows, altScreen)
    requires i < j < P.Total(MoveScreen(p, shift, newRows, altScreen))
    ensures MovedFrom(p, shift, newRows, altScreen)[i] != MovedFrom(p, shift, newRows, altScreen)[j]
  {
    hide P.Good, Shrink, Extend, ShrinkRing, P.SlotOf, Ring.Slot, Ring.Position, Turned;
    if altScreen {
      var total, first := P.Total(p), (p.first + shift) % P.Total(p);
      Ring.SlotsDiffer(first, i, j, newRows);
      Ring.PositionsDiffer(p.first, Ring.Slot(first, i, newRows), Ring.Slot(first, j, newRows), total);
    } else {
      TurnedDiffers(P.Total(p), shift, i, j);
    }
  }

  lemma TurnedDiffers(total: nat, s: int, i: nat, j: nat)
    requires i < j < total && 0 <= total + s && s <= total
    ensures Turned(total, s, i) != Turned(total, s, j)
  {
  }

  lemma SlotOfTurned(first: nat, s: int, total: nat, k: nat)
    requires k < total && 0 <= total + s && s <= total && (s < 0 ==> first < total)
    ensures Ring.Slot(if s < 0 then FirstAbove(first, -s, total) else (first + s) % total, k, total) ==
      Ring.Slot(first, Turned(total, s, k), total)
  {
    Ring.SlotOfSmall(first % total, total);
    if s >= 0 {
      Ring.SlotIsMod(first, s, total);
      Ring.SlotOfSmall(Ring.Slot(first, s, total), total);
    } else {
      Ring.SlotOfSmall(first, total);
      var f := FirstAbove(first, -s, total);
      if first + s >= 0 {
        Ring.SlotOfSmall(first + s, total);
      }
      assert f < total;
      Ring.SlotOfSmall(f, total);
    }
  }
}
