/** TerminalBuffer.java: a circular array of row objects, of which some are the screen and some its history. */
module TerminalBuffers {
  import opened Common
  import opened WcWidth
  import opened Utf16
  import opened Row
  import RowCopy
  import opened TerminalRows
  import P = Page
  import Ring
  import FastResize
  import Reflow
  import TextStyle

  class TerminalBuffer {
    var lines: array<TerminalRow?>
    var totalRows: nat
    var screenRows: nat
    var columns: nat
    var activeTranscriptRows: nat
    var screenFirstRow: nat

    /** The row objects in ring order, from the first screen row on. */
    ghost var ring: seq<TerminalRow?>
    /** What the rows hold. */
    ghost var page: P.Page
    ghost var Repr: set<object>

    static ghost predicate Apart(a: TerminalRow, b: TerminalRow)
      reads a, b
    {
      && a != b && a.text != b.text && a.style != b.style
      && (a.text as object) != b.style && (b.text as object) != a.style
    }

    /** The ring is where the row numbers say. */
    ghost predicate Linked()
      reads this`columns, this`screenRows, this`totalRows, this`screenFirstRow, this`activeTranscriptRows, this`ring,
        this`lines, lines
    {
      && 2 <= columns && 0 < screenRows && screenRows + activeTranscriptRows <= totalRows <= lines.Length
      && (screenFirstRow < totalRows || activeTranscriptRows == 0)
      && |ring| == totalRows
      && forall k :: 0 <= k < totalRows ==> lines[Ring.Slot(screenFirstRow, k, totalRows)] == ring[k]
    }

    ghost predicate Owns(r: TerminalRow)
      reads this, r
    {
      && r in Repr && r.text in Repr && r.style in Repr && r.columns == columns
      && (r.text as object) != lines && (r.style as object) != lines && (r.text as object) != r.style
    }

    /** The rows are sound and share nothing. */
    ghost predicate Disjoint()
      reads this, Repr
    {
      && this in Repr && lines in Repr
      && (forall k :: 0 <= k < |ring| && ring[k] != null ==> ring[k] in Repr && Owns(ring[k]))
      && (forall k :: 0 <= k < |ring| && ring[k] != null ==> ring[k].Valid())
      && (forall i, j :: 0 <= i < j < |ring| && ring[i] != null && ring[j] != null ==> Apart(ring[i], ring[j]))
    }

    ghost predicate Holds(k: nat)
      reads this, Repr
      requires k < P.Total(page) == |ring|
      requires ring[k] != null ==> ring[k] in Repr && ring[k].style in Repr
    {
      match P.SlotOf(page, k)
      case None => ring[k] == null
      case Some(r) => ring[k] != null && ring[k].Value() == r
    }

    /** The rows hold what the page says. */
    ghost predicate Shows()
      reads this, Repr
      requires Disjoint()
    {
      && P.Good(page) && page.columns == columns && page.first == screenFirstRow
      && |page.screen| == screenRows && |page.history| == activeTranscriptRows && P.Total(page) == |ring|
      && forall k :: 0 <= k < |ring| ==> Holds(k)
    }

    ghost predicate Valid()
      reads this, Repr
      ensures Valid() ==> this in Repr
    {
      this in Repr && lines in Repr && Linked() && Disjoint() && Shows()
    }

    method ExternalToInternalRow(externalRow: int) returns (internal: nat)
      requires Linked() && 0 <= activeTranscriptRows + externalRow && externalRow <= screenRows
      ensures internal < totalRows
      ensures internal == Ring.Slot(screenFirstRow, if externalRow < 0 then totalRows + externalRow else externalRow,
          totalRows)
      ensures externalRow < 0 ==> lines[internal] == ring[totalRows + externalRow]
      ensures 0 <= externalRow < totalRows ==> lines[internal] == ring[externalRow]
    {
      var internalRow := screenFirstRow + externalRow;
      if externalRow < 0 {
        Ring.SlotOfSmall(screenFirstRow, totalRows);
      } else {
        Ring.SlotIsMod(screenFirstRow, externalRow, totalRows);
      }
      internal := if internalRow < 0 then totalRows + internalRow else internalRow % totalRows;
      if externalRow < 0 <= internalRow {
        Ring.SlotOfSmall(internalRow, totalRows);
      }
    }

    /** Only the row at ring position `m` has changed. */
    twostate predicate OnlyRow(m: nat)
      requires old(Valid()) && m < |ring| && ring == old(ring)
      reads this, ring
      reads set r <- ring | r != null :: r.text
      reads set r <- ring | r != null :: r.style
    {
      forall k :: 0 <= k < |ring| && k != m && ring[k] != null ==>
        ring[k].text == old(ring[k].text) && ring[k].Value() == old(ring[k].Value()) && ring[k].Valid()
    }

    /** The ring and the numbers are as before. */
    twostate predicate SameRing()
      reads this, lines
    {
      && ring == old(ring) && lines == old(lines) && lines[..] == old(lines[..])
      && totalRows == old(totalRows) && screenRows == old(screenRows) && columns == old(columns)
      && activeTranscriptRows == old(activeTranscriptRows) && screenFirstRow == old(screenFirstRow)
    }

    /** After a change of one row, everything else still holds. */
    twostate lemma RowChanged(m: nat)
      requires old(Valid()) && m < |ring| && SameRing() && OnlyRow(m)
      requires ring[m] != null && ring[m].Valid() && (ring[m].text == old(ring[m].text) || fresh(ring[m].text))
      requires Repr == old(Repr) + {ring[m].text}
      ensures Linked() && Disjoint()
    {
      hide P.Good, P.SlotOf, TerminalRow.Valid;
      forall k | 0 <= k < totalRows ensures lines[Ring.Slot(screenFirstRow, k, totalRows)] == ring[k] {
        assert lines[..][Ring.Slot(screenFirstRow, k, totalRows)] ==
          old(lines[..])[Ring.Slot(screenFirstRow, k, totalRows)];
      }
    }

    /** The page follows a change of a screen row. */
    twostate lemma RowEdited(m: nat)
      requires old(Valid()) && m < screenRows && m < |ring| && SameRing() && OnlyRow(m)
      requires ring[m] != null && ring[m].Valid() && (ring[m].text == old(ring[m].text) || fresh(ring[m].text))
      requires Repr == old(Repr) + {ring[m].text}
      requires m < |old(page).screen| && page == P.SetRow(old(page), m, ring[m].Value()) && P.Good(page)
      ensures Valid()
    {
      hide P.Good, TerminalRow.Valid;
      RowChanged(m);
      assert P.Total(page) == P.Total(old(page));
      forall k | 0 <= k < |ring| ensures Holds(k) {
        assert old(Holds(k));
      }
    }

    /** A screen row, by way of its slot. */
    method ScreenRow(row: nat) returns (line: TerminalRow)
      requires Valid() && row < screenRows
      ensures line == ring[row] && line in Repr && Owns(line) && line.Valid() && line.Value() == page.screen[row]
      ensures P.GoodRow(page.screen[row], columns)
    {
      hide WellFormed, TerminalRow.Valid;
      var internal := ExternalToInternalRow(row);
      assert Holds(row);
      line := lines[internal];
    }

    method SetChar(column: nat, row: nat, codePoint: CodePoint, st: Style)
      requires Valid() && row < screenRows && column < columns && column + Width(codePoint) <= columns
      modifies Repr
      ensures Valid() && fresh(Repr - old(Repr))
      ensures page == P.SetChar(old(page), column, row, codePoint, st)
    {
      hide WellFormed, Place, PlaceStyle, TerminalRow.Valid, P.Good, P.SlotOf, P.Total;
      var line := ScreenRow(row);
      line.SetChar(column, codePoint, st);
      page := P.SetChar(page, column, row, codePoint, st);
      Repr := Repr + {line.text};
      RowEdited(row);
    }

    method SetLineWrap(row: nat, wrap: bool)
      requires Valid() && row < screenRows
      modifies Repr
      ensures Valid() && Repr == old(Repr) && page == P.SetLineWrap(old(page), row, wrap)
    {
      hide WellFormed, TerminalRow.Valid, P.SlotOf, P.Total;
      var line := ScreenRow(row);
      line.SetLineWrap(wrap);
      page := P.SetLineWrap(page, row, wrap);
      assert Repr == Repr + {line.text};
      RowEdited(row);
    }

    method GetLineWrap(row: nat) returns (wrap: bool)
      requires Valid() && row < screenRows
      ensures wrap == page.screen[row].wrap
    {
      var line := ScreenRow(row);
      wrap := line.lineWrap;
    }

    method GetStyleAt(row: nat, column: nat) returns (st: Style)
      requires Valid() && row < screenRows && column < columns
      ensures |page.screen[row].style| == columns && st == page.screen[row].style[column]
    {
      var line := ScreenRow(row);
      st := line.GetStyle(column);
    }

    method BlockSet(sx: nat, sy: nat, w: nat, h: nat, val: CodePoint, st: Style)
      requires Valid() && sx + w <= columns && sy + h <= screenRows && Width(val) == 1
      modifies Repr
      ensures Valid() && fresh(Repr - old(Repr))
      ensures page == P.BlockSet(old(page), sx, sy, w, h, val, st)
      ensures columns == old(columns) && screenRows == old(screenRows)
    {
      hide WellFormed, Place, PlaceStyle, TerminalRow.Valid, P.SlotOf, P.Total, P.FillRow, P.Good;
      var y := 0;
      while y < h
        invariant y <= h && Valid() && fresh(Repr - old(Repr))
        invariant columns == old(columns) && screenRows == old(screenRows)
        invariant P.BlockSet(page, sx, sy + y, w, h - y, val, st) == P.BlockSet(old(page), sx, sy, w, h, val, st)
      {
        FillLine(sx, sy + y, w, val, st);
        y := y + 1;
      }
    }

    /** The inner loop of `BlockSet`. */
    method FillLine(sx: nat, row: nat, w: nat, val: CodePoint, st: Style)
      requires Valid() && sx + w <= columns && row < screenRows && Width(val) == 1
      modifies Repr
      ensures Valid() && fresh(Repr - old(Repr))
      ensures columns == old(columns) && screenRows == old(screenRows)
      ensures P.GoodRow(old(page).screen[row], old(page).columns)
      ensures page == P.SetRow(old(page), row, P.FillRow(old(page).screen[row], sx, w, val, st))
    {
      hide WellFormed, Place, PlaceStyle, TerminalRow.Valid, P.SlotOf, P.Total;
      var x := 0;
      while x < w
        invariant x <= w && Valid() && fresh(Repr - old(Repr))
        invariant columns == old(columns) && screenRows == old(screenRows)
        invariant page == P.SetRow(old(page), row, page.screen[row])
        invariant P.GoodRow(page.screen[row], columns)
        invariant P.FillRow(page.screen[row], sx + x, w - x, val, st) ==
          P.FillRow(old(page).screen[row], sx, w, val, st)
      {
        SetChar(sx + x, row, val, st);
        x := x + 1;
      }
    }

    /** Block copy: bottom rows first unless the rows move up, so that no row is read after it was written. */
    method BlockCopy(b: P.Block)
      requires Valid() && P.Fits(b, columns, screenRows)
      modifies Repr
      ensures Valid() && fresh(Repr - old(Repr))
      ensures columns == old(columns) && screenRows == old(screenRows)
      ensures page == P.BlockCopy(old(page), b)
    {
      hide WellFormed, TerminalRow.Valid, P.SlotOf, P.Total, P.CopyColumns;
      if b.w == 0 {
        return;
      }
      P.CopyRowsKeeps(page.screen, b, columns);
      var copyingUp := b.sy > b.dy;
      var y := 0;
      while y < b.h
        invariant y <= b.h && Valid() && fresh(Repr - old(Repr))
        invariant columns == old(columns) && screenRows == old(screenRows)
        invariant page == old(page).(screen := page.screen)
        invariant P.CopyRows(old(page).screen, b) ==
          if copyingUp then P.CopyUp(page.screen, b, y) else P.CopyDown(page.screen, b, b.h - y)
      {
        var y2 := if copyingUp then y else b.h - (y + 1);
        CopyLine(b, y2);
        y := y + 1;
      }
    }

    /** One row of a block copy. */
    method CopyLine(b: P.Block, y: nat)
      requires Valid() && P.Fits(b, columns, screenRows) && y < b.h
      modifies Repr
      ensures Valid() && fresh(Repr - old(Repr))
      ensures columns == old(columns) && screenRows == old(screenRows)
      ensures page == old(page).(screen := P.CopyRow(old(page).screen, b, y))
    {
      hide WellFormed, TerminalRow.Valid, P.SlotOf, P.Total, P.CopyColumns, P.Good;
      P.MovedRowIsGood(page, b, y);
      CopyBetween(b, b.sy + y, b.dy + y);
      page := page.(screen := P.CopyRow(page.screen, b, y));
      Repr := Repr + {ring[b.dy + y].text};
      RowEdited(b.dy + y);
    }

    method CopyBetween(b: P.Block, sourceY: nat, destinationY: nat)
      requires Valid() && sourceY < screenRows && destinationY < screenRows
      requires b.sx + b.w <= columns && b.dx + b.w <= columns && (b.sy == b.dy <==> sourceY == destinationY)
      modifies Repr
      ensures SameRing() && OnlyRow(destinationY) && Repr == old(Repr) && page == old(page)
      ensures ring[destinationY] != null && ring[destinationY].Valid()
      ensures ring[destinationY].text == old(ring[destinationY].text) || fresh(ring[destinationY].text)
      ensures ring[destinationY].Value() == P.CopyColumns(old(page).screen[destinationY], old(page).screen[sourceY], b)
    {
      hide WellFormed, TerminalRow.Valid, P.SlotOf, P.Total, P.Good, RowCopy.CopyInterval;
      var sourceRow := ScreenRow(sourceY);
      var line := ScreenRow(destinationY);
      assert sourceRow == line <==> sourceY == destinationY by {
        assert sourceY < destinationY ==> Apart(sourceRow, line);
        assert sourceY > destinationY ==> Apart(line, sourceRow);
      }
      line.CopyInterval(sourceRow, b.sx, b.sx + b.w, b.dx);
    }

    // ----- Scrolling -----

    /** Moves `len` lines one slot down; the line they push aside goes in front of them. */
    method BlockCopyLinesDown(srcInternal: nat, len: nat, ghost s: nat)
      requires Linked() && len < totalRows && s + len <= totalRows
      requires srcInternal % totalRows == Ring.Slot(screenFirstRow, s, totalRows)
      modifies lines, this`ring
      ensures Linked() && ring == Ring.MoveInFront(old(ring), s, len)
    {
      if len == 0 {
        return;
      }
      ghost var was := ring;
      var total := totalRows;
      // The row below the block ends up on top of it.
      LineSlot(srcInternal, s, len);
      var lineToBeOverwritten := lines[(srcInternal + len) % total];
      var i := len;
      while i > 0
        invariant 0 <= i <= len && Linked()
        invariant ring == Ring.PartlyMoved(was, s, len, i)
      {
        i := i - 1;
        MoveLineDown(srcInternal, i, s);
        Ring.PartlyMovedStep(was, s, len, i);
      }
      LineSlot(srcInternal, s, 0);
      SetLine(srcInternal % total, lineToBeOverwritten, s);
      Ring.PartlyMovedEnd(was, s, len);
    }

    /** The body of the loop of `BlockCopyLinesDown`. */
    method MoveLineDown(srcInternal: nat, i: nat, ghost s: nat)
      requires Linked() && s + i < totalRows
      requires srcInternal % totalRows == Ring.Slot(screenFirstRow, s, totalRows)
      modifies lines, this`ring
      ensures Linked() && ring == old(ring)[Ring.Wrap(s + i + 1, totalRows) := old(ring)[s + i]]
    {
      LineSlot(srcInternal, s, i);
      LineSlot(srcInternal, s, i + 1);
      SetLine((srcInternal + i + 1) % totalRows, lines[(srcInternal + i) % totalRows], Ring.Wrap(s + i + 1, totalRows));
    }

    method SetLine(slot: nat, line: TerminalRow?, ghost k: nat)
      requires Linked() && k < totalRows && slot == Ring.Slot(screenFirstRow, k, totalRows)
      modifies lines, this`ring
      ensures Linked() && ring == old(ring)[k := line]
    {
      lines[slot] := line;
      ring := ring[k := line];
    }

    lemma LineSlot(srcInternal: nat, s: nat, i: nat)
      requires 0 < totalRows && s + i <= totalRows
      requires srcInternal % totalRows == Ring.Slot(screenFirstRow, s, totalRows)
      ensures (srcInternal + i) % totalRows == Ring.Slot(screenFirstRow, s + i, totalRows)
    {
      Ring.SlotIsMod(srcInternal, i, totalRows);
      Ring.SlotOfSmall(Ring.Slot(screenFirstRow, s, totalRows), totalRows);
    }

    /** The moves of a scroll: only references change places. */
    method MoveLines(topMargin: nat, bottomMargin: nat)
      requires Linked() && topMargin < bottomMargin <= screenRows
      modifies lines, this`ring, this`screenFirstRow, this`activeTranscriptRows
      ensures Linked() && ring == Ring.Scrolled(old(ring), topMargin, bottomMargin, screenRows)
      ensures screenFirstRow == (old(screenFirstRow) + 1) % totalRows
      ensures activeTranscriptRows ==
        old(activeTranscriptRows) + if old(activeTranscriptRows) < totalRows - screenRows then 1 else 0
    {
      hide Ring.MoveInFront, Ring.TurnOnce, Ring.Slot;
      // The origin has moved, so the lines above the region have to follow it.
      Ring.SlotIsMod(screenFirstRow, 0, totalRows);
      BlockCopyLinesDown(screenFirstRow, topMargin, 0);
      // So have those below the region.
      var below := ExternalToInternalRow(bottomMargin);
      Ring.SlotOfSmall(below, totalRows);
      BlockCopyLinesDown(below, screenRows - bottomMargin, bottomMargin);
      TurnRing();
    }

    /** The screen starts one line later. */
    method TurnRing()
      requires Linked()
      modifies this`ring, this`screenFirstRow, this`activeTranscriptRows
      ensures Linked() && ring == Ring.TurnOnce(old(ring)) && screenFirstRow == (old(screenFirstRow) + 1) % totalRows
      ensures activeTranscriptRows ==
        old(activeTranscriptRows) + if old(activeTranscriptRows) < totalRows - screenRows then 1 else 0
    {
      ghost var was, first := ring, screenFirstRow;
      screenFirstRow := (screenFirstRow + 1) % totalRows;
      if activeTranscriptRows < totalRows - screenRows {
        activeTranscriptRows := activeTranscriptRows + 1;
      }
      ring := Ring.TurnOnce(ring);
      forall k | 0 <= k < totalRows ensures lines[Ring.Slot(screenFirstRow, k, totalRows)] == ring[k] {
        Ring.SlotOfNext(first, k, totalRows);
      }
    }

    /** No row has changed. */
    twostate predicate SameRows(rows: seq<TerminalRow?>)
      reads rows
      reads set r <- rows | r != null :: r.text
      reads set r <- rows | r != null :: r.style
    {
      forall k :: 0 <= k < |rows| && rows[k] != null ==>
        rows[k].text == old(rows[k].text) && rows[k].Value() == old(rows[k].Value()) && rows[k].Valid()
    }

    /** After the moves of a scroll the rows are still sound and share nothing. */
    twostate lemma MovedRows(margins: (nat, nat))
      requires old(Valid()) && margins.0 < margins.1 <= screenRows <= |old(ring)|
      requires ring == Ring.Scrolled(old(ring), margins.0, margins.1, screenRows)
      requires lines == old(lines) && columns == old(columns) && Repr == old(Repr) && SameRows(old(ring))
      ensures forall k :: 0 <= k < |ring| ==>
        ring[k] == old(ring)[Ring.ScrolledFrom(|ring|, margins.0, margins.1, screenRows, k)]
      ensures Disjoint()
    {
      hide Ring.Scrolled, Ring.ScrolledFrom, TerminalRow.Valid, P.Good;
      forall k | 0 <= k < |ring|
        ensures ring[k] == old(ring)[Ring.ScrolledFrom(|ring|, margins.0, margins.1, screenRows, k)]
      {
        Ring.ScrolledAt(old(ring), margins.0, margins.1, screenRows, k);
      }
      forall i, j | 0 <= i < j < |ring| && ring[i] != null && ring[j] != null ensures Apart(ring[i], ring[j]) {
        Ring.ScrolledFromInjective(|ring|, margins.0, margins.1, screenRows, i, j);
      }
    }

    /** Blanks the line in a slot, or puts a new blank line there. */
    method BlankLine(slot: nat, ghost k: nat, st: Style)
      requires Linked() && Disjoint() && k < totalRows && slot == Ring.Slot(screenFirstRow, k, totalRows)
      modifies Repr
      ensures Linked() && Disjoint() && fresh(Repr - old(Repr)) && SameNumbers()
      ensures page == old(page) && OthersKept(k)
      ensures ring[k] != null && ring[k].Value() == BlankRow(columns, st, old(ring[k] != null && ring[k].lineWrap))
    {
      if lines[slot] == null {
        NewLine(slot, k, st);
      } else {
        ClearLine(slot, k, st);
      }
    }

    twostate predicate SameNumbers()
      reads this
    {
      && totalRows == old(totalRows) && screenRows == old(screenRows) && columns == old(columns)
      && activeTranscriptRows == old(activeTranscriptRows) && screenFirstRow == old(screenFirstRow)
    }

    /** Only ring position `k` may have changed. */
    twostate predicate OthersKept(k: nat)
      reads this, ring
      reads set r <- ring | r != null :: r.style
    {
      && |ring| == |old(ring)|
      && forall j :: 0 <= j < |ring| && j != k ==>
        ring[j] == old(ring[j]) && (ring[j] != null ==> ring[j].Value() == old(ring[j].Value()))
    }

    method NewLine(slot: nat, ghost k: nat, st: Style)
      requires Linked() && Disjoint() && k < totalRows && slot == Ring.Slot(screenFirstRow, k, totalRows)
      requires lines[slot] == null
      modifies this`ring, this`Repr, lines
      ensures Linked() && Disjoint() && fresh(Repr - old(Repr))
      ensures OthersKept(k)
      ensures ring[k] != null && ring[k].Value() == BlankRow(columns, st, false)
    {
      hide WellFormed, TerminalRow.Valid, BlankRow;
      var line := new TerminalRow(columns, st);
      lines[slot] := line;
      ring := ring[k := line];
      Repr := Repr + {line, line.text, line.style};
    }

    method ClearLine(slot: nat, ghost k: nat, st: Style)
      requires Linked() && Disjoint() && k < totalRows && slot == Ring.Slot(screenFirstRow, k, totalRows)
      requires lines[slot] != null
      modifies Repr
      ensures Linked() && Disjoint() && Repr == old(Repr) && SameNumbers()
      ensures page == old(page) && ring == old(ring) && OthersKept(k)
      ensures ring[k] != null && ring[k].Value() == BlankRow(columns, st, old(ring[k].lineWrap))
    {
      hide WellFormed, TerminalRow.Valid, BlankRow;
      lines[slot].Clear(st);
    }

    method ScrollDownOneLine(topMargin: nat, bottomMargin: nat, st: Style)
      requires Valid() && topMargin < bottomMargin <= screenRows
      modifies Repr
      ensures Valid() && fresh(Repr - old(Repr))
      ensures page == P.ScrollDownOneLine(old(page), topMargin, bottomMargin, st)
    {
      hide P.Good, P.ScrollDownOneLine, WellFormed, TerminalRow.Valid, Ring.ScrolledFrom, P.SlotOf, BlankRow,
        Ring.Slot, Ring.Scrolled;
      ghost var before := page;
      MoveLinesOfPage(topMargin, bottomMargin);
      // The last line of the region still holds an old row.
      var blankRow := ExternalToInternalRow(bottomMargin - 1);
      BlankMovedLine(blankRow, topMargin, bottomMargin, st);
      page := P.ScrollDownOneLine(page, topMargin, bottomMargin, st);
      ScrollShown(before, topMargin, bottomMargin, st);
    }

    ghost predicate HoldsRow(k: nat, r: Option<RowValue>)
      reads this`ring, ring
      reads set x <- ring | x != null :: x.style
      requires k < |ring|
    {
      match r
      case None => ring[k] == null
      case Some(v) => ring[k] != null && ring[k].Value() == v
    }

    /** The rows are those of page `p`, scrolled; ring position `except` does not matter. */
    ghost predicate HoldsScrolled(p: P.Page, top: nat, bottom: nat, except: int)
      reads this`ring, this`screenRows, ring
      reads set x <- ring | x != null :: x.style
    {
      && top < bottom <= screenRows <= |ring| == P.Total(p)
      && forall k :: 0 <= k < |ring| && k != except ==>
        HoldsRow(k, P.SlotOf(p, Ring.ScrolledFrom(|ring|, top, bottom, screenRows, k)))
    }

    ghost predicate NumbersAfterScroll(p: P.Page)
      reads this`columns, this`screenRows, this`totalRows, this`screenFirstRow, this`activeTranscriptRows
    {
      && P.Good(p) && P.Total(p) == totalRows && |p.screen| == screenRows && p.columns == columns
      && screenFirstRow == (p.first + 1) % totalRows
      && activeTranscriptRows == if p.spare == [] then |p.history| else |p.history| + 1
    }

    method MoveLinesOfPage(topMargin: nat, bottomMargin: nat)
      requires Valid() && topMargin < bottomMargin <= screenRows
      modifies lines, this`ring, this`screenFirstRow, this`activeTranscriptRows
      ensures Linked() && Disjoint() && page == old(page)
      ensures HoldsScrolled(page, topMargin, bottomMargin, -1) && NumbersAfterScroll(page)
    {
      hide P.Good, WellFormed, TerminalRow.Valid, Ring.ScrolledFrom, P.SlotOf, Ring.Scrolled, Ring.Slot;
      MoveLines(topMargin, bottomMargin);
      MovedRows((topMargin, bottomMargin));
      ScrolledShows((topMargin, bottomMargin));
    }

    method BlankMovedLine(slot: nat, ghost top: nat, ghost bottom: nat, st: Style)
      requires Linked() && Disjoint() && HoldsScrolled(page, top, bottom, -1) && NumbersAfterScroll(page)
      requires slot == Ring.Slot(screenFirstRow, bottom - 1, totalRows)
      modifies Repr
      ensures Linked() && Disjoint() && fresh(Repr - old(Repr)) && page == old(page)
      ensures HoldsScrolled(page, top, bottom, bottom - 1) && NumbersAfterScroll(page)
      ensures HoldsRow(bottom - 1, Some(BlankRow(columns, st, P.InheritedWrap(page, top))))
    {
      hide P.Good, WellFormed, TerminalRow.Valid, BlankRow, Ring.Slot;
      assert HoldsRow(bottom - 1, P.SlotOf(page, Ring.ScrolledFrom(|ring|, top, bottom, screenRows, bottom - 1)));
      hide P.SlotOf;
      BlankLine(slot, bottom - 1, st);
    }

    lemma ScrollShown(before: P.Page, top: nat, bottom: nat, st: Style)
      requires Linked() && Disjoint() && NumbersAfterScroll(before)
      requires HoldsScrolled(before, top, bottom, bottom - 1)
      requires HoldsRow(bottom - 1, Some(BlankRow(columns, st, P.InheritedWrap(before, top))))
      requires page == P.ScrollDownOneLine(before, top, bottom, st)
      ensures Shows()
    {
      hide P.Good, WellFormed, TerminalRow.Valid, BlankRow, Ring.Slot;
      forall k | 0 <= k < |ring| ensures Holds(k) {
        P.ScrollSlots(before, top, bottom, st, k);
      }
    }

    /** After the moves of a scroll each line holds what the page says about the place it came from. */
    twostate lemma ScrolledShows(margins: (nat, nat))
      requires old(Valid()) && margins.0 < margins.1 <= screenRows == old(screenRows) <= |old(ring)|
      requires |ring| == |old(ring)|
      requires forall k :: 0 <= k < |ring| ==>
        ring[k] == old(ring)[Ring.ScrolledFrom(|ring|, margins.0, margins.1, screenRows, k)]
      requires SameRows(old(ring))
      ensures HoldsScrolled(old(page), margins.0, margins.1, -1)
    {
      hide Ring.ScrolledFrom, TerminalRow.Valid, P.Good, P.SlotOf;
      forall k | 0 <= k < |ring|
        ensures HoldsRow(k, P.SlotOf(old(page), Ring.ScrolledFrom(|ring|, margins.0, margins.1, screenRows, k)))
      {
        assert old(Holds(Ring.ScrolledFrom(|ring|, margins.0, margins.1, screenRows, k)));
      }
    }

    // ----- Effects and history -----

    method SetOrClearEffect(e: P.Change)
      requires Valid() && P.ChangeFits(page, e)
      modifies Repr
      ensures Valid() && fresh(Repr - old(Repr))
      ensures page == P.SetOrClearEffect(old(page), e, e.top)
    {
      hide WellFormed, TerminalRow.Valid, P.SlotOf, P.Total, ChangeColumns, P.Good;
      var y := e.top;
      while y < e.bottom
        invariant Valid() && fresh(Repr - old(Repr)) && P.ChangeFits(page, e)
        invariant P.SetOrClearEffect(page, e, y) == P.SetOrClearEffect(old(page), e, e.top)
        decreases e.bottom - y
      {
        ChangeLine(e, y);
        y := y + 1;
      }
    }

    /** The inner loop of `SetOrClearEffect`. */
    method ChangeLine(e: P.Change, y: nat)
      requires Valid() && P.ChangeFits(page, e) && y < e.bottom
      modifies Repr
      ensures Valid() && fresh(Repr - old(Repr))
      ensures P.GoodRow(old(page).screen[y], old(page).columns)
      ensures page == P.SetRow(old(page), y, P.ChangeRow(old(page).screen[y], e, y))
    {
      hide WellFormed, TerminalRow.Valid, P.SlotOf, P.Total, P.Good;
      var line := ScreenRow(y);
      line.ChangeEffects(P.StartOfLine(e, y), P.EndOfLine(e, y), e.bits, e.setOrClear, e.reverse);
      P.ChangedRowIsGood(page, e, y);
      page := P.SetRow(page, y, P.ChangeRow(page.screen[y], e, y));
      assert Repr == Repr + {line.text};
      RowEdited(y);
    }

    method ClearTranscript()
      requires Valid() && screenFirstRow < totalRows
      modifies Repr
      ensures Valid() && Repr == old(Repr)
      ensures page == P.ClearTranscript(old(page))
    {
      hide WellFormed, TerminalRow.Valid, P.Good, P.SlotOf;
      ghost var before := page;
      ForgetHistory();
      activeTranscriptRows := 0;
      page := P.ClearTranscript(page);
      forall k | 0 <= k < |ring| ensures Holds(k) {
        P.ForgottenSlot(before, k);
        assert old(Holds(k));
      }
    }

    /** Empties the slots of the history rows, which may go past the end of the array and on from its start. */
    method ForgetHistory()
      requires Valid() && screenFirstRow < totalRows
      modifies lines, this`ring
      ensures Linked() && Disjoint()
      ensures ring == old(ring)[..totalRows - activeTranscriptRows] + seq(activeTranscriptRows, _ => null)
    {
      hide WellFormed, TerminalRow.Valid, P.Good, P.SlotOf, Ring.Slot;
      if screenFirstRow < activeTranscriptRows {
        FillNull(totalRows + screenFirstRow - activeTranscriptRows, totalRows);
        FillNull(0, screenFirstRow);
      } else {
        FillNull(screenFirstRow - activeTranscriptRows, screenFirstRow);
      }
      ghost var kept := totalRows - activeTranscriptRows;
      ring := ring[..kept] + seq(activeTranscriptRows, _ => null);
      forall k | 0 <= k < totalRows ensures lines[Ring.Slot(screenFirstRow, k, totalRows)] == ring[k] {
        HistorySlot(screenFirstRow, k, totalRows, activeTranscriptRows);
      }
    }

    /** The slots of the history are those before the first screen row. */
    static lemma HistorySlot(first: nat, k: nat, total: nat, active: nat)
      requires k < total && first < total && active <= total
      ensures var slot := Ring.Slot(first, k, total);
        k >= total - active <==>
        if first < active then total + first - active <= slot < total || slot < first
        else first - active <= slot < first
    {
      Ring.SlotOfSmall(first, total);
    }

    /** Arrays.fill with null. */
    method FillNull(from: nat, to: nat)
      requires from <= to <= lines.Length
      modifies lines
      ensures forall i :: 0 <= i < lines.Length ==> lines[i] == if from <= i < to then null else old(lines[i])
    {
      forall i | from <= i < to {
        lines[i] := null;
      }
    }

    // ----- Changing the number of rows -----

    /** Resizing when only the number of rows changes: the screen moves along the ring, back over its history
        when it grows, and not as far when there are blank rows below the cursor to drop. */
    method ResizeRows(newRows: nat, newTotalRows: nat, cursorRow: nat, st: Style,
        altScreen: bool) returns (newCursorRow: int)
      requires Valid() && FastResize.CanResize(page, newRows, altScreen)
      requires newTotalRows == if altScreen then newRows else totalRows
      modifies Repr
      ensures Valid() && fresh(Repr - old(Repr))
      ensures (page, newCursorRow) == FastResize.Resize(old(page), newRows, cursorRow, st, altScreen)
    {
      hide WellFormed, TerminalRow.Valid, P.Good, P.SlotOf, FastResize.SkipBlanks, FastResize.MovedFrom,
        FastResize.Shrink, FastResize.Extend, FastResize.ShrinkRing, FastResize.BlankSpares;
      var shift: int := screenRows - newRows;
      if 0 < shift < screenRows {
        shift := SkipBlankRows(shift, cursorRow);
      } else if shift < 0 {
        // History rows come back first.
        var actualShift := if shift + activeTranscriptRows >= 0 then shift else 0 - activeTranscriptRows;
        if shift != actualShift {
          // There are not enough of them: the remaining rows come from the slots below the screen.
          BlankRowsBelow(actualShift - shift, st);
          shift := actualShift;
        } else {
          assert FastResize.BlankSpares(page, 0, 0, st) == page by {
            FastResize.NoBlankSpares(page, st);
          }
        }
      }
      MoveScreen(shift, newRows, newTotalRows, altScreen);
      newCursorRow := cursorRow - shift;
    }

    /** Takes one off the shift for every blank row below the cursor, bottom first. */
    method SkipBlankRows(shift: nat, cursorRow: nat) returns (left: nat)
      requires Valid() && 0 < shift
      ensures left == FastResize.SkipBlanks(page.screen, screenRows - 1, cursorRow, shift)
    {
      hide WellFormed, TerminalRow.Valid, P.Good, P.SlotOf, Points;
      left := shift;
      var i: int := screenRows - 1;
      while i > 0
        invariant 0 <= i < screenRows && 0 < left
        invariant FastResize.SkipBlanks(page.screen, i, cursorRow, left) ==
          FastResize.SkipBlanks(page.screen, screenRows - 1, cursorRow, shift)
      {
        if cursorRow >= i {
          break;
        }
        var line := ScreenRow(i);
        var blank := line.IsBlank();
        assert line.Value() == page.screen[i];
        if blank {
          left := left - 1;
          if left == 0 {
            break;
          }
        }
        i := i - 1;
      }
    }

    /** Blanks the `n` lines below the screen. */
    method BlankRowsBelow(n: nat, st: Style)
      requires Valid() && n <= |page.spare|
      modifies Repr
      ensures Valid() && fresh(Repr - old(Repr)) && SameNumbers()
      ensures page == FastResize.BlankSpares(old(page), 0, n, st)
    {
      hide WellFormed, TerminalRow.Valid, P.Good, P.SlotOf, FastResize.BlankSpare;
      var i := 0;
      while i < n
        invariant i <= n <= |page.spare| && Valid() && fresh(Repr - old(Repr)) && SameNumbers()
        invariant FastResize.BlankSpares(page, i, n, st) == FastResize.BlankSpares(old(page), 0, n, st)
      {
        BlankLineBelow(i, st);
        i := i + 1;
      }
    }

    method BlankLineBelow(i: nat, st: Style)
      requires Valid() && i < |page.spare|
      modifies Repr
      ensures Valid() && fresh(Repr - old(Repr)) && SameNumbers()
      ensures page == FastResize.BlankSpare(old(page), i, st)
    {
      hide WellFormed, TerminalRow.Valid, P.Good, BlankRow, Ring.Slot;
      assert Holds(screenRows + i);
      Ring.SlotIsMod(screenFirstRow, screenRows + i, totalRows);
      BlankLine((screenFirstRow + screenRows + i) % totalRows, screenRows + i, st);
      page := FastResize.BlankSpare(page, i, st);
      SpareEdited(i);
    }

    /** The page follows a change of a line below the screen. */
    twostate lemma SpareEdited(i: nat)
      requires old(Valid()) && i < |old(page).spare|
      requires Linked() && Disjoint() && SameNumbers() && OthersKept(screenRows + i)
      requires P.Good(page) && page == old(page).(spare := page.spare) && |page.spare| == |old(page).spare|
      requires forall j :: 0 <= j < |page.spare| && j != i ==> page.spare[j] == old(page).spare[j]
      requires page.spare[i].Some?
      requires screenRows + i < |ring| && ring[screenRows + i] != null
      requires ring[screenRows + i].Value() == page.spare[i].value
      ensures Shows()
    {
      hide P.Good, TerminalRow.Valid;
      forall k | 0 <= k < |ring| ensures Holds(k) {
        assert old(Holds(k));
      }
    }

    /** Changes which part of the ring is the screen. */
    method MoveScreen(shift: int, newRows: nat, newTotalRows: nat, altScreen: bool)
      requires Valid() && FastResize.CanMove(page, shift, newRows, altScreen)
      requires newTotalRows == if altScreen then newRows else totalRows
      modifies this
      ensures Valid() && Repr == old(Repr)
      ensures page == FastResize.MoveScreen(old(page), shift, newRows, altScreen)
    {
      hide WellFormed, TerminalRow.Valid, P.Good, P.SlotOf, FastResize.MovedFrom, Ring.Slot,
        FastResize.Shrink, FastResize.Extend, FastResize.ShrinkRing;
      ghost var from := FastResize.MovedFrom(page, shift, newRows, altScreen);
      ghost var q := FastResize.MoveScreen(page, shift, newRows, altScreen);
      var first: int := screenFirstRow + shift;
      first := if first < 0 then first + totalRows else first % totalRows;
      var active := if altScreen then 0 else Max(0, activeTranscriptRows + shift);
      FastResize.MovedNumbers(page, shift, newRows, altScreen);
      forall k | 0 <= k < newTotalRows
        ensures from[k] < |ring| && P.SlotOf(q, k) == P.SlotOf(page, from[k])
        ensures Ring.Slot(first, k, newTotalRows) == Ring.Slot(screenFirstRow, from[k], totalRows)
      {
        FastResize.MovedFromSlot(page, shift, newRows, altScreen, k);
      }
      forall i, j | 0 <= i < j < newTotalRows ensures from[i] != from[j] {
        FastResize.MovedFromInjective(page, shift, newRows, altScreen, i, j);
      }
      SetScreen(first, newRows, newTotalRows, active, from, q);
    }

    /** The ring is read from another place on; `from` says which of its elements comes where. */
    method SetScreen(first: nat, newRows: nat, newTotalRows: nat, active: nat, ghost from: seq<nat>, ghost q: P.Page)
      requires Valid() && 0 < newRows && newRows + active <= newTotalRows == |from| && newTotalRows <= totalRows
      requires first < totalRows && (first < newTotalRows || active == 0)
      requires forall k :: 0 <= k < newTotalRows ==>
        from[k] < |ring| && Ring.Slot(first, k, newTotalRows) == Ring.Slot(screenFirstRow, from[k], totalRows)
      requires forall i, j :: 0 <= i < j < newTotalRows ==> from[i] != from[j]
      requires P.Good(q) && q.columns == columns && q.first == first && |q.screen| == newRows && |q.history| == active
      requires P.Total(q) == newTotalRows
      requires forall k :: 0 <= k < newTotalRows ==> P.SlotOf(q, k) == P.SlotOf(page, from[k])
      modifies this
      ensures Valid() && Repr == old(Repr) && page == q
    {
      hide WellFormed, TerminalRow.Valid, P.Good, P.SlotOf, Ring.Slot;
      ghost var was := ring;
      screenFirstRow := first;
      totalRows := newTotalRows;
      activeTranscriptRows := active;
      screenRows := newRows;
      ring := seq(newTotalRows, k requires 0 <= k < newTotalRows => was[from[k]]);
      page := q;
      forall k | 0 <= k < newTotalRows ensures lines[Ring.Slot(first, k, newTotalRows)] == ring[k] {
        assert old(lines[Ring.Slot(screenFirstRow, from[k], totalRows)] == ring[from[k]]);
      }
      forall i, j | 0 <= i < j < |ring| && ring[i] != null && ring[j] != null ensures Apart(ring[i], ring[j]) {
        assert from[i] < from[j] || from[j] < from[i];
      }
      forall k | 0 <= k < |ring| ensures Holds(k) {
        assert old(Holds(from[k]));
      }
    }

    // ----- Changing the number of columns -----

    method Resize(newColumns: nat, newRows: nat, newTotalRows: nat, cursorCol: nat, cursorRow: nat, st: Style,
        altScreen: bool)
      returns (newCol: int, newRow: int)
      requires Valid() && Reflow.CanResize(page, newColumns, newRows, newTotalRows, altScreen)
      modifies Repr
      ensures Valid() && fresh(Repr - old(Repr))
      ensures Reflow.Resized(page, newCol, newRow) ==
        Reflow.Resize(old(page), newColumns, newRows, newTotalRows, cursorCol, cursorRow, st, altScreen)
    {
      hide P.Good, P.SlotOf, FastResize.Resize, Reflow.Reflowed, Disjoint, Holds;
      newCol := cursorCol;
      if newColumns == columns && newRows <= totalRows {
        newRow := ResizeRows(newRows, newTotalRows, cursorRow, st, altScreen);
      } else {
        ghost var c := Reflow.Cursor(|page.history| + cursorRow, cursorCol);
        ghost var o := Reflow.Reflowed(page, newColumns, newRows, newTotalRows, c, st);
        var at := ReflowRows(newColumns, newRows, newTotalRows, cursorCol, cursorRow, st, c, o);
        newCol, newRow := at.cursorCol, at.cursorRow;
      }
      if newCol < 0 || newRow < 0 {
        newCol, newRow := 0, 0;
      }
    }

    /** The output of a reflow so far is in this buffer, and it continues at `at`. */
    ghost predicate Tracks(o: Reflow.Output, at: Reflow.Caret)
      reads this
    {
      Reflow.Ready(o) && o.page == page && o.at == at
    }

    ghost predicate Outside(line: TerminalRow)
      reads this, line
    {
      line !in Repr && line.text !in Repr && line.style !in Repr
    }

    /** Copies the old lines code point by code point to new lines. */
    method ReflowRows(newColumns: nat, newRows: nat, newTotalRows: nat, cursorCol: nat, cursorRow: nat, st: Style,
                      ghost c: Reflow.Cursor, ghost result: Reflow.Output)
      returns (at: Reflow.Caret)
      requires Valid() && 2 <= newColumns && 0 < newRows <= newTotalRows
      requires P.Good(page) && c == Reflow.Cursor(|page.history| + cursorRow, cursorCol)
      requires result == Reflow.Reflowed(page, newColumns, newRows, newTotalRows, c, st)
      modifies this
      ensures Valid() && fresh(Repr - {this})
      ensures page == result.page && at == result.at
    {
      hide WellFormed, TerminalRow.Valid, P.Good, P.SlotOf, P.GoodRows, Linked, Disjoint, Shows, Reflow.Ready,
        Reflow.CopyRows, Reflow.NextRow, Reflow.Fresh;
      var oldLines, oldActiveTranscriptRows, oldScreenFirstRow := lines, activeTranscriptRows, screenFirstRow;
      var oldScreenRows, oldTotalRows := screenRows, totalRows;
      ghost var rows := page.history + page.screen;
      ghost var oldColumns := columns;
      OldRowsAreGood();
      StartOver(newColumns, newRows, newTotalRows, st);
      at := Reflow.START;
      ghost var o := Reflow.Fresh(newColumns, newRows, newTotalRows, st);
      Reflow.FreshStarts(newColumns, newRows, newTotalRows, st);
      assert Reflow.CopyRows(o, rows, 0, 0, c, oldColumns, st) == result;
      var skippedBlankLines := 0;
      var externalOldRow: int := -(oldActiveTranscriptRows as int);
      while externalOldRow < oldScreenRows
        invariant 0 <= externalOldRow + oldActiveTranscriptRows && externalOldRow <= oldScreenRows
        invariant Valid() && fresh(Repr - {this}) && Tracks(o, at)
        invariant externalOldRow <= cursorRow ==> !at.placed
        invariant oldActiveTranscriptRows + oldScreenRows == |rows|
        invariant Reflow.CopyRows(o, rows, externalOldRow + oldActiveTranscriptRows, skippedBlankLines, c, oldColumns,
            st) == result
      {
        var internalOldRow := oldScreenFirstRow + externalOldRow;
        OldLine(externalOldRow);
        internalOldRow := if internalOldRow < 0 then oldTotalRows + internalOldRow else internalOldRow % oldTotalRows;
        var oldLine := oldLines[internalOldRow];
        at, skippedBlankLines, o := ReadOldLine(oldLine, at, skippedBlankLines, externalOldRow == cursorRow, cursorCol,
          externalOldRow + 1 == oldScreenRows, st, o, rows, externalOldRow + oldActiveTranscriptRows, c);
        externalOldRow := externalOldRow + 1;
      }
      Reflow.NoRowLeft(o, rows, skippedBlankLines, c, oldColumns, st);
    }

    /** One turn of the loop over the old lines: a blank one is only counted, unless the cursor is on it. */
    method ReadOldLine(line: TerminalRow, at: Reflow.Caret, skipped: nat, cursorAtThisRow: bool, cursorCol: nat,
        last: bool, st: Style,
                       ghost o: Reflow.Output, ghost rows: seq<RowValue>, ghost i: nat, ghost c: Reflow.Cursor)
      returns (at': Reflow.Caret, skipped': nat, ghost o': Reflow.Output)
      requires Valid() && Tracks(o, at) && line.Valid() && Outside(line) && (cursorAtThisRow ==> !at.placed)
      requires P.GoodRows(rows, line.columns) && i < |rows| && line.Value() == rows[i]
      requires c.col == cursorCol && (cursorAtThisRow <==> i == c.row) && (last <==> i == |rows| - 1)
      modifies Repr
      ensures Valid() && fresh(Repr - old(Repr)) && Tracks(o', at')
      ensures (o', skipped') == Reflow.NextRow(o, rows, i, skipped, c, line.columns, st)
    {
      hide WellFormed, TerminalRow.Valid, P.Good, P.SlotOf, P.GoodRows, Linked, Disjoint, Shows, Reflow.Ready,
        Reflow.CopyRow, Reflow.LineFeeds, Reflow.CopyRows;
      var skip := false;
      if !(!at.placed && cursorAtThisRow) {
        skip := line.IsBlank();
      }
      if skip {
        at', skipped', o' := at, skipped + 1, o;
      } else {
        at', o' := InsertBlankLines(skipped, at, st, o);
        skipped' := 0;
        Reflow.LineFeedsPlaced(o, skipped, st);
        at', o' := CopyOldLine(line, at', cursorAtThisRow, cursorCol, last, st, o');
      }
    }

    lemma OldRowsAreGood()
      requires Valid()
      ensures P.GoodRows(page.history + page.screen, columns) && page.columns == columns && P.Good(page)
      ensures |page.history| == activeTranscriptRows && |page.screen| == screenRows
    {
      hide WellFormed;
    }

    /** The page agrees with the fields. */
    lemma Numbers()
      requires Valid()
      ensures P.Good(page) && page.columns == columns && page.first == screenFirstRow
      ensures |page.screen| == screenRows && |page.history| == activeTranscriptRows && P.Total(page) == totalRows
    {
      hide P.Good;
    }

    /** Where the old line for an external row number was, and what it held. */
    twostate lemma OldLine(externalRow: int)
      requires old(Valid()) && 0 <= externalRow + old(activeTranscriptRows) && externalRow < old(screenRows)
      ensures var first, total := old(screenFirstRow), old(totalRows);
        var n := if first + externalRow < 0 then total + (first + externalRow) else (first + externalRow) % total;
        && total > 0 && 0 <= n < old(lines.Length)
        && old(lines[n] != null && lines[n].Valid() && lines[n].columns == columns)
        && old(lines[n] in Repr && lines[n].text in Repr && lines[n].style in Repr)
        && old(lines[n].Value()) == old(page.history + page.screen)[externalRow + old(activeTranscriptRows)]
    {
      hide P.Good, TerminalRow.Valid;
      var first, total := old(screenFirstRow), old(totalRows);
      var k := if externalRow < 0 then total + externalRow else externalRow;
      assert old(Holds(k));
      assert old(lines[Ring.Slot(screenFirstRow, k, totalRows)] == ring[k]);
      if externalRow < 0 {
        Ring.SlotOfSmall(first, total);
        if first + externalRow >= 0 {
          Ring.SlotOfSmall(first + externalRow, total);
        }
      } else {
        Ring.SlotIsMod(first, k, total);
      }
    }

    /** Replaces all lines by new blank ones. */
    method StartOver(newColumns: nat, newRows: nat, newTotalRows: nat, st: Style)
      requires 2 <= newColumns && 0 < newRows <= newTotalRows
      modifies this
      ensures Valid() && fresh(Repr - {this}) && page == Reflow.Fresh(newColumns, newRows, newTotalRows, st).page
    {
      hide WellFormed, TerminalRow.Valid, BlankRow, Ring.Slot, Reflow.Fresh, P.Good;
      ForgetLines(newColumns, newRows, newTotalRows);
      AllocateLines(newTotalRows, st);
      page := Reflow.Fresh(newColumns, newRows, newTotalRows, st).page;
      FreshShows(st);
    }

    method ForgetLines(newColumns: nat, newRows: nat, newTotalRows: nat)
      requires 2 <= newColumns && 0 < newRows <= newTotalRows
      modifies this
      ensures Linked() && Disjoint() && Repr == {this, lines} && fresh(lines) && ring == seq(newTotalRows, _ => null)
      ensures totalRows == newTotalRows && screenRows == newRows && columns == newColumns
      ensures activeTranscriptRows == 0 && screenFirstRow == 0
    {
      hide WellFormed, TerminalRow.Valid, Ring.Slot;
      lines := new TerminalRow?[newTotalRows](_ => null);
      totalRows, screenRows, columns := newTotalRows, newRows, newColumns;
      activeTranscriptRows, screenFirstRow := 0, 0;
      ring := seq(newTotalRows, _ => null);
      Repr := {this, lines};
    }

    lemma FreshShows(st: Style)
      requires Linked() && Disjoint() && activeTranscriptRows == 0 && screenFirstRow == 0
      requires forall k :: 0 <= k < totalRows ==> ring[k] != null && ring[k].Value() == BlankRow(columns, st, false)
      requires page == Reflow.Fresh(columns, screenRows, totalRows, st).page
      ensures Shows()
    {
      hide WellFormed, TerminalRow.Valid, BlankRow, P.Good;
      forall k | 0 <= k < |ring| ensures Holds(k) {
      }
    }

    /** Goes on to the next output row, scrolling at the bottom of the screen. */
    method NextRow(at: Reflow.Caret, follow: bool, st: Style, ghost o: Reflow.Output)
      returns (at': Reflow.Caret, ghost o': Reflow.Output)
      requires Valid() && Tracks(o, at)
      modifies Repr
      ensures Valid() && fresh(Repr - old(Repr)) && Tracks(o', at') && o' == Reflow.LineFeed(o, st, follow)
    {
      hide WellFormed, TerminalRow.Valid, P.Good, P.SlotOf, Linked, Disjoint, P.ScrollDownOneLine;
      o' := Reflow.LineFeed(o, st, follow);
      if at.row == screenRows - 1 {
        var cursorRow := if follow && at.placed then at.cursorRow - 1 else at.cursorRow;
        ScrollDownOneLine(0, screenRows, st);
        at' := at.(col := 0, cursorRow := cursorRow);
      } else {
        at' := at.(row := at.row + 1, col := 0);
      }
    }

    method InsertBlankLines(n: nat, at: Reflow.Caret, st: Style, ghost o: Reflow.Output)
      returns (at': Reflow.Caret, ghost o': Reflow.Output)
      requires Valid() && Tracks(o, at)
      modifies Repr
      ensures Valid() && fresh(Repr - old(Repr)) && Tracks(o', at') && o' == Reflow.LineFeeds(o, n, st)
    {
      hide WellFormed, TerminalRow.Valid, P.Good, P.SlotOf, Linked, Disjoint, Shows, Reflow.LineFeed;
      at', o' := at, o;
      var i := 0;
      while i < n
        invariant i <= n && Valid() && fresh(Repr - old(Repr)) && Tracks(o', at')
        invariant Reflow.LineFeeds(o', n - i, st) == Reflow.LineFeeds(o, n, st)
      {
        at', o' := NextRow(at', false, st, o');
        i := i + 1;
      }
    }

    /** Wraps the output line when `w` columns do not fit. */
    method WrapFor(at: Reflow.Caret, w: nat, st: Style, ghost o: Reflow.Output)
      returns (at': Reflow.Caret, ghost o': Reflow.Output)
      requires Valid() && Tracks(o, at) && w <= 2
      modifies Repr
      ensures Valid() && fresh(Repr - old(Repr)) && Tracks(o', at') && o' == Reflow.WrapFor(o, w, st)
    {
      hide WellFormed, TerminalRow.Valid, P.Good, P.SlotOf, Linked, Disjoint, Reflow.LineFeed;
      at', o' := at, o;
      if at.col + w > columns {
        SetLineWrap(at.row, true);
        at', o' := NextRow(at, true, st, o.(page := page));
      }
    }

    /** Wraps the output line if needed and writes a code point. */
    method PutPoint(at: Reflow.Caret, c: CodePoint, sty: Style, st: Style, ghost o: Reflow.Output)
      returns (at': Reflow.Caret, ghost o': Reflow.Output)
      requires Valid() && Tracks(o, at)
      modifies Repr
      ensures Valid() && fresh(Repr - old(Repr)) && Tracks(o', at') && o' == Reflow.PutPoint(o, c, sty, st)
    {
      hide WellFormed, TerminalRow.Valid, P.Good, P.SlotOf, Disjoint, Reflow.LineFeed, P.SetChar, Reflow.WrapFor,
        Holds, Ring.Slot;
      var displayWidth := ComputeWidth(c);
      at', o' := WrapFor(at, displayWidth, st, o);
      var offsetDueToCombiningChar := if displayWidth <= 0 && at'.col > 0 then 1 else 0;
      SetChar(at'.col - offsetDueToCombiningChar, at'.row, c, sty);
      o' := Reflow.Emit(o', c, sty);
      at' := at'.(col := at'.col + displayWidth);
    }

    /** The index after the last code unit that is not a space. */
    static method LastNonSpaceIndex(line: TerminalRow) returns (index: nat)
      requires line.Valid()
      ensures index <= line.spaceUsed <= line.text.Length
      ensures line.text[..index] == Units(Reflow.TrimRight(Points(line.grid)))
    {
      hide WellFormed, Points, Units, Reflow.TrimRight;
      ghost var t, u := Units(Reflow.TrimRight(Points(line.grid))), line.text[..line.spaceUsed];
      Reflow.TrimmedUnits(Points(line.grid));
      assert u == Text(line.grid);
      index := 0;
      var i := 0;
      while i < line.spaceUsed
        invariant index <= i <= line.spaceUsed
        invariant forall j :: index <= j < i ==> u[j] == SPACE
        invariant index > 0 ==> u[index - 1] != SPACE
      {
        assert line.text[i] == u[i];
        if line.text[i] != SPACE {
          index := i + 1;
        }
        i := i + 1;
      }
      assert index == |t|;
      assert line.text[..index] == u[..index];
    }

    /** Copies one line that is not skipped. */
    method CopyOldLine(line: TerminalRow, at: Reflow.Caret, cursorHere: bool, cursorCol: nat, last: bool, st: Style,
                       ghost o: Reflow.Output)
      returns (at': Reflow.Caret, ghost o': Reflow.Output)
      requires Valid() && Tracks(o, at) && line.Valid() && Outside(line) && (cursorHere ==> !at.placed)
      modifies Repr
      ensures Valid() && fresh(Repr - old(Repr)) && Tracks(o', at')
      ensures P.GoodRow(old(line.Value()), line.columns)
      ensures o' == Reflow.CopyRow(o, old(line.Value()), if cursorHere then Some(cursorCol) else None, last,
          line.columns, st)
    {
      hide WellFormed, P.Good, P.SlotOf, Linked, Disjoint, Shows, Reflow.LineFeed, Reflow.CopyPoints, Reflow.TrimRight,
        Points, Units;
      ghost var cursor := if cursorHere then Some(cursorCol) else None;
      var lastNonSpaceIndex := line.spaceUsed;
      if !(cursorHere || line.lineWrap) {
        lastNonSpaceIndex := LastNonSpaceIndex(line);
      }
      Reflow.TakenFits(line.Value(), cursor, line.columns);
      assert line.text[..lastNonSpaceIndex] == Units(Reflow.Taken(line.Value(), cursor));
      ghost var taken := Reflow.Taken(line.Value(), cursor);
      at', o' := CopyText(line, lastNonSpaceIndex, at, cursorHere, cursorCol, st, o, taken);
      if !last && !line.lineWrap {
        at', o' := NextRow(at', true, st, o');
      }
    }

    /** The loop over the code units of an old line. */
    method CopyText(line: TerminalRow, end: nat, at: Reflow.Caret, cursorHere: bool, cursorCol: nat, st: Style,
                    ghost o: Reflow.Output, ghost s: seq<CodePoint>)
      returns (at': Reflow.Caret, ghost o': Reflow.Output)
      requires Valid() && Tracks(o, at) && line.Valid() && Outside(line) && (cursorHere ==> !at.placed)
      requires end <= line.text.Length && line.text[..end] == Units(s) && RowCopy.TotalWidth(s) <= line.style.Length
      modifies Repr
      ensures Valid() && fresh(Repr - old(Repr)) && Tracks(o', at')
      ensures o' == Reflow.CopyPoints(o, s, old(line.style[..]),
          Reflow.Source(0, 0, if cursorHere then Some(cursorCol) else None), st)
    {
      hide WellFormed, TerminalRow.Valid, P.Good, P.SlotOf, Linked, Disjoint, Shows, Reflow.LineFeed, Reflow.PutPoint,
        Reflow.CopyPoints, Points, Units, Reflow.Ready;
      ghost var style := line.style[..];
      var from := Reflow.Source(0, 0, if cursorHere then Some(cursorCol) else None);
      ghost var left, result := s, Reflow.CopyPoints(o, s, style, from, st);
      at', o' := at, o;
      var i := 0;
      while i < end
        invariant i <= end && line.text[i..end] == Units(left)
        invariant Valid() && fresh(Repr - old(Repr)) && Tracks(o', at') && (cursorHere ==> !at'.placed)
        invariant from.cursor == if cursorHere then Some(cursorCol) else None
        invariant from.col + RowCopy.TotalWidth(left) <= |style|
        invariant Reflow.CopyPoints(o', left, style, from, st) == result
      {
        var c;
        NoUnits();
        c, i := TerminalRow.DecodeAt(line.text, i, end, left);
        Reflow.CopyUnfold(o', left, style, from, st);
        left := left[1..];
        at', o', from := CopyPoint(line, at', c, from, st, o');
        if cursorHere && at'.placed {
          assert o' == result;
          return;
        }
      }
      UnitsLength(left);
      Reflow.NothingLeft(o', style, from, st);
    }

    /** One turn of the loop: writes a code point, and places the cursor if it was there. */
    method CopyPoint(line: TerminalRow, at: Reflow.Caret, c: CodePoint, from: Reflow.Source, st: Style,
        ghost o: Reflow.Output)
      returns (at': Reflow.Caret, ghost o': Reflow.Output, from': Reflow.Source)
      requires Valid() && Tracks(o, at) && line.Valid() && Outside(line)
      requires Width(c) > 0 ==> from.col < line.style.Length
      modifies Repr
      ensures Valid() && fresh(Repr - old(Repr)) && Tracks(o', at')
      ensures var src := Reflow.Restyle(from, c, old(line.style[..]));
        && o' == Reflow.Step(o, c, src, st) && from' == src.(col := src.col + Width(c))
        && (at'.placed <==> at.placed || Reflow.Here(src, c))
    {
      hide WellFormed, TerminalRow.Valid, P.Good, P.SlotOf, Linked, Disjoint, Shows, Reflow.LineFeed, Reflow.PutPoint;
      var displayWidth := ComputeWidth(c);
      from' := from;
      if displayWidth > 0 {
        // A mark has no column of its own in the old row.
        from' := from'.(sty := line.GetStyle(from'.col));
      }
      Reflow.StepPlaced(o, c, from', st);
      ghost var src := from';
      at', o' := PutPoint(at, c, from'.sty, st, o);
      if displayWidth > 0 {
        if from'.cursor == Some(from'.col) {
          at' := at'.(placed := true, cursorRow := at'.row, cursorCol := at'.col - displayWidth);
        }
        from' := from'.(col := from'.col + displayWidth);
      }
      o' := Reflow.Step(o, c, src, st);
    }

    constructor (columns: nat, totalRows: nat, screenRows: nat)
      requires 2 <= columns && 0 < screenRows <= totalRows
      ensures Valid() && fresh(Repr)
      ensures page == P.Initial(columns, totalRows, screenRows)
    {
      this.columns := columns;
      this.totalRows := totalRows;
      this.screenRows := screenRows;
      activeTranscriptRows, screenFirstRow := 0, 0;
      lines := new TerminalRow?[totalRows](_ => null);
      ring := seq(totalRows, _ => null);
      page := P.Page(columns, [], [], seq(totalRows, _ => None), 0);
      Repr := {this};
      new;
      Repr := Repr + {lines};
      hide WellFormed, TerminalRow.Valid, BlankRow, Ring.Slot, P.Allocated, P.Initial, P.BlockSet, P.Good, P.SlotOf;
      BlankScreen();
    }

    /** Writes a space to every cell of the screen, for which the rows are allocated. */
    method BlankScreen()
      requires Linked() && Disjoint() && activeTranscriptRows == 0 && screenFirstRow == 0
      requires ring == seq(totalRows, _ => null)
      modifies Repr
      ensures Valid() && fresh(Repr - old(Repr))
      ensures page == P.Initial(old(columns), old(totalRows), old(screenRows))
    {
      hide WellFormed, TerminalRow.Valid, BlankRow, Ring.Slot, P.Allocated, P.Initial, P.BlockSet, P.Good, P.SlotOf;
      LatinIsNarrow(SPACE);
      P.InitialIsBlanked(columns, totalRows, screenRows);
      AllocateScreen();
      BlockSet(0, 0, columns, screenRows, SPACE, TextStyle.NORMAL);
    }

    /** Gives the first `n` lines an object each. */
    method AllocateLines(n: nat, st: Style)
      requires Linked() && Disjoint() && activeTranscriptRows == 0 && screenFirstRow == 0 && n <= totalRows
      requires ring == seq(totalRows, _ => null)
      modifies lines, this`ring, this`Repr
      ensures Linked() && Disjoint() && fresh(Repr - old(Repr))
      ensures forall k :: 0 <= k < n ==> ring[k] != null && ring[k].Value() == BlankRow(columns, st, false)
      ensures forall k :: n <= k < totalRows ==> ring[k] == null
    {
      hide WellFormed, TerminalRow.Valid, BlankRow, Ring.Slot;
      var i := 0;
      while i < n
        invariant i <= n && Linked() && Disjoint() && fresh(Repr - old(Repr))
        invariant forall k :: 0 <= k < i ==> ring[k] != null && ring[k].Value() == BlankRow(columns, st, false)
        invariant forall k :: i <= k < totalRows ==> ring[k] == null
      {
        Ring.SlotFromZero(i, totalRows);
        NewLine(i, i, st);
        i := i + 1;
      }
    }

    /** Gives every screen row an object, as writing its first cell does. */
    method AllocateScreen()
      requires Linked() && Disjoint() && activeTranscriptRows == 0 && screenFirstRow == 0
      requires ring == seq(totalRows, _ => null)
      modifies Repr
      ensures Valid() && fresh(Repr - old(Repr)) && SameNumbers()
      ensures page == P.Allocated(columns, totalRows, screenRows)
    {
      hide WellFormed, TerminalRow.Valid, BlankRow, Ring.Slot, P.Allocated;
      AllocateLines(screenRows, 0);
      page := P.Allocated(columns, totalRows, screenRows);
      AllocatedShows();
    }

    lemma AllocatedShows()
      requires Linked() && Disjoint() && activeTranscriptRows == 0 && screenFirstRow == 0
      requires forall k :: 0 <= k < screenRows ==> ring[k] != null && ring[k].Value() == BlankRow(columns, 0, false)
      requires forall k :: screenRows <= k < totalRows ==> ring[k] == null
      requires page == P.Allocated(columns, totalRows, screenRows)
      ensures Shows()
    {
      hide WellFormed, TerminalRow.Valid, BlankRow;
      forall k | 0 <= k < |ring| ensures Holds(k) {
      }
    }
  }
}
