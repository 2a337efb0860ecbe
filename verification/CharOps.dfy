/** Erasing, inserting and deleting characters on the cells of one line, and exactly when insertion and deletion are
    those of a list. */
module CharOps {
  import opened WcWidth
  import opened Utf16
  import opened Row
  import RowCopy
  import opened CellCopy

  /** Columns [from, to) of a row, which may be none. */
  datatype Range = Range(from: nat, to: nat)

  /** What erasing does to column `k`: the erased columns become spaces, and so does the other half of a wide character
      that is cut at either end. */
  function Erased(g: Grid, r: Range, k: nat): Slot
    requires k < |g| && r.to <= |g|
  {
    if r.from >= r.to then g[k]
    else if r.from <= k < r.to || (k + 1 == r.from && g[r.from].Rest?) || (k == r.to && g[k].Rest?) then BLANK
    else g[k]
  }

  function Blanked(g: Grid, r: Range): (g': Grid)
    requires r.to <= |g|
    ensures |g'| == |g| && forall k :: 0 <= k < |g| ==> g'[k] == Erased(g, r, k)
  {
    seq(|g|, k requires 0 <= k < |g| => Erased(g, r, k))
  }

  /** Columns [from, from + w) copied to column `to`. */
  function Shifted(g: Grid, from: nat, w: nat, to: nat): (g': Grid)
    requires from + w <= |g| && to + w <= |g|
    ensures |g'| == |g| && forall k :: 0 <= k < |g| ==> g'[k] == Written(g, CellsRead(g, from, from + w), to, k)
  {
    seq(|g|, k requires 0 <= k < |g| => Written(g, CellsRead(g, from, from + w), to, k))
  }

  /** What ICH and DCH do to the line of the cursor. */
  function Inserted(g: Grid, col: nat, k: nat): (g': Grid)
    requires col + k <= |g|
    ensures |g'| == |g|
  {
    Blanked(Shifted(g, col, |g| - col - k, col + k), Range(col, col + k))
  }

  function Deleted(g: Grid, col: nat, k: nat): (g': Grid)
    requires col + k <= |g|
    ensures |g'| == |g|
  {
    Blanked(Shifted(g, col + k, |g| - col - k, col), Range(|g| - k, |g|))
  }

  /** `k` spaces go in front of column `col`, and the last `k` columns go away. */
  function Insert(g: Grid, col: nat, k: nat): (g': Grid)
    requires col + k <= |g|
    ensures |g'| == |g|
  {
    g[..col] + Blanks(k) + g[col..|g| - k]
  }

  /** `k` columns from `col` on go away, and `k` spaces come in at the end. */
  function Delete(g: Grid, col: nat, k: nat): (g': Grid)
    requires col + k <= |g|
    ensures |g'| == |g|
  {
    g[..col] + g[col + k..] + Blanks(k)
  }

  // ----- When they are what they should be -----

  /** No wide character is cut, at the cursor or at the end of the line, and none that moves takes over marks. */
  predicate CanInsert(g: Grid, col: nat, k: nat)
    requires col + k <= |g| && 0 < k
  {
    && g[col].Cell? && g[|g| - k].Cell?
    && forall j :: col <= j < |g| - k && WideAt(g, j) ==> TakenOver(g, j + k) == []
  }

  predicate CanDelete(g: Grid, col: nat, k: nat)
    requires col + k <= |g| && 0 < k
  {
    && g[col].Cell? && (col + k < |g| ==> g[col + k].Cell?)
    && forall j :: col + k <= j < |g| && WideAt(g, j) ==> TakenOver(g, j - k) == []
  }

  lemma StopAtCell(g: Grid, k: nat)
    requires WellFormed(g) && k <= |g|
    ensures RowCopy.Stop(g, k) == if k < |g| && g[k].Rest? then k - 1 else k
  {
    if k < |g| {
      Neighbours(g, k);
    }
  }

  /** The cells that are read when none is cut. */
  lemma WholeCellsRead(g: Grid, x1: nat, x2: nat)
    requires WellFormed(g) && x1 <= x2 <= |g| && (x1 < |g| ==> g[x1].Cell?) && (x2 < |g| ==> g[x2].Cell?)
    ensures CellsRead(g, x1, x2) == g[x1..x2]
  {
    StopAtCell(g, x2);
    RowCopy.MiddleOfWide(g, x1);
  }

  /** The columns of an insertion, one by one, when no wide character is cut. */
  lemma InsertedAt(g: Grid, col: nat, k: nat, j: nat)
    requires WellFormed(g) && col + k <= |g| && 0 < k && g[col].Cell? && g[|g| - k].Cell? && j < |g|
    ensures Inserted(g, col, k)[j] ==
      if j < col then g[j]
      else if j < col + k then BLANK
      else if WideAt(g, j - k) then g[j - k].(marks := TakenOver(g, j) + g[j - k].marks)
      else g[j - k]
  {
    hide WellFormed, TakenOver;
    var n := |g|;
    WholeCellsRead(g, col, n - k);
    var c := g[col..n - k];
    if col + k <= j {
      CellOfPart(g, col, n - k, j - k);
    }
    if col + k < n {
      CellOfPart(g, col, n - k, col);
    }
  }

  lemma CellOfPart(g: Grid, a: nat, b: nat, j: nat)
    requires WellFormed(g) && a <= j < b <= |g| && (b < |g| ==> g[b].Cell?)
    ensures g[a..b][j - a] == g[j] && (WideAt(g[a..b], j - a) <==> WideAt(g, j))
  {
  }

  /** A wide character that the cursor splits is lost. */
  lemma InsertSplits(g: Grid, col: nat, k: nat)
    requires WellFormed(g) && col + k <= |g| && 0 < k && g[col].Rest?
    ensures 0 < col && WideAt(g, col - 1) && Inserted(g, col, k)[col - 1] == BLANK
  {
    Neighbours(g, col);
    if col + 1 < |g| {
      Neighbours(g, col + 1);
    }
    hide WellFormed, CellsRead;
  }

  lemma NoWideAtEnd(g: Grid)
    requires WellFormed(g)
    ensures !WideAt(g, |g| - 1)
  {
    if g != [] {
      Neighbours(g, |g| - 1);
    }
  }

  /** ICH inserts spaces in front of the cursor exactly when `CanInsert` holds. */
  lemma InsertExactly(g: Grid, col: nat, k: nat)
    requires WellFormed(g) && col + k <= |g| && 0 < k && WellFormed(Inserted(g, col, k))
    ensures Inserted(g, col, k) == Insert(g, col, k) <==> CanInsert(g, col, k)
  {
    LatinIsNarrow(SPACE);
    hide WellFormed, TakenOver, Inserted;
    var n, r, wanted := |g|, Inserted(g, col, k), Insert(g, col, k);
    if g[col].Rest? {
      InsertSplits(g, col, k);
      assert wanted[col - 1] == g[col - 1];
    } else if g[n - k].Rest? {
      Neighbours(g, n - k);
      NoWideAtEnd(r);
      assert wanted[n - 1] == g[n - k - 1];
    } else {
      InsertWhole(g, col, k);
    }
  }

  lemma InsertWhole(g: Grid, col: nat, k: nat)
    requires WellFormed(g) && col + k <= |g| && 0 < k && g[col].Cell? && g[|g| - k].Cell?
    ensures Inserted(g, col, k) == Insert(g, col, k) <==> CanInsert(g, col, k)
  {
    hide WellFormed, TakenOver, Inserted;
    var r, wanted := Inserted(g, col, k), Insert(g, col, k);
    forall j | 0 <= j < |g| && (col + k <= j && WideAt(g, j - k) ==> TakenOver(g, j) == [])
      ensures r[j] == wanted[j]
    {
      InsertedAt(g, col, k, j);
      if col + k <= j && WideAt(g, j - k) {
        NothingTakenOver(TakenOver(g, j), g[j - k].marks);
      }
    }
    forall j | col <= j < |g| - k && WideAt(g, j) && r == wanted
      ensures TakenOver(g, j + k) == []
    {
      InsertedAt(g, col, k, j + k);
      assert wanted[j + k] == g[j];
      NothingTakenOver(TakenOver(g, j + k), g[j].marks);
    }
    if CanInsert(g, col, k) {
      forall j | col + k <= j < |g| && WideAt(g, j - k) ensures TakenOver(g, j) == [] {
        assert j == (j - k) + k;
      }
      assert r == wanted;
    }
  }

  // ----- Deleting -----

  lemma DeletedAt(g: Grid, col: nat, k: nat, j: nat)
    requires WellFormed(g) && col + k <= |g| && 0 < k && g[col].Cell? && (col + k < |g| ==> g[col + k].Cell?) && j < |g|
    ensures Deleted(g, col, k)[j] ==
      if j < col then g[j]
      else if |g| - k <= j then BLANK
      else if WideAt(g, j + k) then g[j + k].(marks := TakenOver(g, j) + g[j + k].marks)
      else g[j + k]
  {
    hide WellFormed, TakenOver;
    var n := |g|;
    WholeCellsRead(g, col + k, n);
    if col <= j < n - k {
      CellOfPart(g, col + k, n, j + k);
    }
  }

  lemma DeleteSplits(g: Grid, col: nat, k: nat)
    requires WellFormed(g) && col + k <= |g| && 0 < k && g[col].Rest?
    ensures 0 < col && WideAt(g, col - 1) && Deleted(g, col, k)[col - 1] == BLANK
  {
    Neighbours(g, col);
    StopAtCell(g, |g|);
    hide WellFormed;
  }

  /** A wide character that loses its first column is read as a space. */
  lemma DeleteReadsSpace(g: Grid, col: nat, k: nat)
    requires WellFormed(g) && col + k < |g| && 0 < k && g[col + k].Rest?
    ensures Deleted(g, col, k)[col].Cell?
  {
    RowCopy.MiddleOfWide(g, col + k);
    StopAtCell(g, |g|);
    hide WellFormed;
  }

  /** DCH deletes the characters from the cursor on exactly when `CanDelete` holds. */
  lemma DeleteExactly(g: Grid, col: nat, k: nat)
    requires WellFormed(g) && col + k <= |g| && 0 < k
    ensures Deleted(g, col, k) == Delete(g, col, k) <==> CanDelete(g, col, k)
  {
    LatinIsNarrow(SPACE);
    hide WellFormed, TakenOver, Deleted;
    var r, wanted := Deleted(g, col, k), Delete(g, col, k);
    if g[col].Rest? {
      DeleteSplits(g, col, k);
      assert wanted[col - 1] == g[col - 1];
    } else if col + k < |g| && g[col + k].Rest? {
      DeleteReadsSpace(g, col, k);
      assert wanted[col] == g[col + k];
    } else {
      DeleteWhole(g, col, k);
    }
  }

  lemma DeleteWhole(g: Grid, col: nat, k: nat)
    requires WellFormed(g) && col + k <= |g| && 0 < k && g[col].Cell? && (col + k < |g| ==> g[col + k].Cell?)
    ensures Deleted(g, col, k) == Delete(g, col, k) <==> CanDelete(g, col, k)
  {
    hide WellFormed, TakenOver, Deleted;
    var r, wanted := Deleted(g, col, k), Delete(g, col, k);
    forall j | 0 <= j < |g| && (col <= j < |g| - k && WideAt(g, j + k) ==> TakenOver(g, j) == [])
      ensures r[j] == wanted[j]
    {
      DeletedAt(g, col, k, j);
      if col <= j < |g| - k && WideAt(g, j + k) {
        NothingTakenOver(TakenOver(g, j), g[j + k].marks);
      }
    }
    forall j | col + k <= j < |g| && WideAt(g, j) && r == wanted
      ensures TakenOver(g, j - k) == []
    {
      DeletedAt(g, col, k, j - k);
      assert wanted[j - k] == g[j];
      NothingTakenOver(TakenOver(g, j - k), g[j].marks);
    }
    if CanDelete(g, col, k) {
      forall j | col <= j < |g| - k && WideAt(g, j + k) ensures TakenOver(g, j) == [] {
        assert j == (j + k) - k;
      }
      assert r == wanted;
    }
  }

  // ----- Inserting and deleting again -----

  /** The line with its last `k` columns blank. */
  function WithoutLast(g: Grid, k: nat): (g': Grid)
    requires k <= |g|
    ensures |g'| == |g|
  {
    g[..|g| - k] + Blanks(k)
  }

  /** What the line has to be like: both commands do what they should. */
  predicate CanReturn(g: Grid, col: nat, k: nat)
    requires col + k <= |g| && 0 < k
  {
    CanInsert(g, col, k) && CanDelete(Insert(g, col, k), col, k)
  }

  lemma DeletedLeft(g: Grid, col: nat, k: nat, j: nat)
    requires WellFormed(g) && col + k <= |g| && 0 < k && j < col
    ensures Deleted(g, col, k)[j] == g[j] || Deleted(g, col, k)[j] == BLANK
  {
    hide WellFormed, CellsRead;
  }

  lemma DeleteAfterInsert(g: Grid, col: nat, k: nat)
    requires col + k <= |g|
    ensures Delete(Insert(g, col, k), col, k) == WithoutLast(g, k)
  {
    var h := Insert(g, col, k);
    assert h[..col] == g[..col] && h[col + k..] == g[col..|g| - k];
    assert g[..col] + g[col..|g| - k] == g[..|g| - k];
  }

  /** A wide character on its way right and left. */
  lemma WideReturns(g: Grid, col: nat, k: nat, j: nat)
    requires WellFormed(g) && col + k <= |g| && 0 < k && WellFormed(Inserted(g, col, k))
    requires g[col].Cell? && g[|g| - k].Cell? && col <= j < |g| - k && WideAt(g, j)
    ensures Deleted(Inserted(g, col, k), col, k)[j] == g[j] <==>
      TakenOver(g, j + k) == [] && TakenOver(Inserted(g, col, k), j) == []
  {
    hide WellFormed, TakenOver, Inserted, Deleted;
    var g1 := Inserted(g, col, k);
    InsertedAt(g, col, k, j + k);
    InsertedAt(g, col, k, col);
    InsertedAt(g, col, k, col + k);
    DeletedAt(g1, col, k, j);
    var a, b, m := TakenOver(g1, j), TakenOver(g, j + k), g[j].marks;
    NothingTakenOver(a + b, m);
    assert a + (b + m) == (a + b) + m;
    assert |a + b| == |a| + |b|;
  }

  /** What restoring the line implies. */
  lemma OnlyIfNotCut(g: Grid, col: nat, k: nat)
    requires WellFormed(g) && col + k <= |g| && 0 < k && WellFormed(Inserted(g, col, k))
    requires WellFormed(WithoutLast(g, k)) && Deleted(Inserted(g, col, k), col, k) == WithoutLast(g, k)
    ensures g[col].Cell? && g[|g| - k].Cell?
  {
    LatinIsNarrow(SPACE);
    hide WellFormed, Inserted, Deleted;
    var n, r, g1 := |g|, WithoutLast(g, k), Inserted(g, col, k);
    assert forall j :: 0 <= j < n - k ==> r[j] == g[j];
    Neighbours(g, n - k);
    Neighbours(r, n - k);
    if 0 < col {
      DeletedLeft(g1, col, k, col - 1);
    }
    assert g[col].Rest? ==> 0 < col && WideAt(g, col - 1) && g1[col - 1] == BLANK by {
      if g[col].Rest? {
        InsertSplits(g, col, k);
      }
    }
  }

  /** Characters inserted and then deleted restore the line but for its last columns, exactly when `CanReturn` holds. */
  lemma ReturnExactly(g: Grid, col: nat, k: nat)
    requires WellFormed(g) && col + k <= |g| && 0 < k && WellFormed(Inserted(g, col, k))
    requires WellFormed(Deleted(Inserted(g, col, k), col, k))
    ensures Deleted(Inserted(g, col, k), col, k) == WithoutLast(g, k) <==> CanReturn(g, col, k)
  {
    hide WellFormed, Inserted, Deleted, TakenOver, WithoutLast, Insert, WideAt;
    InsertExactly(g, col, k);
    if CanReturn(g, col, k) {
      DeleteExactly(Insert(g, col, k), col, k);
      DeleteAfterInsert(g, col, k);
    }
    if Deleted(Inserted(g, col, k), col, k) == WithoutLast(g, k) {
      OnlyIfNotCut(g, col, k);
      OnlyIfClean(g, col, k);
    }
  }

  lemma OnlyIfClean(g: Grid, col: nat, k: nat)
    requires WellFormed(g) && col + k <= |g| && 0 < k && WellFormed(Inserted(g, col, k))
    requires g[col].Cell? && g[|g| - k].Cell? && Deleted(Inserted(g, col, k), col, k) == WithoutLast(g, k)
    ensures CanReturn(g, col, k)
  {
    hide WellFormed, Inserted, Deleted, TakenOver;
    var g1, n := Inserted(g, col, k), |g|;
    forall j | col <= j < n - k && WideAt(g, j) ensures TakenOver(g, j + k) == [] && TakenOver(g1, j) == [] {
      WideReturns(g, col, k, j);
      assert WithoutLast(g, k)[j] == g[j];
    }
    InsertExactly(g, col, k);
    assert g1 == Insert(g, col, k);
    assert col + k < n ==> g1[col + k] == g[col];
    forall j | col + k <= j < n && WideAt(g1, j) ensures TakenOver(g1, j - k) == [] {
      assert g1[j] == g[j - k];
    }
  }
}
