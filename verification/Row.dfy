/** Rows as values: a fixed number of cells, and what writing to a cell means.
    This is the simple array of cells that TerminalRow's packed text is proved to agree with. */
module Row {
  import opened WcWidth
  import opened Utf16
  import TextStyle

  type Style = TextStyle.Style

  /** One column: a cell with its combining marks, or the second column of a wide cell. */
  datatype Slot = Cell(base: CodePoint, marks: seq<CodePoint>) | Rest

  const BLANK := Cell(SPACE, [])

  type Grid = seq<Slot>

  predicate AllMarks(s: seq<CodePoint>) {
    forall i :: 0 <= i < |s| ==> Width(s[i]) == 0
  }

  predicate SlotOk(g: Grid, k: nat)
    requires k < |g|
  {
    match g[k]
    case Cell(base, marks) =>
      && Width(base) != 0
      && AllMarks(marks)
      && (Width(base) == 2 <==> k + 1 < |g| && g[k + 1].Rest?)
    case Rest =>
      k > 0 && g[k - 1].Cell?
  }

  predicate WellFormed(g: Grid) {
    forall k :: 0 <= k < |g| ==> SlotOk(g, k)
  }

  predicate WideAt(g: Grid, k: int) {
    0 <= k < |g| && g[k].Cell? && Width(g[k].base) == 2
  }

  /** The code points of a row in reading order. */
  function SlotPoints(s: Slot): seq<CodePoint> {
    if s.Cell? then [s.base] + s.marks else []
  }

  function Points(g: Grid): seq<CodePoint> {
    if g == [] then [] else SlotPoints(g[0]) + Points(g[1..])
  }

  predicate IsBlankText(s: seq<CodePoint>) {
    forall i :: 0 <= i < |s| ==> s[i] == SPACE
  }

  /** The UTF-16 text of a row. */
  function Text(g: Grid): seq<CodeUnit> {
    Units(Points(g))
  }

  /** The column where the cell covering column `k` starts. */
  function Head(g: Grid, k: nat): (h: nat)
    requires k < |g|
    ensures h <= k
  {
    if g[k].Rest? && k > 0 then k - 1 else k
  }

  // ----- Writing a cell -----

  /** Frees column `k` of a wide cell whose first column is to its left. */
  function SplitLeft(g: Grid, k: nat): Grid
    requires k < |g|
  {
    if g[k].Rest? && k > 0 then g[k - 1 := BLANK][k := BLANK] else g
  }

  /** Frees column `k` of a wide cell that starts there. */
  function SplitRight(g: Grid, k: nat): Grid
    requires k < |g|
  {
    if WideAt(g, k) && k + 1 < |g| then g[k := BLANK][k + 1 := BLANK] else g
  }

  /** A wide cell keeps the marks of the narrow cell whose column it takes, except at the right edge. */
  function InheritedMarks(g: Grid, k: nat): seq<CodePoint>
    requires k + 1 < |g|
  {
    if k + 2 < |g| && g[k + 1].Cell? then g[k + 1].marks else []
  }

  /** Writing code point `c` at column `k`. */
  function Place(g: Grid, k: nat, c: CodePoint): Grid
    requires k + Width(c) <= |g| && k < |g|
  {
    match Width(c)
    case 0 =>
      var h := Head(g, k);
      if g[h].Cell? then g[h := g[h].(marks := g[h].marks + [c])] else g
    case 1 =>
      SplitRight(SplitLeft(g, k), k)[k := Cell(c, [])]
    case _ =>
      var g' := SplitRight(SplitLeft(g, k), k + 1);
      g'[k := Cell(c, InheritedMarks(g', k))][k + 1 := Rest]
  }

  /** Writing a cell also styles the columns that had to be freed for it. */
  function PlaceStyle(g: Grid, style: seq<Style>, k: nat, c: CodePoint, st: Style): (r: seq<Style>)
    requires k + Width(c) <= |g| == |style| && k < |g|
    ensures |r| == |style|
  {
    var s := style[k := st];
    var s := if Width(c) != 0 && k > 0 && g[k].Rest? then s[k - 1 := st] else s;
    if Width(c) == 2 && WideAt(g, k + 1) then s[k + 1 := st] else s
  }

  // ----- Lemmas about rows -----

  lemma {:induction false} PointsConcat(g: Grid, h: Grid)
    ensures Points(g + h) == Points(g) + Points(h)
  {
    if g == [] {
      assert g + h == h;
    } else {
      var t, p, q := g[1..], SlotPoints(g[0]), Points(h);
      calc {
        Points(g + h);
        { assert (g + h)[1..] == t + h && (g + h)[0] == g[0]; }
        p + Points(t + h);
        { PointsConcat(t, h); }
        p + (Points(t) + q);
        (p + Points(t)) + q;
      }
    }
  }

  lemma TextConcat(g: Grid, h: Grid)
    ensures Text(g + h) == Text(g) + Text(h)
  {
    PointsConcat(g, h);
    UnitsConcat(Points(g), Points(h));
  }

  lemma TextSplit(g: Grid, k: nat)
    requires k <= |g|
    ensures Text(g) == Text(g[..k]) + Text(g[k..])
    ensures Points(g) == Points(g[..k]) + Points(g[k..])
  {
    assert g == g[..k] + g[k..];
    TextConcat(g[..k], g[k..]);
    PointsConcat(g[..k], g[k..]);
  }

  lemma PointsUnfold(g: Grid, k: nat)
    requires k < |g|
    ensures Points(g[k..]) == SlotPoints(g[k]) + Points(g[k + 1..])
  {
    assert g[k..][1..] == g[k + 1..];
  }

  /** The cell at column `k` and everything to its right, as code points. */
  lemma PointsFrom(g: Grid, k: nat)
    requires k < |g| && WellFormed(g) && g[k].Cell?
    ensures k + Width(g[k].base) <= |g|
    ensures Points(g[k..]) == [g[k].base] + g[k].marks + Points(g[k + Width(g[k].base)..])
  {
    hide Points;
    assert SlotOk(g, k);
    PointsUnfold(g, k);
    if Width(g[k].base) == 2 {
      PointsUnfold(g, k + 1);
    }
  }

  lemma NextIsMark(marks: seq<CodePoint>, after: seq<CodePoint>)
    requires marks != []
    ensures marks + after == [marks[0]] + (marks[1..] + after)
  {
  }

  lemma NextIsBase(g: Grid, k: nat)
    requires k < |g| && WellFormed(g) && g[k].Cell?
    ensures k + Width(g[k].base) <= |g|
    ensures k + Width(g[k].base) < |g| ==> g[k + Width(g[k].base)].Cell?
    ensures [] + Points(g[k..]) == [g[k].base] + (g[k].marks + Points(g[k + Width(g[k].base)..]))
  {
    hide Points;
    PointsFrom(g, k);
    var k' := k + Width(g[k].base);
    assert SlotOk(g, k);
    assert k' < |g| ==> SlotOk(g, k');
    ConsAppend(g[k].base, g[k].marks, Points(g[k'..]));
  }

  lemma ConsAppend(c: CodePoint, s: seq<CodePoint>, t: seq<CodePoint>)
    ensures ([c] + s) + t == [] + (([c] + s) + t) == [c] + (s + t)
  {
  }

  lemma MarksOf(g: Grid, k: nat)
    requires k < |g| && WellFormed(g) && g[k].Cell?
    ensures AllMarks(g[k].marks) && Width(g[k].base) != 0
  {
    assert SlotOk(g, k);
  }

  lemma HeadAfter(g: Grid, k: nat)
    requires k < |g| && WellFormed(g) && g[k].Cell? && k + Width(g[k].base) < |g|
    ensures Head(g, k + Width(g[k].base)) == k + Width(g[k].base)
  {
    NextIsBase(g, k);
  }

  /** A cell covers its own column and, when wide, the next one. */
  lemma HeadOfCover(g: Grid, k: nat, column: nat)
    requires k < |g| && WellFormed(g) && g[k].Cell? && k <= column < k + Width(g[k].base)
    ensures column < |g| && Head(g, column) == k
  {
    assert SlotOk(g, k);
  }

  // ----- Replacing the contents of one cell -----

  /** What a cell becomes when `c` is put into it, with the columns next to it as far as they are affected. */
  function NewSlots(g: Grid, k: nat, c: CodePoint): seq<Slot>
    requires k < |g| && g[k].Cell? && k + Width(c) <= |g|
  {
    match Width(c)
    case 0 => [g[k].(marks := g[k].marks + [c])]
    case 1 => if WideAt(g, k) then [Cell(c, []), BLANK] else [Cell(c, [])]
    case _ => [Cell(c, InheritedMarks(g, k)), Rest]
  }

  function PutCell(g: Grid, k: nat, c: CodePoint): Grid
    requires k < |g| && g[k].Cell? && k + Width(c) <= |g|
    requires k + |NewSlots(g, k, c)| <= |g|
  {
    var mid := NewSlots(g, k, c);
    g[..k] + mid + g[k + |mid|..]
  }

  lemma PlaceIsPutCell(g: Grid, k: nat, c: CodePoint)
    requires WellFormed(g) && k < |g| && g[k].Cell? && k + Width(c) <= |g|
    requires Width(c) == 2 ==> !WideAt(g, k + 1)
    ensures k + |NewSlots(g, k, c)| <= |g| && PutCell(g, k, c) == Place(g, k, c)
  {
    assert SlotOk(g, k);
    var mid := NewSlots(g, k, c);
    assert |mid| == 1 ==> g[k := mid[0]] == g[..k] + mid + g[k + 1..];
    assert |mid| == 2 ==> g[k := mid[0]][k + 1 := mid[1]] == g[..k] + mid + g[k + 2..];
    match Width(c)
    case 0 =>
    case 1 =>
      if WideAt(g, k) {
        assert Place(g, k, c) == g[k := BLANK][k + 1 := BLANK][k := Cell(c, [])];
        assert g[k := BLANK][k + 1 := BLANK][k := Cell(c, [])] == g[k := Cell(c, [])][k + 1 := BLANK];
      }
    case _ =>
      assert SplitRight(SplitLeft(g, k), k + 1) == g;
  }

  lemma TextAround(g: Grid, k: nat)
    requires k < |g| && WellFormed(g) && g[k].Cell?
    ensures 0 < Width(g[k].base) && k + Width(g[k].base) <= |g|
    ensures Text(g) == Text(g[..k]) + Units(SlotPoints(g[k])) + Text(g[k + Width(g[k].base)..])
    ensures Text(g[..k + Width(g[k].base)]) == Text(g[..k]) + Units(SlotPoints(g[k]))
  {
    var w := Width(g[k].base);
    assert SlotOk(g, k);
    TextSplit(g, k + w);
    TextSplit(g[..k + w], k);
    assert g[..k + w][..k] == g[..k];
    var mid := g[..k + w][k..];
    assert mid == if w == 2 then [g[k], Rest] else [g[k]];
    TextOfCell(g[k], w);
  }

  lemma TextOfCell(s: Slot, w: int)
    requires s.Cell? && (w == 1 || w == 2)
    ensures Text(if w == 2 then [s, Rest] else [s]) == Units(SlotPoints(s))
  {
    var mid := if w == 2 then [s, Rest] else [s];
    assert mid[1..] == if w == 2 then [Rest] else [];
    if w == 2 {
      assert mid[1..][1..] == [];
    }
    assert Points(mid[1..]) == [];
    assert Points(mid) == SlotPoints(s);
  }

  /** The text of the cell that `c` was put into. */
  lemma TextOfNewSlots(g: Grid, k: nat, c: CodePoint)
    requires k < |g| && g[k].Cell? && k + Width(c) <= |g|
    ensures |NewSlots(g, k, c)| == if Width(c) == 2 || (Width(c) == 1 && WideAt(g, k)) then 2 else 1
    ensures Text(NewSlots(g, k, c)) ==
      match Width(c)
      case 0 => Units(SlotPoints(g[k])) + ToChars(c)
      case 1 => if WideAt(g, k) then ToChars(c) + [SPACE] else ToChars(c)
      case _ => ToChars(c) + Units(InheritedMarks(g, k))
  {
    var mid := NewSlots(g, k, c);
    match Width(c)
    case 0 =>
      TextOfCell(mid[0], 1);
      assert SlotPoints(mid[0]) == SlotPoints(g[k]) + [c];
      UnitsConcat(SlotPoints(g[k]), [c]);
      UnitsSingleton(c);
    case 1 =>
      TextOfCell(Cell(c, []), 1);
      assert SlotPoints(Cell(c, [])) == [c];
      UnitsSingleton(c);
      if WideAt(g, k) {
        assert mid == [Cell(c, [])] + [BLANK];
        TextConcat([Cell(c, [])], [BLANK]);
        TextOfCell(BLANK, 1);
        assert SlotPoints(BLANK) == [SPACE];
        UnitsSingleton(SPACE);
      }
    case _ =>
      TextOfCell(mid[0], 2);
      UnitsConcat([c], InheritedMarks(g, k));
      UnitsSingleton(c);
  }

  lemma TextOfThree(a: Grid, b: Grid, c: Grid)
    ensures Text(a + b + c) == Text(a) + Text(b) + Text(c)
  {
    TextConcat(a + b, c);
    TextConcat(a, b);
  }

  // ----- What every write keeps -----

  /** Rows may be cut wherever a cell starts, and put together again. */
  lemma CutKeeps(g: Grid, k: nat)
    requires WellFormed(g) && k <= |g| && (k < |g| ==> g[k].Cell?)
    ensures WellFormed(g[..k]) && WellFormed(g[k..])
  {
    forall i | 0 <= i < k ensures SlotOk(g[..k], i) {
      assert SlotOk(g, i);
    }
    forall i | 0 <= i < |g| - k ensures SlotOk(g[k..], i) {
      assert SlotOk(g, k + i);
    }
  }

  lemma JoinKeeps(a: Grid, b: Grid)
    requires WellFormed(a) && WellFormed(b)
    ensures WellFormed(a + b)
  {
    var g := a + b;
    assert b != [] ==> SlotOk(b, 0);
    forall i | 0 <= i < |g| ensures SlotOk(g, i) {
      if i < |a| {
        assert SlotOk(a, i);
      } else {
        assert SlotOk(b, i - |a|);
      }
    }
  }

  lemma SpliceKeeps(g: Grid, i: nat, mid: Grid, j: nat)
    requires WellFormed(g) && WellFormed(mid) && i <= j <= |g|
    requires (i < |g| ==> g[i].Cell?) && (j < |g| ==> g[j].Cell?)
    ensures WellFormed(g[..i] + mid + g[j..])
  {
    CutKeeps(g, i);
    CutKeeps(g, j);
    JoinKeeps(g[..i], mid);
    JoinKeeps(g[..i] + mid, g[j..]);
  }

  /** The neighbours of a column in a well-formed row. */
  lemma Neighbours(g: Grid, k: nat)
    requires WellFormed(g) && k < |g|
    ensures g[k].Rest? <==> k > 0 && WideAt(g, k - 1)
    ensures k + 1 < |g| && g[k].Rest? ==> g[k + 1].Cell?
    ensures WideAt(g, k) ==> k + 1 < |g| && g[k + 1].Rest? && (k + 2 < |g| ==> g[k + 2].Cell?)
    ensures g[k].Cell? && !WideAt(g, k) && k + 1 < |g| ==> g[k + 1].Cell?
  {
    assert SlotOk(g, k);
    assert k > 0 ==> SlotOk(g, k - 1);
    assert k + 1 < |g| ==> SlotOk(g, k + 1);
    assert k + 2 < |g| ==> SlotOk(g, k + 2);
  }

  lemma BlanksAreWellFormed()
    ensures WellFormed([BLANK, BLANK]) && Width(SPACE) == 1
  {
    LatinIsNarrow(SPACE);
  }

  lemma SplitLeftKeeps(g: Grid, k: nat)
    requires WellFormed(g) && k < |g|
    ensures WellFormed(SplitLeft(g, k)) && SplitLeft(g, k)[k].Cell?
    ensures g[k].Cell? ==> SplitLeft(g, k) == g
  {
    Neighbours(g, k);
    if g[k].Rest? {
      BlanksAreWellFormed();
      SpliceKeeps(g, k - 1, [BLANK, BLANK], k + 1);
      assert SplitLeft(g, k) == g[..k - 1] + [BLANK, BLANK] + g[k + 1..];
    }
  }

  lemma SplitRightKeeps(g: Grid, k: nat)
    requires WellFormed(g) && k < |g|
    ensures WellFormed(SplitRight(g, k)) && !WideAt(SplitRight(g, k), k)
    ensures g[k].Cell? ==> SplitRight(g, k)[k].Cell?
  {
    Neighbours(g, k);
    BlanksAreWellFormed();
    if WideAt(g, k) {
      SpliceKeeps(g, k, [BLANK, BLANK], k + 2);
      assert SplitRight(g, k) == g[..k] + [BLANK, BLANK] + g[k + 2..];
    }
  }

  lemma MarkKeeps(g: Grid, k: nat, c: CodePoint)
    requires WellFormed(g) && k < |g| && Width(c) == 0
    ensures WellFormed(Place(g, k, c))
  {
    Neighbours(g, k);
    var h := Place(g, k, c);
    forall i | 0 <= i < |h| ensures SlotOk(h, i) {
      assert SlotOk(g, i);
    }
  }

  lemma NarrowKeeps(g: Grid, k: nat, c: CodePoint)
    requires WellFormed(g) && k < |g| && Width(c) == 1
    ensures WellFormed(Place(g, k, c))
  {
    SplitLeftKeeps(g, k);
    var g1 := SplitLeft(g, k);
    SplitRightKeeps(g1, k);
    var g2 := SplitRight(g1, k);
    Neighbours(g2, k);
    SpliceKeeps(g2, k, [Cell(c, [])], k + 1);
    assert Place(g, k, c) == g2[..k] + [Cell(c, [])] + g2[k + 1..];
  }

  lemma WideKeeps(g: Grid, k: nat, c: CodePoint)
    requires WellFormed(g) && k + 1 < |g| && Width(c) == 2
    ensures WellFormed(Place(g, k, c))
  {
    SplitLeftKeeps(g, k);
    var g1 := SplitLeft(g, k);
    SplitRightKeeps(g1, k + 1);
    var g2 := SplitRight(g1, k + 1);
    var mid := [Cell(c, InheritedMarks(g2, k)), Rest];
    Neighbours(g1, k);
    Neighbours(g2, k + 1);
    assert SlotOk(g2, k + 1);
    assert WellFormed(mid);
    SpliceKeeps(g2, k, mid, k + 2);
    assert Place(g, k, c) == g2[..k] + mid + g2[k + 2..];
  }

  /** A write keeps the row well formed. */
  lemma PlaceKeeps(g: Grid, k: nat, c: CodePoint)
    requires WellFormed(g) && k < |g| && k + Width(c) <= |g|
    ensures WellFormed(Place(g, k, c)) && |Place(g, k, c)| == |g|
  {
    match Width(c)
    case 0 => MarkKeeps(g, k, c);
    case 1 => NarrowKeeps(g, k, c);
    case _ => WideKeeps(g, k, c);
  }

  // ----- The text of a row after a write -----

  /** The text before, of, and after the cell at column `k`. */
  function Before(g: Grid, k: nat): seq<CodeUnit>
    requires k <= |g|
  {
    Text(g[..k])
  }

  function After(g: Grid, k: nat): seq<CodeUnit>
    requires k < |g| && WellFormed(g) && g[k].Cell?
  {
    PointsFrom(g, k);
    Text(g[k + Width(g[k].base)..])
  }

  lemma TextOfPlace(g: Grid, k: nat, c: CodePoint)
    requires WellFormed(g) && k < |g| && g[k].Cell? && k + Width(c) <= |g|
    requires Width(c) == 2 ==> !WideAt(g, k + 1)
    ensures k + |NewSlots(g, k, c)| <= |g|
    ensures Text(Place(g, k, c)) == Before(g, k) + Text(NewSlots(g, k, c)) + Text(g[k + |NewSlots(g, k, c)|..])
  {
    PlaceIsPutCell(g, k, c);
    hide Place, NewSlots;
    TextOfThree(g[..k], NewSlots(g, k, c), g[k + |NewSlots(g, k, c)|..]);
  }

  lemma TextOfMark(g: Grid, k: nat, c: CodePoint)
    requires WellFormed(g) && k < |g| && g[k].Cell? && Width(c) == 0
    ensures Text(Place(g, k, c)) == Before(g, k) + (Units(SlotPoints(g[k])) + ToChars(c)) + After(g, k)
  {
    TextOfPlace(g, k, c);
    TextOfNewSlots(g, k, c);
    AfterCell(g, k);
    hide Place, NewSlots, Text, SlotPoints;
    if WideAt(g, k) {
      TextOfRest(g, k + 1);
    }
  }

  lemma AfterCell(g: Grid, k: nat)
    requires k < |g| && WellFormed(g) && g[k].Cell?
    ensures !WideAt(g, k) ==> After(g, k) == Text(g[k + 1..])
    ensures WideAt(g, k) ==> k + 1 < |g| && g[k + 1].Rest? && After(g, k) == Text(g[k + 2..])
  {
    assert SlotOk(g, k);
  }

  lemma TextOfRest(g: Grid, k: nat)
    requires k < |g| && g[k].Rest?
    ensures Text(g[k..]) == Text(g[k + 1..])
  {
    assert g[k..][1..] == g[k + 1..];
    assert Points(g[k..]) == Points(g[k + 1..]);
  }

  /** A code point as wide as the old one. */
  lemma TextOfSameWidth(g: Grid, k: nat, c: CodePoint)
    requires WellFormed(g) && k < |g| && g[k].Cell? && k + Width(c) <= |g| && Width(c) == Width(g[k].base)
    ensures Text(Place(g, k, c)) == Before(g, k) + ToChars(c) + After(g, k)
  {
    Neighbours(g, k);
    AfterCell(g, k);
    assert SlotOk(g, k);
    TextOfPlace(g, k, c);
    var mid := NewSlots(g, k, c);
    assert Text(mid) == ToChars(c) by {
      TextOfNewSlots(g, k, c);
      if Width(c) == 2 {
        assert InheritedMarks(g, k) == [];
      }
    }
    assert |mid| == Width(c);
  }

  /** A narrow code point in place of a wide one leaves a space behind. */
  lemma TextOfNarrowing(g: Grid, k: nat, c: CodePoint)
    requires WellFormed(g) && k < |g| && WideAt(g, k) && Width(c) == 1
    ensures Text(Place(g, k, c)) == Before(g, k) + (ToChars(c) + [SPACE]) + After(g, k)
  {
    AfterCell(g, k);
    TextOfPlace(g, k, c);
    TextOfNewSlots(g, k, c);
  }

  /** A wide code point in place of a narrow one takes the base of the next cell away. */
  lemma TextOfWidening(g: Grid, k: nat, c: CodePoint)
    requires WellFormed(g) && k + 1 < |g| && g[k].Cell? && !WideAt(g, k) && !WideAt(g, k + 1) && Width(c) == 2
    ensures k + 2 == |g| ==> Text(Place(g, k, c)) == Before(g, k) + ToChars(c)
    ensures k + 2 < |g| ==> g[k + 1].Cell?
    ensures k + 2 < |g| ==> After(g, k) == ToChars(g[k + 1].base) + (Units(g[k + 1].marks) + Text(g[k + 2..]))
    ensures k + 2 < |g| ==>
      Text(Place(g, k, c)) == (Before(g, k) + ToChars(c)) + (Units(g[k + 1].marks) + Text(g[k + 2..]))
  {
    AfterCell(g, k);
    Neighbours(g, k);
    TextFromNarrow(g, k + 1);
    TextOfPlace(g, k, c);
    TextOfNewSlots(g, k, c);
    Regroup(Before(g, k), ToChars(c), Units(InheritedMarks(g, k)), Text(g[k + 2..]));
  }

  lemma Regroup(a: seq<CodeUnit>, b: seq<CodeUnit>, c: seq<CodeUnit>, d: seq<CodeUnit>)
    ensures a + (b + c) + d == (a + b) + (c + d)
    ensures c == [] && d == [] ==> a + (b + c) + d == a + b
  {
  }

  lemma TextFromNarrow(g: Grid, k: nat)
    requires WellFormed(g) && k < |g| && g[k].Cell? && !WideAt(g, k)
    ensures Text(g[k..]) == ToChars(g[k].base) + (Units(g[k].marks) + Text(g[k + 1..]))
  {
    assert SlotOk(g, k);
    PointsFrom(g, k);
    hide Points, Units, ToChars;
    var m, p := g[k].marks, Points(g[k + 1..]);
    ConsAppend(g[k].base, m, p);
    UnitsHead(g[k].base, m + p);
    UnitsConcat(m, p);
  }

  // ----- A write in steps -----

  /** Splitting a wide cell is writing a space over one of its columns. */
  lemma SplitIsPlace(g: Grid, k: nat)
    requires WellFormed(g) && k < |g|
    ensures g[k].Rest? ==> k > 0 && Place(g, k - 1, SPACE) == SplitLeft(g, k)
    ensures WideAt(g, k) ==> Place(g, k, SPACE) == SplitRight(g, k)
  {
    LatinIsNarrow(SPACE);
    Neighbours(g, k);
  }

  /** The row after the wide cells that a write would cut in half have been split. */
  function Roomy(g: Grid, k: nat, c: CodePoint): Grid
    requires k < |g| && k + Width(c) <= |g|
  {
    match Width(c)
    case 0 => g
    case 1 => SplitLeft(g, k)
    case _ => SplitRight(SplitLeft(g, k), k + 1)
  }

  /** Splitting first changes nothing about the outcome of a write. */
  lemma PlaceAfterSplit(g: Grid, k: nat, c: CodePoint)
    requires WellFormed(g) && k < |g| && k + Width(c) <= |g|
    ensures var h := if Width(c) == 0 then Head(g, k) else k;
      Roomy(g, k, c)[h].Cell? && h + Width(c) <= |g| && Place(Roomy(g, k, c), h, c) == Place(g, k, c)
    ensures Width(c) == 2 ==> !WideAt(Roomy(g, k, c), k + 1)
  {
    SplitLeftKeeps(g, k);
    var g1 := SplitLeft(g, k);
    Neighbours(g, k);
    if Width(c) == 2 {
      SplitRightKeeps(g1, k + 1);
      var g2 := SplitRight(g1, k + 1);
      assert g2[k] == g1[k];
      assert SplitLeft(g2, k) == g2;
      assert SplitRight(g2, k + 1) == g2;
    }
  }

  /** A row as a value. */
  datatype RowValue = RowValue(grid: Grid, style: seq<Style>, wrap: bool)

  function Put(r: RowValue, k: nat, c: CodePoint, st: Style): RowValue
    requires k + Width(c) <= |r.grid| == |r.style| && k < |r.grid|
  {
    RowValue(Place(r.grid, k, c), PlaceStyle(r.grid, r.style, k, c, st), r.wrap)
  }

  function Blanks(columns: nat): Grid {
    seq(columns, _ => BLANK)
  }

  function BlankRow(columns: nat, st: Style, wrap: bool): RowValue {
    RowValue(Blanks(columns), seq(columns, _ => st), wrap)
  }

  // ----- Effects -----

  /** Columns [x, x + n) of a row get a changed effect. */
  function ChangeColumns(style: seq<Style>, x: nat, n: nat, bits: bv32, setOrClear: bool,
      reverse: bool): (r: seq<Style>)
    requires x + n <= |style|
    ensures |r| == |style|
    ensures forall k :: 0 <= k < |style| ==>
      r[k] == if x <= k < x + n then TextStyle.ChangeEffect(style[k], bits, setOrClear, reverse) else style[k]
    decreases n
  {
    hide TextStyle.ChangeEffect;
    if n == 0 then style
    else ChangeColumns(style[x := TextStyle.ChangeEffect(style[x], bits, setOrClear, reverse)], x + 1, n - 1,
                       bits, setOrClear, reverse)
  }

  lemma PlaceNarrowAt(g: Grid, k: nat, c: CodePoint, j: nat)
    requires WellFormed(g) && k < |g| && Width(c) == 1 && j < |g|
    ensures Place(g, k, c)[j] ==
      if j == k then Cell(c, [])
      else if (j + 1 == k && g[k].Rest?) || (j == k + 1 && g[j].Rest?) then BLANK
      else g[j]
  {
    Neighbours(g, k);
    if k + 1 < |g| {
      Neighbours(g, k + 1);
    }
  }

  /** A mark goes to the cell that covers its column; all other columns stay as they are. */
  lemma PlaceMarkAt(g: Grid, k: nat, c: CodePoint, j: nat)
    requires WellFormed(g) && k < |g| && Width(c) == 0 && j < |g|
    ensures g[Head(g, k)].Cell?
    ensures Place(g, k, c)[j] == if j == Head(g, k) then g[j].(marks := g[j].marks + [c]) else g[j]
  {
    Neighbours(g, k);
  }

  /** A wide character takes two columns, with the marks of the narrow cell it displaces on its right unless that is the
      last column; halves of the wide cells it cuts become blanks, and all other columns stay as they are. */
  lemma PlaceWideAt(g: Grid, k: nat, c: CodePoint, j: nat)
    requires WellFormed(g) && k + 2 <= |g| && Width(c) == 2 && j < |g|
    ensures Place(g, k, c)[j] ==
      if j == k then Cell(c, if k + 2 < |g| && g[k + 1].Cell? && !WideAt(g, k + 1) then g[k + 1].marks else [])
      else if j == k + 1 then Rest
      else if (j + 1 == k && g[k].Rest?) || (j == k + 2 && g[j].Rest?) then BLANK
      else g[j]
  {
    Neighbours(g, k);
    Neighbours(g, k + 1);
    if k + 2 < |g| {
      Neighbours(g, k + 2);
    }
  }

  lemma FirstOf(m: seq<CodePoint>, s: seq<CodePoint>)
    ensures m != [] ==> (m + s)[0] == m[0]
  {
  }

  /** Where a list of marks ends, a base character or the end follows; so the split is unique. */
  lemma {:induction false} SameMarks(m: seq<CodePoint>, s: seq<CodePoint>, n: seq<CodePoint>, t: seq<CodePoint>)
    requires m + s == n + t && AllMarks(m) && AllMarks(n)
    requires s == [] || Width(s[0]) != 0
    requires t == [] || Width(t[0]) != 0
    ensures m == n && s == t
    decreases m
  {
    if m == [] || n == [] {
      assert [] + s == s && [] + t == t;
      FirstOf(m, s);
      FirstOf(n, t);
    } else {
      assert m[0] == (m + s)[0] == (n + t)[0] == n[0];
      assert m[1..] + s == (m + s)[1..] == (n + t)[1..] == n[1..] + t;
      SameMarks(m[1..], s, n[1..], t);
    }
  }

  lemma PointsFromStart(g: Grid, k: nat)
    requires WellFormed(g) && k <= |g| && (k < |g| ==> g[k].Cell?)
    ensures Points(g[k..]) == [] || Width(Points(g[k..])[0]) != 0
    ensures Points(g[k..]) == [] <==> k == |g|
  {
    if k < |g| {
      MarksOf(g, k);
      PointsUnfold(g, k);
    }
  }

  /** The text of a row determines its cells: the packed form loses nothing. */
  lemma TextDeterminesCells(g: Grid, h: Grid)
    requires WellFormed(g) && WellFormed(h) && Text(g) == Text(h)
    ensures g == h
  {
    UnitsInjective(Points(g), Points(h));
    assert g[0..] == g && h[0..] == h;
    assert g != [] ==> SlotOk(g, 0);
    assert h != [] ==> SlotOk(h, 0);
    SameCellsFrom(g, h, 0);
  }

  lemma {:induction false} SameCellsFrom(g: Grid, h: Grid, k: nat)
    requires WellFormed(g) && WellFormed(h) && k <= |g| && k <= |h|
    requires (k < |g| ==> g[k].Cell?) && (k < |h| ==> h[k].Cell?) && Points(g[k..]) == Points(h[k..])
    ensures g[k..] == h[k..]
    decreases |g| - k
  {
    hide Points;
    PointsFromStart(g, k);
    PointsFromStart(h, k);
    if k < |g| {
      var w := Width(g[k].base);
      NextIsBase(g, k);
      NextIsBase(h, k);
      SameCell(g, h, k);
      SameCellsFrom(g, h, k + w);
      SameSlots(g, h, k, w);
    }
  }

  lemma SameCell(g: Grid, h: Grid, k: nat)
    requires WellFormed(g) && WellFormed(h) && k < |g| && k < |h| && g[k].Cell? && h[k].Cell?
    requires Points(g[k..]) == Points(h[k..])
    ensures g[k] == h[k]
    ensures var k' := k + Width(g[k].base); k' <= |g| && k' <= |h| && Points(g[k'..]) == Points(h[k'..])
  {
    hide Points;
    PointsFrom(g, k);
    PointsFrom(h, k);
    NextIsBase(g, k);
    NextIsBase(h, k);
    MarksOf(g, k);
    MarksOf(h, k);
    var s, t := Points(g[k + Width(g[k].base)..]), Points(h[k + Width(h[k].base)..]);
    PointsFromStart(g, k + Width(g[k].base));
    PointsFromStart(h, k + Width(h[k].base));
    assert g[k].base == Points(g[k..])[0] == h[k].base;
    assert g[k].marks + s == Points(g[k..])[1..] == h[k].marks + t;
    SameMarks(g[k].marks, s, h[k].marks, t);
  }

  lemma SameSlots(g: Grid, h: Grid, k: nat, w: nat)
    requires WellFormed(g) && WellFormed(h) && k < |g| && k < |h| && g[k] == h[k] && g[k].Cell? && w == Width(g[k].base)
    requires k + w <= |g| && k + w <= |h| && g[k + w..] == h[k + w..]
    ensures g[k..] == h[k..]
  {
    assert SlotOk(g, k) && SlotOk(h, k);
    assert g[k..] == g[k..k + w] + g[k + w..];
    assert h[k..] == h[k..k + w] + h[k + w..];
  }
}
