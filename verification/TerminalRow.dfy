/** TerminalRow.java: a row of cells packed into a UTF-16 buffer that is edited in place. */
module TerminalRows {
  import opened WcWidth
  import opened Utf16
  import opened Row
  import RowCopy
  import TextStyle

  /** A row that needs only one code unit per column. */
  predicate OneUnitPerColumn(g: Grid) {
    forall k :: 0 <= k < |g| ==> g[k].Cell? && g[k].marks == [] && g[k].base < 0x1_0000
  }

  /** Where the text of column `k` starts. */
  function Offset(g: Grid, k: nat): nat
    requires k <= |g|
  {
    |Before(g, k)|
  }

  lemma OffsetFromEnd(g: Grid, k: nat)
    requires k <= |g|
    ensures Offset(g, k) + |Text(g[k..])| == |Text(g)|
  {
    TextSplit(g, k);
  }

  class TerminalRow {
    const columns: nat
    var text: array<CodeUnit>
    /** The number of code units of `text` in use: unbounded here, a short in the source. */
    var spaceUsed: nat
    var lineWrap: bool
    const style: array<Style>
    var hasNonOneWidthOrSurrogateChars: bool
    /** The cells that the text stands for. */
    ghost var grid: Grid

    ghost predicate Valid()
      reads this, text, style
    {
      && 2 <= columns == |grid| == style.Length
      && (text as object) != style
      && WellFormed(grid)
      && spaceUsed <= text.Length && columns <= text.Length
      && text[..spaceUsed] == Text(grid)
      && (!hasNonOneWidthOrSurrogateChars ==> OneUnitPerColumn(grid))
    }

    /** Index `i` of the text is reached just before `marks`, which are followed by the cell at column `k`. */
    ghost predicate At(i: nat, k: nat, marks: seq<CodePoint>)
      reads this, text
    {
      && i <= spaceUsed <= text.Length
      && k <= columns == |grid|
      && (k < columns ==> grid[k].Cell?)
      && AllMarks(marks)
      && text[i..spaceUsed] == Units(marks + Points(grid[k..]))
    }

    lemma AtStart()
      requires Valid()
      ensures At(0, 0, [])
    {
      assert SlotOk(grid, 0);
      assert grid[0..] == grid;
      assert [] + Points(grid) == Points(grid);
      assert text[0..spaceUsed] == text[..spaceUsed];
    }

    lemma AtEnd(i: nat, k: nat, marks: seq<CodePoint>)
      requires Valid() && At(i, k, marks)
      ensures i <= spaceUsed && k <= columns == |grid| && WellFormed(grid)
      ensures k < columns ==> grid[k].Cell? && Width(grid[k].base) != 0
      ensures i == spaceUsed <==> marks == [] && k == columns
    {
      UnitsLength(marks + Points(grid[k..]));
      if k < columns {
        assert SlotOk(grid, k);
        PointsFrom(grid, k);
      }
    }

    lemma AtOffset(i: nat, k: nat, marks: seq<CodePoint>)
      requires Valid() && At(i, k, marks) && marks == []
      ensures i == Offset(grid, k)
    {
      assert marks + Points(grid[k..]) == Points(grid[k..]);
      OffsetFromEnd(grid, k);
    }

    /** Decodes the code point at index `i`: the next mark, or else the base of the next cell. */
    method CodePointAt(i: nat, ghost k: nat, ghost marks: seq<CodePoint>)
      returns (c: CodePoint, n: nat, ghost k': nat, ghost marks': seq<CodePoint>)
      requires Valid() && At(i, k, marks) && i < spaceUsed
      ensures 0 < n == CharCount(c) && At(i + n, k', marks')
      ensures Width(c) == 0 <==> marks != []
      ensures marks != [] ==> c == marks[0] && k' == k && marks' == marks[1..]
      ensures marks == [] ==>
        k < columns && c == grid[k].base && k' == k + Width(c) && marks' == grid[k].marks
    {
      hide Points, Units, WellFormed;
      AtEnd(i, k, marks);
      ghost var next: CodePoint;
      if marks != [] {
        next, k', marks' := marks[0], k, marks[1..];
        NextIsMark(marks, Points(grid[k..]));
      } else {
        next, k', marks' := grid[k].base, k + Width(grid[k].base), grid[k].marks;
        MarksOf(grid, k);
        NextIsBase(grid, k);
      }
      UnitsHead(next, marks' + Points(grid[k'..]));
      BufferHead(text, i, spaceUsed, next, Units(marks' + Points(grid[k'..])));
      if IsHighSurrogate(text[i]) {
        c, n := ToCodePoint(text[i], text[i + 1]), 2;
      } else {
        c, n := text[i], 1;
      }
    }

    method FindStartOfColumn(column: nat) returns (index: nat)
      requires Valid() && column <= columns
      ensures index == if column == columns then spaceUsed else Offset(grid, Head(grid, column))
    {
      hide *;
      if column == columns {
        return spaceUsed;
      }
      var currentColumn, currentCharIndex := 0, 0;
      ghost var k, marks := 0, [];
      AtStart();
      while true
        invariant currentColumn == k && (k == 0 || k < column)
        invariant At(currentCharIndex, k, marks)
        decreases spaceUsed - currentCharIndex
      {
        ghost var k0, marks0 := k, marks;
        AtEnd(currentCharIndex, k, marks);
        var codePoint, n;
        codePoint, n, k, marks := CodePointAt(currentCharIndex, k, marks);
        var newCharIndex := currentCharIndex + n;
        AtEnd(newCharIndex, k, marks);
        var wcwidth := Width(codePoint);
        if wcwidth > 0 {
          currentColumn := currentColumn + wcwidth;
          if currentColumn == column {
            index := SkipCombining(newCharIndex, column, marks);
            HeadOfCover(grid, k, column);
            return;
          } else if currentColumn > column {
            AtOffset(currentCharIndex, k0, marks0);
            HeadOfCover(grid, k0, column);
            return currentCharIndex;
          }
        }
        currentCharIndex := newCharIndex;
      }
    }

    /** The inner loop of `FindStartOfColumn`: skips the marks at index `i`. */
    method SkipCombining(i: nat, ghost k: nat, ghost marks: seq<CodePoint>) returns (index: nat)
      requires Valid() && At(i, k, marks)
      ensures index == Offset(grid, k)
    {
      index := i;
      ghost var left := marks;
      while index < spaceUsed
        invariant At(index, k, left)
        decreases spaceUsed - index
      {
        AtEnd(index, k, left);
        var codePoint, n;
        ghost var k', left';
        codePoint, n, k', left' := CodePointAt(index, k, left);
        if Width(codePoint) > 0 {
          break;
        }
        index, left := index + n, left';
      }
      AtEnd(index, k, left);
      AtOffset(index, k, left);
    }

    method WideDisplayCharacterStartingAt(column: nat) returns (wide: bool)
      requires Valid()
      ensures wide == WideAt(grid, column)
    {
      hide Points, Units, WellFormed, At;
      var currentCharIndex, currentColumn := 0, 0;
      ghost var k, marks := 0, [];
      AtStart();
      while currentCharIndex < spaceUsed
        invariant currentColumn == k <= column
        invariant At(currentCharIndex, k, marks)
        decreases spaceUsed - currentCharIndex
      {
        ghost var k0 := k;
        AtEnd(currentCharIndex, k, marks);
        var codePoint, n;
        codePoint, n, k, marks := CodePointAt(currentCharIndex, k, marks);
        currentCharIndex := currentCharIndex + n;
        var wcwidth := Width(codePoint);
        if wcwidth > 0 {
          if currentColumn == column && wcwidth == 2 {
            return true;
          }
          currentColumn := currentColumn + wcwidth;
          if currentColumn > column {
            HeadOfCover(grid, k0, column);
            return false;
          }
        }
      }
      AtEnd(currentCharIndex, k, marks);
      return false;
    }

    // ----- Editing the text in place -----

    /** Moves text[from..spaceUsed] so that it starts at index `to`, in a larger array when it does not fit. */
    method MoveTail(from: nat, to: nat)
      requires from <= spaceUsed <= text.Length && to <= from + columns
      modifies this`text, this`spaceUsed, text
      ensures text == old(text) || (fresh(text) && text.Length >= old(text.Length))
      ensures spaceUsed == old(spaceUsed) - from + to <= text.Length
      ensures forall i :: 0 <= i < from && i < to ==> text[i] == old(text[i])
      ensures text[to..spaceUsed] == old(text[from..spaceUsed])
    {
      var newSpaceUsed := spaceUsed - from + to;
      var tail := spaceUsed - from;
      if newSpaceUsed > text.Length {
        var newText := new CodeUnit[text.Length + columns];
        ArrayCopy(text, 0, newText, 0, from);
        ArrayCopy(text, from, newText, to, tail);
        text := newText;
      } else {
        ArrayCopy(text, from, text, to, tail);
      }
      spaceUsed := newSpaceUsed;
    }

    /** Replaces text[from..to] by the units of `c`. */
    method ReplaceUnits(from: nat, to: nat, c: CodePoint)
      requires from <= to <= spaceUsed <= text.Length && 2 <= columns
      modifies this`text, this`spaceUsed, text
      ensures text == old(text) || (fresh(text) && text.Length >= old(text.Length))
      ensures spaceUsed == old(spaceUsed) - (to - from) + CharCount(c) <= text.Length
      ensures text[..spaceUsed] == old(text[..from]) + ToChars(c) + old(text[to..spaceUsed])
    {
      ghost var head, tail := text[..from], text[to..spaceUsed];
      var next := from + CharCount(c);
      if next != to {
        MoveTail(to, next);
      }
      WriteChars(from, c, head, tail);
    }

    /** Character.toChars into the gap between `head` and `tail`. */
    method WriteChars(at: nat, c: CodePoint, ghost head: seq<CodeUnit>, ghost tail: seq<CodeUnit>)
      requires at + CharCount(c) <= spaceUsed <= text.Length
      requires text[..at] == head && text[at + CharCount(c)..spaceUsed] == tail
      modifies text
      ensures text[..spaceUsed] == head + ToChars(c) + tail
    {
      var units := ToChars(c);
      text[at] := units[0];
      if |units| == 2 {
        text[at + 1] := units[1];
      }
      assert text[at..at + |units|] == units;
      assert text[..spaceUsed] == text[..at] + text[at..at + |units|] + text[at + |units|..spaceUsed];
    }

    // ----- Writing a cell -----

    ghost function EndOfCell(k: nat): nat
      reads this
      requires k < columns == |grid| && grid[k].Cell?
    {
      var next := k + Width(grid[k].base);
      if next < columns then Offset(grid, Head(grid, next)) else spaceUsed
    }

    lemma CellExtent(k: nat)
      requires Valid() && k < columns && grid[k].Cell?
      ensures k + Width(grid[k].base) <= columns == |grid| && Width(grid[k].base) > 0
      ensures At(|Before(grid, k)|, k, [])
      ensures |Before(grid, k)| == Offset(grid, Head(grid, k))
      ensures |Before(grid, k)| + |Units(SlotPoints(grid[k]))| == EndOfCell(k)
      ensures spaceUsed <= text.Length
      ensures text[..spaceUsed] == Before(grid, k) + Units(SlotPoints(grid[k])) + After(grid, k)
    {
      hide Points, Units, SlotOk, WellFormed;
      OffsetFromEnd(grid, k);
      TextSplit(grid, k);
      assert [] + Points(grid[k..]) == Points(grid[k..]);
      TextAround(grid, k);
      if k + Width(grid[k].base) < columns {
        HeadAfter(grid, k);
      } else {
        assert grid[..columns] == grid;
      }
    }

    /** Where the cell at column `k` starts in the text, its width, and how many units it uses. */
    method MeasureCell(k: nat) returns (start: nat, width: nat, used: nat)
      requires Valid() && k < columns && grid[k].Cell?
      ensures width == Width(grid[k].base) && 1 <= width <= 2
      ensures start + used <= spaceUsed <= text.Length
      ensures text[..start] == Before(grid, k)
      ensures text[start..start + used] == Units(SlotPoints(grid[k]))
      ensures text[start + used..spaceUsed] == After(grid, k)
    {
      hide Points, Units, SlotOk, WellFormed, Text, Before, After, SlotPoints, Head, Offset, At;
      CellExtent(k);
      start := FindStartOfColumn(k);
      width := WidthAt(start, k);
      used := spaceUsed - start;
      if k + width < columns {
        var next := FindStartOfColumn(k + width);
        used := next - start;
      }
      BufferParts(text, spaceUsed, Before(grid, k), Units(SlotPoints(grid[k])), After(grid, k));
    }

    /** WcWidth.width(char[], int) at the start of a cell. */
    method WidthAt(i: nat, ghost k: nat) returns (width: nat)
      requires Valid() && At(i, k, []) && k < columns
      ensures width == Width(grid[k].base)
    {
      AtEnd(i, k, []);
      var c, n;
      ghost var k', marks';
      c, n, k', marks' := CodePointAt(i, k, []);
      width := Width(c);
    }

    /** Puts `c` into the cell that starts at column `k`. */
    method ReplaceCell(k: nat, c: CodePoint)
      requires Valid() && hasNonOneWidthOrSurrogateChars
      requires k < columns && grid[k].Cell? && k + Width(c) <= columns
      requires Width(c) == 2 ==> !WideAt(grid, k + 1)
      modifies this`text, this`spaceUsed, this`grid, text
      ensures Valid() && (text == old(text) || fresh(text))
      ensures grid == Place(old(grid), k, c)
    {
      hide Points, Units, SlotOk, WellFormed, Text, SlotPoints, Place;
      PlaceKeeps(grid, k, c);
      EditText(k, c);
      grid := Place(grid, k, c);
    }

    method EditText(k: nat, c: CodePoint)
      requires Valid() && k < columns && grid[k].Cell? && k + Width(c) <= columns
      requires Width(c) == 2 ==> !WideAt(grid, k + 1)
      modifies this`text, this`spaceUsed, text
      ensures text == old(text) || (fresh(text) && text.Length >= old(text.Length))
      ensures spaceUsed <= text.Length && text[..spaceUsed] == Text(Place(grid, k, c))
    {
      hide Points, Units, SlotOk, WellFormed, Text, SlotPoints, Place, Before, After, Width, ToChars;
      var start, oldWidth, used := MeasureCell(k);
      var newWidth := Width(c);
      var at := start + if newWidth <= 0 then used else 0;
      BufferGlue(text, start, start + used);
      ReplaceUnits(at, start + used, c);
      var newNext := at + CharCount(c);
      if newWidth <= 0 {
        TextOfMark(grid, k, c);
        AppendAssoc(Before(grid, k), Units(SlotPoints(grid[k])), ToChars(c));
      } else if oldWidth == newWidth {
        TextOfSameWidth(grid, k, c);
      } else if oldWidth == 2 {
        AddSpace(newNext, k, c);
      } else {
        TakeNextColumn(newNext, k, c);
      }
    }

    /** The text holds `c` in place of cell `k` and goes on behind it at index `next`. */
    ghost predicate Replaced(next: nat, k: nat, c: CodePoint)
      reads this, text
    {
      && WellFormed(grid) && k < |grid| && grid[k].Cell? && spaceUsed <= text.Length
      && next == |Before(grid, k)| + |ToChars(c)|
      && text[..spaceUsed] == Before(grid, k) + ToChars(c) + After(grid, k)
    }

    lemma ReplacedParts(next: nat, k: nat, c: CodePoint)
      requires Replaced(next, k, c)
      ensures next <= spaceUsed <= text.Length
      ensures text[..next] == Before(grid, k) + ToChars(c) && text[next..spaceUsed] == After(grid, k)
    {
      hide Before, After, ToChars, WellFormed;
      BufferParts(text, spaceUsed, Before(grid, k), ToChars(c), After(grid, k));
      BufferGlue(text, |Before(grid, k)|, next);
    }

    /** A narrow character has replaced a wide one in the text: its second half becomes a space. */
    method AddSpace(newNext: nat, k: nat, ghost c: CodePoint)
      requires 2 <= columns == |grid| && WellFormed(grid) && WideAt(grid, k) && Width(c) == 1
      requires Replaced(newNext, k, c)
      modifies this`text, this`spaceUsed, text
      ensures text == old(text) || (fresh(text) && text.Length >= old(text.Length))
      ensures spaceUsed <= text.Length && text[..spaceUsed] == Text(Place(grid, k, c))
    {
      ReplacedParts(newNext, k, c);
      TextOfNarrowing(grid, k, c);
      hide Points, Units, SlotOk, WellFormed, Text, SlotPoints, Place, Before, After, Width;
      ReplaceUnits(newNext, newNext, SPACE);
      assert Before(grid, k) + (ToChars(c) + [SPACE]) == Before(grid, k) + ToChars(c) + ToChars(SPACE);
    }

    /** A wide character has replaced a narrow one in the text: the base of the next cell goes. */
    method TakeNextColumn(newNext: nat, k: nat, ghost c: CodePoint)
      requires 2 <= columns == |grid| && WellFormed(grid) && k + 1 < columns && grid[k].Cell?
      requires Width(c) == 2 && !WideAt(grid, k) && !WideAt(grid, k + 1)
      requires Replaced(newNext, k, c)
      modifies this`text, this`spaceUsed, text
      ensures text == old(text) || (fresh(text) && text.Length >= old(text.Length))
      ensures spaceUsed <= text.Length && text[..spaceUsed] == Text(Place(grid, k, c))
    {
      ReplacedParts(newNext, k, c);
      TextOfWidening(grid, k, c);
      hide Points, SlotOk, WellFormed, SlotPoints, Place, Before, After, Width, ToChars;
      if k == columns - 2 {
        // Nothing is left behind the wide character.
        spaceUsed := newNext;
      } else {
        RemoveCodePoint(newNext, grid[k + 1].base, Units(grid[k + 1].marks) + Text(grid[k + 2..]));
      }
    }

    /** Shifts the text leftwards over the code point at index `at`. */
    method RemoveCodePoint(at: nat, ghost c: CodePoint, ghost left: seq<CodeUnit>)
      requires 2 <= columns && at <= spaceUsed <= text.Length
      requires text[at..spaceUsed] == ToChars(c) + left
      modifies this`text, this`spaceUsed, text
      ensures text == old(text) || (fresh(text) && text.Length >= old(text.Length))
      ensures spaceUsed <= text.Length && text[..spaceUsed] == old(text[..at]) + left
    {
      BufferHead(text, at, spaceUsed, c, left);
      var next := at + if IsHighSurrogate(text[at]) then 2 else 1;
      MoveTail(next, at);
      BufferGlue(text, at, spaceUsed);
    }

    ghost function Value(): RowValue
      reads this, style
    {
      RowValue(grid, style[..], lineWrap)
    }

    method SetChar(columnToSet: nat, codePoint: CodePoint, st: Style)
      requires Valid() && columnToSet < columns && columnToSet + Width(codePoint) <= columns
      modifies this`text, this`spaceUsed, this`grid, this`hasNonOneWidthOrSurrogateChars, text, style
      ensures Valid() && (text == old(text) || fresh(text))
      ensures old(hasNonOneWidthOrSurrogateChars) ==> hasNonOneWidthOrSurrogateChars
      ensures grid == Place(old(grid), columnToSet, codePoint)
      ensures style[..] == PlaceStyle(old(grid), old(style[..]), columnToSet, codePoint, st)
      decreases Width(codePoint), if columnToSet < |grid| && grid[columnToSet].Rest? then 1 else 0, 5
    {
      hide Points, Units, WellFormed, Place;
      style[columnToSet] := st;
      // Columns and code units agree.
      if !hasNonOneWidthOrSurrogateChars {
        SimpleHasNoWide(grid);
        if codePoint >= 0x1_0000 || Width(codePoint) != 1 {
          hasNonOneWidthOrSurrogateChars := true;
        } else {
          SetSimple(columnToSet, codePoint);
          return;
        }
      }
      SetSlow(columnToSet, codePoint, st);
    }

    method SetSlow(columnToSet: nat, codePoint: CodePoint, st: Style)
      requires Valid() && columnToSet < columns && columnToSet + Width(codePoint) <= columns
      requires hasNonOneWidthOrSurrogateChars && style[columnToSet] == st
      modifies this`text, this`spaceUsed, this`grid, this`hasNonOneWidthOrSurrogateChars, text, style
      ensures Valid() && (text == old(text) || fresh(text))
      ensures old(hasNonOneWidthOrSurrogateChars) ==> hasNonOneWidthOrSurrogateChars
      ensures grid == Place(old(grid), columnToSet, codePoint)
      ensures style[..] == PlaceStyle(old(grid), old(style[..]), columnToSet, codePoint, st)
      decreases Width(codePoint), if columnToSet < |grid| && grid[columnToSet].Rest? then 1 else 0, 4
    {
      PlaceAfterSplit(grid, columnToSet, codePoint);
      hide WellFormed, SlotOk, Text, Place, OneUnitPerColumn, Width;
      var column := columnToSet;
      var newWidth := Width(codePoint);
      var wasExtraCol := WasExtraCol(column);
      if newWidth <= 0 {
        // A mark goes to the cell that covers the column.
        if wasExtraCol {
          column := column - 1;
        }
      } else {
        MakeRoom(column, wasExtraCol, codePoint, st);
      }
      ReplaceCell(column, codePoint);
    }

    /** Splits the wide characters that a write would cut in half. */
    method MakeRoom(column: nat, wasExtraCol: bool, codePoint: CodePoint, st: Style)
      requires Valid() && hasNonOneWidthOrSurrogateChars && column < columns && column + Width(codePoint) <= columns
      requires wasExtraCol == grid[column].Rest? && (wasExtraCol ==> column > 0 && WideAt(grid, column - 1))
      requires Width(codePoint) != 0 && style[column] == st
      modifies this`text, this`spaceUsed, this`grid, this`hasNonOneWidthOrSurrogateChars, text, style
      ensures Valid() && (text == old(text) || fresh(text)) && hasNonOneWidthOrSurrogateChars
      ensures grid == Roomy(old(grid), column, codePoint)
      ensures style[..] == PlaceStyle(old(grid), old(style[..]), column, codePoint, st)
      decreases Width(codePoint), if wasExtraCol then 1 else 0, 3
    {
      hide WellFormed, SlotOk, Text, Place, OneUnitPerColumn;
      if wasExtraCol {
        Overwrite(column - 1, st);
      }
      if Width(codePoint) == 2 {
        var overwritingNext := WideDisplayCharacterStartingAt(column + 1);
        if overwritingNext {
          Overwrite(column + 1, st);
        }
      }
    }

    method WasExtraCol(column: nat) returns (extra: bool)
      requires Valid() && column < columns
      ensures extra == grid[column].Rest?
      ensures extra ==> column > 0 && WideAt(grid, column - 1)
    {
      Neighbours(grid, column);
      extra := false;
      if column > 0 {
        extra := WideDisplayCharacterStartingAt(column - 1);
      }
    }

    /** Writes a space over the first column of a wide character. */
    method Overwrite(column: nat, st: Style)
      requires Valid() && hasNonOneWidthOrSurrogateChars && WideAt(grid, column)
      modifies this`text, this`spaceUsed, this`grid, this`hasNonOneWidthOrSurrogateChars, text, style
      ensures Valid() && (text == old(text) || fresh(text)) && hasNonOneWidthOrSurrogateChars
      ensures column + 1 < columns && grid == old(grid)[column := BLANK][column + 1 := BLANK]
      ensures style[..] == old(style[..])[column := st]
      decreases 1, 0, 6
    {
      SplitIsPlace(grid, column);
      Neighbours(grid, column);
      SetChar(column, SPACE, st);
    }

    /** The fast path: one code unit per column. */
    method SetSimple(column: nat, c: CodePoint)
      requires Valid() && column < columns && c < 0x1_0000 && Width(c) == 1 && !hasNonOneWidthOrSurrogateChars
      modifies this`grid, text
      ensures Valid() && grid == Place(old(grid), column, c)
    {
      SimpleText(grid);
      SimpleHasNoWide(grid);
      PlaceKeeps(grid, column, c);
      text[column] := c;
      grid := grid[column := Cell(c, [])];
      SimpleText(grid);
    }

    // ----- Whole rows -----

    constructor (columns: nat, st: Style)
      requires 2 <= columns
      ensures Valid() && fresh(text) && fresh(style) && this.columns == columns
      ensures Value() == BlankRow(columns, st, false)
    {
      this.columns := columns;
      text := new CodeUnit[columns * 3 / 2](_ => SPACE);
      style := new Style[columns](_ => st);
      spaceUsed := columns;
      lineWrap := false;
      hasNonOneWidthOrSurrogateChars := false;
      grid := Blanks(columns);
      new;
      BlanksAreSimple(columns);
      assert text[..spaceUsed] == Text(grid);
    }

    /** Blanks the row; the line wrap mark stays. */
    method Clear(st: Style)
      requires Valid()
      modifies this`spaceUsed, this`hasNonOneWidthOrSurrogateChars, this`grid, text, style
      ensures Valid()
      ensures Value() == BlankRow(columns, st, old(lineWrap))
    {
      forall i | 0 <= i < text.Length {
        text[i] := SPACE;
      }
      forall i | 0 <= i < style.Length {
        style[i] := st;
      }
      spaceUsed := columns;
      hasNonOneWidthOrSurrogateChars := false;
      grid := Blanks(columns);
      BlanksAreSimple(columns);
      assert text[..spaceUsed] == Text(grid);
    }

    method IsBlank() returns (blank: bool)
      requires Valid()
      ensures blank <==> IsBlankText(Points(grid))
    {
      hide Points, Units, WellFormed, IsBlankText;
      AllSpaces(Points(grid));
      var charIndex := 0;
      while charIndex < spaceUsed
        invariant charIndex <= spaceUsed
        invariant forall i :: 0 <= i < charIndex ==> text[i] == SPACE
      {
        if text[charIndex] != SPACE {
          assert text[..spaceUsed][charIndex] == text[charIndex];
          return false;
        }
        charIndex := charIndex + 1;
      }
      assert forall i :: 0 <= i < spaceUsed ==> text[..spaceUsed][i] == text[i];
      return true;
    }

    /** Copies columns [sourceX1, sourceX2) of `line` to column `destinationX`. */
    method CopyInterval(line: TerminalRow, sourceX1: nat, sourceX2: nat, destinationX: nat)
      requires Valid() && line.Valid() && (line != this ==> line.text != text && line.style != style)
      requires (line.text as object) != style && (text as object) != line.style
      requires sourceX1 <= sourceX2 <= line.columns && destinationX + (sourceX2 - sourceX1) <= columns
      modifies this`text, this`spaceUsed, this`grid, this`hasNonOneWidthOrSurrogateChars, text, style
      ensures Valid() && (text == old(text) || fresh(text))
      ensures RowCopy.CanCopy(old(Value()), old(line.Value()), line == this, sourceX1, sourceX2, destinationX)
      ensures Value() ==
        RowCopy.CopyInterval(old(Value()), old(line.Value()), line == this, sourceX1, sourceX2, destinationX)
    {
      hide WellFormed, Points, Units, Place, PlaceStyle, RowCopy.WriteAll, RowCopy.CanWrite, RowCopy.EnterMiddle, Text,
        OneUnitPerColumn;
      RowCopy.CopyStarts(Value(), line.Value(), line == this, sourceX1, sourceX2, destinationX);
      hide RowCopy.CopyInterval;
      hasNonOneWidthOrSurrogateChars := hasNonOneWidthOrSurrogateChars || line.hasNonOneWidthOrSurrogateChars;
      var x1, x2, starting;
      ghost var raw;
      x1, x2, starting, raw := line.Interval(sourceX1, sourceX2);
      var sourceChars := line.text;
      if line == this {
        sourceChars := CopyOf(line.text);
        assert sourceChars[x1..x2] == sourceChars[..][x1..x2] == line.text[..][x1..x2];
      }
      ghost var from := if line == this then RowCopy.Live else RowCopy.Fixed(line.style[..]);
      CopyUnits(line, sourceChars, x1, x2, starting, RowCopy.Cursor(sourceX1, destinationX, 0), raw, from);
    }

    /** The text of columns [sourceX1, sourceX2), and whether it starts in the middle of a wide character. */
    method Interval(sourceX1: nat, sourceX2: nat) returns (x1: nat, x2: nat, starting: bool, ghost raw: seq<CodePoint>)
      requires Valid() && sourceX1 <= sourceX2 <= columns
      ensures RowCopy.Stop(grid, sourceX1) <= RowCopy.Stop(grid, sourceX2)
      ensures raw == Points(grid[RowCopy.Stop(grid, sourceX1)..RowCopy.Stop(grid, sourceX2)])
      ensures x1 <= x2 <= text.Length && text[x1..x2] == Units(raw)
      ensures starting == (sourceX1 > 0 && WideAt(grid, sourceX1 - 1))
    {
      hide WellFormed, Points, Units, Text, Before, OneUnitPerColumn;
      x1 := FindStartOfColumn(sourceX1);
      x2 := FindStartOfColumn(sourceX2);
      raw := TextBetween(sourceX1, sourceX2);
      starting := false;
      if sourceX1 > 0 {
        starting := WideDisplayCharacterStartingAt(sourceX1 - 1);
      }
    }

    /** The code points of the text between the starts of two columns. */
    lemma TextBetween(c1: nat, c2: nat) returns (raw: seq<CodePoint>)
      requires Valid() && c1 <= c2 <= columns
      ensures RowCopy.Stop(grid, c1) <= RowCopy.Stop(grid, c2)
      ensures raw == Points(grid[RowCopy.Stop(grid, c1)..RowCopy.Stop(grid, c2)])
      ensures forall c :: 0 <= c <= columns ==>
        |Before(grid, RowCopy.Stop(grid, c))| == if c == columns then spaceUsed else Offset(grid, Head(grid, c))
      ensures |Before(grid, RowCopy.Stop(grid, c1))| <= |Before(grid, RowCopy.Stop(grid, c2))| <= spaceUsed
      ensures spaceUsed <= text.Length
      ensures text[|Before(grid, RowCopy.Stop(grid, c1))|..|Before(grid, RowCopy.Stop(grid, c2))|] == Units(raw)
    {
      hide WellFormed, Points, Units;
      RowCopy.StopsInOrder(grid, c1, c2);
      assert grid[..columns] == grid;
      var a, b := RowCopy.Stop(grid, c1), RowCopy.Stop(grid, c2);
      raw := Points(grid[a..b]);
      TextSplit(grid, b);
      TextSplit(grid[..b], a);
      assert grid[..b][..a] == grid[..a] && grid[..b][a..] == grid[a..b];
      BufferParts(text, spaceUsed, Before(grid, a), Units(raw), Text(grid[b..]));
    }

    /** What the loop of `CopyInterval` relies on: its source does not change under it, except for live styles. */
    ghost predicate CanRead(line: TerminalRow, sourceChars: array<CodeUnit>, from: RowCopy.StyleSource)
      reads this, line, line.style
    {
      && sourceChars != text && (sourceChars as object) != style
      && if line == this then from.Live?
         else line.style != style && (text as object) != line.style && from == RowCopy.Fixed(line.style[..])
    }

    /** The loop of `CopyInterval`: writes the code points in sourceChars[x1..x2]. */
    method CopyUnits(line: TerminalRow, sourceChars: array<CodeUnit>, x1: nat, x2: nat, starting: bool,
                     start: RowCopy.Cursor, ghost raw: seq<CodePoint>, ghost from: RowCopy.StyleSource)
      requires Valid() && CanRead(line, sourceChars, from)
      requires x1 <= x2 <= sourceChars.Length && sourceChars[x1..x2] == Units(raw)
      requires RowCopy.CanWrite(Value(), RowCopy.EnterMiddle(raw, starting), from, start)
      modifies this`text, this`spaceUsed, this`grid, this`hasNonOneWidthOrSurrogateChars, text, style
      ensures Valid() && (text == old(text) || fresh(text))
      ensures RowCopy.CanWrite(old(Value()), RowCopy.EnterMiddle(raw, starting), from, start)
      ensures Value() == RowCopy.WriteAll(old(Value()), RowCopy.EnterMiddle(raw, starting), from, start)
    {
      hide WellFormed, Points, Units, Place, PlaceStyle, RowCopy.CanWrite;
      var middle, cur := starting, start;
      ghost var left := raw;
      ghost var result := RowCopy.WriteAll(Value(), RowCopy.EnterMiddle(raw, starting), from, start);
      var i := x1;
      while i < x2
        invariant x1 <= i <= x2 && sourceChars[i..x2] == Units(left)
        invariant Valid() && (text == old(text) || fresh(text)) && CanRead(line, sourceChars, from)
        invariant RowCopy.CanWrite(Value(), RowCopy.EnterMiddle(left, middle), from, cur)
        invariant RowCopy.WriteAll(Value(), RowCopy.EnterMiddle(left, middle), from, cur) == result
      {
        i, cur := CopyOne(line, sourceChars, i, x2, middle, cur, left, from);
        middle := false;
        left := left[1..];
      }
      UnitsLength(left);
    }

    /** One turn of the loop: decodes a code point and writes it. */
    method CopyOne(line: TerminalRow, sourceChars: array<CodeUnit>, i: nat, x2: nat, middle: bool,
                   cur: RowCopy.Cursor, ghost left: seq<CodePoint>, ghost from: RowCopy.StyleSource)
      returns (i': nat, next: RowCopy.Cursor)
      requires Valid() && CanRead(line, sourceChars, from)
      requires i < x2 <= sourceChars.Length && sourceChars[i..x2] == Units(left)
      requires RowCopy.CanWrite(Value(), RowCopy.EnterMiddle(left, middle), from, cur)
      modifies this`text, this`spaceUsed, this`grid, this`hasNonOneWidthOrSurrogateChars, text, style
      ensures Valid() && (text == old(text) || fresh(text)) && CanRead(line, sourceChars, from)
      ensures left != [] && i < i' <= x2 && sourceChars[i'..x2] == Units(left[1..])
      ensures RowCopy.CanWrite(Value(), left[1..], from, next)
      ensures RowCopy.CanWrite(old(Value()), RowCopy.EnterMiddle(left, middle), from, cur)
      ensures RowCopy.WriteAll(Value(), left[1..], from, next) ==
        RowCopy.WriteAll(old(Value()), RowCopy.EnterMiddle(left, middle), from, cur)
    {
      assert left != [];
      hide WellFormed, Points, Units, Place, PlaceStyle, RowCopy.CanWrite, RowCopy.WriteAll, OneUnitPerColumn, Text,
        ToChars, Width;
      var c;
      c, i' := DecodeAt(sourceChars, i, x2, left);
      var codePoint := if middle then SPACE else c;
      next := WriteNext(line, codePoint, cur, RowCopy.EnterMiddle(left, middle), from);
      assert RowCopy.EnterMiddle(left, middle)[1..] == left[1..];
    }

    method WriteNext(line: TerminalRow, codePoint: CodePoint, cur: RowCopy.Cursor,
                     ghost s: seq<CodePoint>, ghost from: RowCopy.StyleSource)
      returns (next: RowCopy.Cursor)
      requires Valid()
      requires if line == this then from.Live?
               else line.style != style && (text as object) != line.style && from == RowCopy.Fixed(line.style[..])
      requires s != [] && s[0] == codePoint && RowCopy.CanWrite(Value(), s, from, cur)
      modifies this`text, this`spaceUsed, this`grid, this`hasNonOneWidthOrSurrogateChars, text, style
      ensures Valid() && (text == old(text) || fresh(text))
      ensures RowCopy.CanWrite(Value(), s[1..], from, next)
      ensures RowCopy.CanWrite(old(Value()), s, from, cur)
      ensures RowCopy.WriteAll(Value(), s[1..], from, next) == RowCopy.WriteAll(old(Value()), s, from, cur)
    {
      RowCopy.WriteUnfold(Value(), s, from, cur);
      hide WellFormed, Points, Units, Place, PlaceStyle, RowCopy.CanWrite, RowCopy.WriteAll, OneUnitPerColumn, Text;
      next := RowCopy.Advance(cur, Width(codePoint));
      var st := line.GetStyle(next.sx);
      ghost var r := RowCopy.WriteOne(Value(), codePoint, from, next);
      SetChar(next.dx, codePoint, st);
      assert Value() == r;
    }

    static method DecodeAt(chars: array<CodeUnit>, i: nat, ghost end: nat,
        ghost s: seq<CodePoint>) returns (c: CodePoint, i': nat)
      requires i < end <= chars.Length && s != [] && chars[i..end] == Units(s)
      ensures c == s[0] && i < i' <= end && chars[i'..end] == Units(s[1..])
    {
      hide Units;
      assert s == [s[0]] + s[1..];
      UnitsHead(s[0], s[1..]);
      BufferHead(chars, i, end, s[0], Units(s[1..]));
      if IsHighSurrogate(chars[i]) {
        c, i' := ToCodePoint(chars[i], chars[i + 1]), i + 2;
      } else {
        c, i' := chars[i], i + 1;
      }
    }

    /** Changes the effect of columns [from, to). */
    method ChangeEffects(from: nat, to: nat, bits: bv32, setOrClear: bool, reverse: bool)
      requires Valid() && to <= columns
      modifies style
      ensures Valid()
      ensures style[..] == if from < to then ChangeColumns(old(style[..]), from, to - from, bits, setOrClear, reverse)
                           else old(style[..])
    {
      hide WellFormed, Text, TextStyle.ChangeEffect;
      var x := from;
      while x < to
        invariant from <= x && (from < to ==> x <= to) && Valid()
        invariant if from < to then
            ChangeColumns(style[..], x, to - x, bits, setOrClear, reverse) ==
            ChangeColumns(old(style[..]), from, to - from, bits, setOrClear, reverse)
          else style[..] == old(style[..])
      {
        style[x] := TextStyle.ChangeEffect(style[x], bits, setOrClear, reverse);
        x := x + 1;
      }
    }

    method SetLineWrap(wrap: bool)
      requires Valid()
      modifies this`lineWrap
      ensures Valid() && lineWrap == wrap
    {
      lineWrap := wrap;
    }

    function GetStyle(column: nat): Style
      requires column < style.Length
      reads style
    {
      style[column]
    }
  }

  lemma BlanksAreSimple(columns: nat)
    ensures WellFormed(Blanks(columns)) && OneUnitPerColumn(Blanks(columns))
    ensures |Text(Blanks(columns))| == columns
    ensures forall k :: 0 <= k < columns ==> Text(Blanks(columns))[k] == SPACE
  {
    LatinIsNarrow(SPACE);
    SimpleText(Blanks(columns));
  }

  /** A text is all spaces exactly when its code points are. */
  lemma {:induction false} AllSpaces(s: seq<CodePoint>)
    ensures IsBlankText(s) <==> (forall i :: 0 <= i < |Units(s)| ==> Units(s)[i] == SPACE)
  {
    if s != [] {
      AllSpaces(s[1..]);
      assert s == [s[0]] + s[1..];
      var u := ToChars(s[0]);
      assert forall i :: 0 <= i < |u| ==> Units(s)[i] == u[i];
      assert forall i :: 0 <= i < |Units(s[1..])| ==> Units(s)[i + |u|] == Units(s[1..])[i];
      assert forall i :: 0 <= i < |s[1..]| ==> s[i + 1] == s[1..][i];
    }
  }

  /** With one code unit per column, the text can be indexed by column. */
  lemma {:induction false} SimpleText(g: Grid)
    requires OneUnitPerColumn(g)
    ensures |Text(g)| == |g|
    ensures forall k :: 0 <= k < |g| ==> Text(g)[k] == g[k].base
  {
    if g != [] {
      SimpleText(g[1..]);
      assert g == [g[0]] + g[1..];
      TextConcat([g[0]], g[1..]);
      TextOfCell(g[0], 1);
      assert SlotPoints(g[0]) == [g[0].base];
      UnitsSingleton(g[0].base);
    }
  }

  lemma SimpleHasNoWide(g: Grid)
    requires WellFormed(g) && OneUnitPerColumn(g)
    ensures forall k :: 0 <= k < |g| ==> g[k].Cell? && Width(g[k].base) == 1 && !WideAt(g, k)
  {
    forall k | 0 <= k < |g| ensures Width(g[k].base) == 1 {
      assert SlotOk(g, k);
    }
  }

  /** Arrays.copyOf with the same length. */
  method CopyOf(src: array<CodeUnit>) returns (copy: array<CodeUnit>)
    ensures fresh(copy) && copy[..] == src[..]
  {
    copy := new CodeUnit[src.Length](_ => 0);
    ArrayCopy(src, 0, copy, 0, src.Length);
  }

  /** System.arraycopy: the source is read as it was before the call. */
  method ArrayCopy(src: array<CodeUnit>, srcPos: nat, dst: array<CodeUnit>, dstPos: nat, len: nat)
    requires srcPos + len <= src.Length && dstPos + len <= dst.Length
    modifies dst
    ensures forall i :: 0 <= i < dst.Length ==>
      dst[i] == if dstPos <= i < dstPos + len then old(src[srcPos + i - dstPos]) else old(dst[i])
  {
    forall i | 0 <= i < len {
      dst[dstPos + i] := src[srcPos + i];
    }
  }
}
