/** A reflow conserves styles: every code point that is not a space keeps the style of its cell. */
module ReflowStyles {
  import opened Common
  import opened WcWidth
  import opened Utf16
  import opened Row
  import RowCopy
  import P = Page
  import opened Reflow
  import opened ReflowText

  /** A code point and the style of the cell it is in. */
  type Styled = (CodePoint, Style)

  /** The code points that are not spaces, all of one style. */
  function Tag(s: seq<CodePoint>, st: Style): seq<Styled> {
    if s == [] then [] else (if s[0] == SPACE then [] else [(s[0], st)]) + Tag(s[1..], st)
  }

  /** The text of cells with their styles: the second column of a wide character has no say. */
  function CellTags(g: Grid, style: seq<Style>): seq<Styled>
    requires |g| == |style|
  {
    if g == [] then [] else Tag(SlotPoints(g[0]), style[0]) + CellTags(g[1..], style[1..])
  }

  function RowTags(r: RowValue): seq<Styled> {
    if |r.grid| == |r.style| then CellTags(r.grid, r.style) else []
  }

  function TagsOf(rows: seq<RowValue>): seq<Styled> {
    if rows == [] then [] else RowTags(rows[0]) + TagsOf(rows[1..])
  }

  /** The cursor's row, cut behind the base in column `k` if a cell starts there. */
  function CutTags(r: RowValue, k: nat): seq<Styled> {
    if |r.grid| == |r.style| && k < |r.grid| && r.grid[k].Cell? then
      CellTags(r.grid[..k], r.style[..k]) + Tag([r.grid[k].base], r.style[k])
    else RowTags(r)
  }

  /** The old rows from row `i` on, the one of the cursor being cut. */
  function CutRows(rows: seq<RowValue>, i: nat, c: Cursor): seq<Styled>
    requires i <= |rows|
    decreases |rows| - i
  {
    if i == |rows| then []
    else (if i == c.row then CutTags(rows[i], c.col) else RowTags(rows[i])) + CutRows(rows, i + 1, c)
  }

  // ----- Lists -----

  lemma {:induction false} TagConcat(s: seq<CodePoint>, t: seq<CodePoint>, st: Style)
    ensures Tag(s + t, st) == Tag(s, st) + Tag(t, st)
  {
    if s == [] {
      assert s + t == t;
    } else {
      assert (s + t)[1..] == s[1..] + t;
      TagConcat(s[1..], t, st);
    }
  }

  lemma CellTagsFirst(g: Grid, s: seq<Style>)
    requires |g| == |s| && g != []
    ensures CellTags(g, s) == Tag(SlotPoints(g[0]), s[0]) + CellTags(g[1..], s[1..])
  {
  }

  lemma {:induction false} CellTagsConcat(g: Grid, s: seq<Style>, h: Grid, t: seq<Style>)
    requires |g| == |s| && |h| == |t|
    ensures CellTags(g + h, s + t) == CellTags(g, s) + CellTags(h, t)
  {
    if g == [] {
      assert g + h == h && s + t == t;
    } else {
      hide CellTags, Tag, SlotPoints;
      CellTagsFirst(g + h, s + t);
      CellTagsFirst(g, s);
      assert (g + h)[1..] == g[1..] + h && (s + t)[1..] == s[1..] + t;
      CellTagsConcat(g[1..], s[1..], h, t);
      Associate(Tag(SlotPoints(g[0]), s[0]), CellTags(g[1..], s[1..]), CellTags(h, t));
    }
  }

  lemma Associate<T>(x: seq<T>, y: seq<T>, z: seq<T>)
    ensures x + (y + z) == (x + y) + z
  {
  }

  lemma {:induction false} TagsConcat(a: seq<RowValue>, b: seq<RowValue>)
    ensures TagsOf(a + b) == TagsOf(a) + TagsOf(b)
  {
    hide RowTags;
    if a == [] {
      assert a + b == b;
    } else {
      var x, y, z := RowTags(a[0]), TagsOf(a[1..]), TagsOf(b);
      calc {
        TagsOf(a + b);
        { assert (a + b)[1..] == a[1..] + b; }
        x + TagsOf(a[1..] + b);
        { TagsConcat(a[1..], b); }
        x + (y + z);
        (x + y) + z;
      }
    }
  }

  lemma {:induction false} BlankTags(g: Grid, style: seq<Style>)
    requires |g| == |style| && BlankFrom(g, 0)
    ensures CellTags(g, style) == []
  {
    if g != [] {
      assert SlotPoints(g[0]) == [SPACE];
      assert Tag([SPACE], style[0]) == Tag([], style[0]);
      BlankTags(g[1..], style[1..]);
    }
  }

  /** Blanks at the end do not count. */
  lemma TagsUpTo(g: Grid, style: seq<Style>, k: nat)
    requires |g| == |style| && k <= |g| && BlankFrom(g, k)
    ensures CellTags(g, style) == CellTags(g[..k], style[..k])
  {
    assert g == g[..k] + g[k..] && style == style[..k] + style[k..];
    CellTagsConcat(g[..k], style[..k], g[k..], style[k..]);
    BlankTags(g[k..], style[k..]);
  }

  lemma {:induction false} BlankRowsHaveNoTags(rows: seq<RowValue>)
    requires forall i :: 0 <= i < |rows| ==> BlankFrom(rows[i].grid, 0)
    ensures TagsOf(rows) == []
  {
    if rows != [] {
      if |rows[0].grid| == |rows[0].style| {
        BlankTags(rows[0].grid, rows[0].style);
      }
      BlankRowsHaveNoTags(rows[1..]);
    }
  }

  lemma TagsOfOne(r: RowValue)
    ensures TagsOf([r]) == RowTags(r)
  {
    assert [r][1..] == [];
    assert TagsOf([]) == [];
  }

  // ----- One row of the output -----

  /** One code point written behind the text of a row. */
  lemma BaseTags(r: RowValue, col: nat, c: CodePoint, sty: Style)
    requires WellFormed(r.grid) && |r.grid| == |r.style| && 0 < Width(c) && col + Width(c) <= |r.grid|
    requires BlankFrom(r.grid, col)
    ensures var r' := Put(r, col, c, sty);
      && |r'.grid| == |r'.style| == |r.grid| && BlankFrom(r'.grid, col + Width(c))
      && RowTags(r') == RowTags(r) + Tag([c], sty)
      && Head(r'.grid, col + Width(c) - 1) == col && r'.style[col] == sty
  {
    PlaceAppends(r.grid, col, c);
    var r', w := Put(r, col, c, sty), Width(c);
    var cells, styles := r'.grid[col..col + w], r'.style[col..col + w];
    FrontKept(r, col, c, sty);
    hide Place, PlaceStyle, CellTags, WellFormed, Tag;
    assert r'.grid[..col + w] == r'.grid[..col] + cells && r'.style[..col + w] == r'.style[..col] + styles;
    CellTagsConcat(r'.grid[..col], r'.style[..col], cells, styles);
    TagsUpTo(r.grid, r.style, col);
    TagsUpTo(r'.grid, r'.style, col + w);
    TagsOfBase(c, sty, cells, styles);
  }

  lemma FrontKept(r: RowValue, col: nat, c: CodePoint, sty: Style)
    requires WellFormed(r.grid) && |r.grid| == |r.style| && 0 < Width(c) && col + Width(c) <= |r.grid|
    requires BlankFrom(r.grid, col)
    ensures var r', w := Put(r, col, c, sty), Width(c);
      && |r'.grid| == |r'.style| == |r.grid|
      && r'.grid[..col] == r.grid[..col] && r'.style[..col] == r.style[..col]
      && r'.grid[col..col + w] == (if w == 2 then [Cell(c, []), Rest] else [Cell(c, [])])
      && r'.style[col] == sty && Head(r'.grid, col + w - 1) == col
  {
    LatinIsNarrow(SPACE);
    hide WellFormed;
  }

  lemma TagsOfBase(c: CodePoint, sty: Style, cells: Grid, styles: seq<Style>)
    requires cells == [Cell(c, [])] || cells == [Cell(c, []), Rest]
    requires |styles| == |cells| && styles[0] == sty
    ensures CellTags(cells, styles) == Tag([c], sty)
  {
    TagsOfCell(Cell(c, []), sty, cells, styles);
    assert SlotPoints(Cell(c, [])) == [c];
  }

  lemma TagsOfCell(s: Slot, sty: Style, cells: Grid, styles: seq<Style>)
    requires cells == [s] || cells == [s, Rest]
    requires |styles| == |cells| && styles[0] == sty
    ensures CellTags(cells, styles) == Tag(SlotPoints(s), sty)
  {
    TagsOfRest(cells[1..], styles[1..]);
    hide CellTags, Tag, SlotPoints;
    CellTagsFirst(cells, styles);
  }

  lemma TagsOfRest(cells: Grid, styles: seq<Style>)
    requires cells == [] || cells == [Rest]
    requires |styles| == |cells|
    ensures CellTags(cells, styles) == []
  {
    assert |cells| == 1 ==> cells[1..] == [] && Tag([], styles[0]) == [];
  }

  /** The text of a row whose last cell starts in column `h`. */
  lemma TagsUpToCell(r: RowValue, h: nat, col: nat)
    requires |r.grid| == |r.style| && h < col <= |r.grid| && BlankFrom(r.grid, col)
    requires r.grid[h..col] == [r.grid[h]] || r.grid[h..col] == [r.grid[h], Rest]
    ensures RowTags(r) == CellTags(r.grid[..h], r.style[..h]) + Tag(SlotPoints(r.grid[h]), r.style[h])
  {
    hide CellTags, Tag, SlotPoints, BlankFrom;
    TagsUpTo(r.grid, r.style, col);
    assert r.grid[..col] == r.grid[..h] + r.grid[h..col] && r.style[..col] == r.style[..h] + r.style[h..col];
    CellTagsConcat(r.grid[..h], r.style[..h], r.grid[h..col], r.style[h..col]);
    TagsOfCell(r.grid[h], r.style[h], r.grid[h..col], r.style[h..col]);
  }

  /** A mark written behind the text of a row, in the style of the cell it joins. */
  lemma MarkTags(r: RowValue, col: nat, c: CodePoint, sty: Style)
    requires WellFormed(r.grid) && |r.grid| == |r.style| && Width(c) == 0 && 0 < col <= |r.grid|
    requires BlankFrom(r.grid, col) && r.style[Head(r.grid, col - 1)] == sty
    ensures var r' := Put(r, col - 1, c, sty);
      && |r'.grid| == |r'.style| == |r.grid| && BlankFrom(r'.grid, col)
      && RowTags(r') == RowTags(r) + Tag([c], sty)
      && Head(r'.grid, col - 1) == Head(r.grid, col - 1) && r'.style[Head(r.grid, col - 1)] == sty
  {
    MarkAppends(r.grid, col, c);
    MarkParts(r, col, c, sty);
    var r', h := Put(r, col - 1, c, sty), Head(r.grid, col - 1);
    hide Put, CellTags, WellFormed, Tag, Head, RowTags, BlankFrom, SlotPoints;
    TagsUpToCell(r, h, col);
    TagsUpToCell(r', h, col);
    TagConcat(SlotPoints(r.grid[h]), [c], sty);
    Associate(CellTags(r.grid[..h], r.style[..h]), Tag(SlotPoints(r.grid[h]), sty), Tag([c], sty));
  }

  lemma MarkParts(r: RowValue, col: nat, c: CodePoint, sty: Style)
    requires WellFormed(r.grid) && |r.grid| == |r.style| && Width(c) == 0 && 0 < col <= |r.grid|
    requires BlankFrom(r.grid, col) && r.style[Head(r.grid, col - 1)] == sty
    ensures var r', h := Put(r, col - 1, c, sty), Head(r.grid, col - 1);
      && h < col && |r'.grid| == |r'.style| == |r.grid|
      && r'.grid[..h] == r.grid[..h] && r'.style[..h] == r.style[..h] && r'.style[h] == sty
      && (r.grid[h..col] == [r.grid[h]] || r.grid[h..col] == [r.grid[h], Rest])
      && (r'.grid[h..col] == [r'.grid[h]] || r'.grid[h..col] == [r'.grid[h], Rest])
      && SlotPoints(r'.grid[h]) == SlotPoints(r.grid[h]) + [c]
      && Head(r'.grid, col - 1) == h
  {
    Neighbours(r.grid, col - 1);
    var h := Head(r.grid, col - 1);
    assert r.grid[h].Cell?;
    assert [r.grid[h].base] + (r.grid[h].marks + [c]) == ([r.grid[h].base] + r.grid[h].marks) + [c];
    hide WellFormed;
  }

  // ----- The output -----

  function OutTags(o: Output): seq<Styled> {
    TagsOf(AllRows(o))
  }

  lemma TidyTags(o: Output)
    requires Tidy(o)
    ensures OutTags(o) == TagsOf(Above(o)) + RowTags(o.page.screen[o.at.row])
  {
    hide P.Good, RowTags, TagsOf, BlankFrom;
    var row, below := [o.page.screen[o.at.row]], o.page.screen[o.at.row + 1..];
    assert AllRows(o) == Above(o) + row + below;
    TagsConcat(Above(o) + row, below);
    TagsConcat(Above(o), row);
    BlankRowsHaveNoTags(below);
    TagsOfOne(row[0]);
  }

  lemma FreshTags(columns: nat, rows: nat, total: nat, st: Style)
    requires 2 <= columns && 0 < rows <= total
    ensures OutTags(Fresh(columns, rows, total, st)) == []
  {
    hide P.Good;
    BlankRowsHaveNoTags(AllRows(Fresh(columns, rows, total, st)));
  }

  lemma LineFeedTags(o: Output, st: Style, follow: bool)
    requires Tidy(o)
    ensures OutTags(LineFeed(o, st, follow)) == OutTags(o)
  {
    hide P.Good, TagsOf;
    var o' := LineFeed(o, st, follow);
    if o.at.row == |o.page.screen| - 1 {
      var blank := o'.page.screen[o.at.row];
      assert AllRows(o') == AllRows(o) + [blank];
      TagsConcat(AllRows(o), [blank]);
      BlankRowsHaveNoTags([blank]);
    }
  }

  lemma {:induction false} LineFeedsTags(o: Output, n: nat, st: Style)
    requires Tidy(o)
    ensures OutTags(LineFeeds(o, n, st)) == OutTags(o)
    decreases n
  {
    hide P.Good, OutTags, Tidy, LineFeed;
    TidyIsReady(o);
    if n > 0 {
      LineFeedKeeps(o, st, false);
      LineFeedTags(o, st, false);
      LineFeedsTags(LineFeed(o, st, false), n - 1, st);
    }
  }

  lemma WrapTags(o: Output, w: nat, st: Style)
    requires Tidy(o) && w <= 2
    ensures OutTags(WrapFor(o, w, st)) == OutTags(o)
  {
    hide P.Good, TagsOf, BlankFrom, LineFeed;
    if o.at.col + w > o.page.columns {
      var o1 := o.(page := P.SetLineWrap(o.page, o.at.row, true));
      assert Above(o1) == Above(o);
      TidyTags(o);
      TidyTags(o1);
      LineFeedTags(o1, st, true);
    }
  }

  /** The last cell of the output row, if it has one, has this style. */
  predicate EndsIn(o: Output, sty: Style)
    requires Ready(o)
  {
    var r := o.page.screen[o.at.row];
    0 < o.at.col && |r.grid| == |r.style| == o.page.columns && r.style[Head(r.grid, o.at.col - 1)] == sty
  }

  lemma OutputRow(o: Output)
    requires Ready(o)
    ensures P.GoodRow(o.page.screen[o.at.row], o.page.columns)
  {
  }

  lemma EmitTags(o: Output, c: CodePoint, sty: Style)
    requires Tidy(o) && o.at.col + Width(c) <= o.page.columns && (0 < Width(c) || EndsIn(o, sty))
    ensures OutTags(Emit(o, c, sty)) == OutTags(o) + Tag([c], sty) && EndsIn(Emit(o, c, sty), sty)
  {
    OutputRow(o);
    EmitKeepsTidy(o, c, sty);
    EmittedRow(o, c, sty);
    var r, o' := o.page.screen[o.at.row], Emit(o, c, sty);
    hide P.Good, Put, Tidy, WellFormed, TagsOf, RowTags, Tag, BlankFrom, Emit;
    assert Above(o') == Above(o);
    TidyTags(o);
    TidyTags(o');
    Associate(TagsOf(Above(o)), RowTags(r), Tag([c], sty));
  }

  lemma EmitKeepsTidy(o: Output, c: CodePoint, sty: Style)
    requires Tidy(o) && o.at.col + Width(c) <= o.page.columns && (0 < Width(c) || 0 < o.at.col)
    ensures Tidy(Emit(o, c, sty))
  {
    hide Tidy, Emit, Ink, InkOf;
    TidyIsReady(o);
    EmitAppends(o, c, sty);
  }

  /** Only the output row changes. */
  lemma EmitEdits(o: Output, c: CodePoint, sty: Style)
    requires Ready(o) && o.at.col + Width(c) <= o.page.columns && (0 < Width(c) || 0 < o.at.col)
    ensures P.GoodRow(o.page.screen[o.at.row], o.page.columns)
    ensures var col, o' := if Width(c) == 0 then o.at.col - 1 else o.at.col, Emit(o, c, sty);
      var r' := Put(o.page.screen[o.at.row], col, c, sty);
      && o' == o.(page := o.page.(screen := o.page.screen[o.at.row := r']), at := o'.at)
      && o'.at.row == o.at.row && o'.at.col == o.at.col + Width(c)
  {
    OutputRow(o);
    hide P.Good, Put, WellFormed;
  }

  lemma EmittedRow(o: Output, c: CodePoint, sty: Style)
    requires Tidy(o) && o.at.col + Width(c) <= o.page.columns && (0 < Width(c) || EndsIn(o, sty))
    ensures var r, o' := o.page.screen[o.at.row], Emit(o, c, sty);
      && o' == o.(page := o.page.(screen := o.page.screen[o.at.row := o'.page.screen[o.at.row]]), at := o'.at)
      && o'.at.row == o.at.row
      && RowTags(o'.page.screen[o.at.row]) == RowTags(r) + Tag([c], sty) && EndsIn(o', sty)
  {
    OutputRow(o);
    EmitEdits(o, c, sty);
    var r, col := o.page.screen[o.at.row], o.at.col;
    hide P.Good, Put, WellFormed, RowTags, Tag, Emit;
    if Width(c) == 0 {
      MarkTags(r, col, c, sty);
    } else {
      BaseTags(r, col, c, sty);
    }
  }

  // ----- What is copied -----

  /** The code points of a row from column `col` on, with the styles of their columns, up to the base at the cursor. */
  function Tagged(s: seq<CodePoint>, style: seq<Style>, col: nat, sty: Style, cursor: Option<nat>): seq<Styled>
    requires col + RowCopy.TotalWidth(s) <= |style|
    decreases s
  {
    if s == [] then []
    else if Width(s[0]) == 0 then Tag([s[0]], sty) + Tagged(s[1..], style, col, sty, cursor)
    else if cursor == Some(col) then Tag([s[0]], style[col])
    else Tag([s[0]], style[col]) + Tagged(s[1..], style, col + Width(s[0]), style[col], cursor)
  }

  lemma StepTags(o: Output, c: CodePoint, from: Source, st: Style)
    requires Tidy(o) && (0 < Width(c) || EndsIn(o, from.sty))
    ensures var o' := Step(o, c, from, st);
      OutTags(o') == OutTags(o) + Tag([c], from.sty) && EndsIn(o', from.sty)
  {
    hide P.Good, TagsOf, Tag, LineFeed, BlankFrom, Emit, InkOf, Ink;
    WrapKeeps(o, Width(c), st);
    WrapTags(o, Width(c), st);
    MarksStay(o, c, st);
    EmitTags(WrapFor(o, Width(c), st), c, from.sty);
    assert AllRows(Step(o, c, from, st)) == AllRows(PutPoint(o, c, from.sty, st));
  }

  lemma MarksStay(o: Output, c: CodePoint, st: Style)
    requires Ready(o)
    ensures Width(c) == 0 ==> WrapFor(o, Width(c), st) == o
  {
  }

  lemma {:induction false} CopyPointsTags(o: Output, s: seq<CodePoint>, style: seq<Style>, from: Source, st: Style)
    requires Tidy(o) && from.col + RowCopy.TotalWidth(s) <= |style|
    requires s == [] || 0 < Width(s[0]) || EndsIn(o, from.sty)
    ensures OutTags(CopyPoints(o, s, style, from, st)) ==
      OutTags(o) + Tagged(s, style, from.col, from.sty, from.cursor)
    decreases s
  {
    hide P.Good, Tidy, Step, Ready, CopyPoints, OutTags, Width, AllRows, Tag, Tagged, InkOf, Ink, EndsIn, Restyle;
    TidyIsReady(o);
    if s != [] {
      var c, src := s[0], Source(from.col, if Width(s[0]) > 0 then style[from.col] else from.sty, from.cursor);
      CopyUnfold(o, s, style, from, st);
      StyleIsThatOfColumn(from, s[0], style);
      TaggedFirst(s, style, src, from);
      StepTags(o, c, src, st);
      StepKeepsTidy(o, c, src, st);
      if !Here(src, c) {
        var next := src.(col := src.col + Width(c));
        CopyPointsTags(Step(o, c, src, st), s[1..], style, next, st);
        Associate(OutTags(o), Tag([c], src.sty), Tagged(s[1..], style, next.col, next.sty, next.cursor));
      }
    } else {
      NothingLeft(o, style, from, st);
      NothingTagged(style, from.col, from.sty, from.cursor);
    }
  }

  lemma StyleIsThatOfColumn(from: Source, c: CodePoint, style: seq<Style>)
    requires Width(c) > 0 ==> from.col < |style|
    ensures Restyle(from, c, style) ==
      Source(from.col, if Width(c) > 0 then style[from.col] else from.sty, from.cursor)
  {
  }

  lemma NothingTagged(style: seq<Style>, col: nat, sty: Style, cursor: Option<nat>)
    requires col <= |style|
    ensures Tagged([], style, col, sty, cursor) == []
  {
  }

  lemma StepKeepsTidy(o: Output, c: CodePoint, from: Source, st: Style)
    requires Tidy(o) && (0 < Width(c) || EndsIn(o, from.sty))
    ensures Tidy(Step(o, c, from, st))
  {
    hide Tidy, Step, InkOf, Ink;
    TidyIsReady(o);
    StepAppends(o, c, from, st);
  }

  lemma TaggedFirst(s: seq<CodePoint>, style: seq<Style>, src: Source, from: Source)
    requires from.col + RowCopy.TotalWidth(s) <= |style| && s != []
    requires Width(s[0]) > 0 ==> from.col < |style|
    requires src == Source(from.col, if Width(s[0]) > 0 then style[from.col] else from.sty, from.cursor)
    ensures src.col + Width(s[0]) + RowCopy.TotalWidth(s[1..]) <= |style|
    ensures Tagged(s, style, from.col, from.sty, from.cursor) ==
      if Here(src, s[0]) then Tag([s[0]], src.sty)
      else Tag([s[0]], src.sty) + Tagged(s[1..], style, src.col + Width(s[0]), src.sty, src.cursor)
  {
    hide Width, Tag;
  }

  // ----- The old rows -----

  /** Marks take the style of their cell. */
  lemma {:induction false} TaggedMarks(m: seq<CodePoint>, t: seq<CodePoint>, style: seq<Style>, col: nat, sty: Style,
      cursor: Option<nat>)
    requires AllMarks(m) && col + RowCopy.TotalWidth(t) <= |style|
    ensures RowCopy.TotalWidth(m + t) == RowCopy.TotalWidth(t)
    ensures Tagged(m + t, style, col, sty, cursor) == Tag(m, sty) + Tagged(t, style, col, sty, cursor)
    decreases m
  {
    RowCopy.TotalWidthConcat(m, t);
    RowCopy.MarksHaveNoWidth(m);
    if m == [] {
      assert m + t == t;
    } else {
      assert (m + t)[1..] == m[1..] + t;
      TaggedMarks(m[1..], t, style, col, sty, cursor);
      TagConcat([m[0]], m[1..], sty);
      assert [m[0]] + m[1..] == m;
      Associate(Tag([m[0]], sty), Tag(m[1..], sty), Tagged(t, style, col, sty, cursor));
    }
  }

  /** The text of cells from column `at` on, cut behind the base in the cursor's column. */
  function CutFrom(g: Grid, style: seq<Style>, at: nat, cursor: Option<nat>): seq<Styled>
    requires |g| == |style| && at <= |g|
  {
    if cursor.Some? && at <= cursor.value < |g| && g[cursor.value].Cell? then
      CellTags(g[at..cursor.value], style[at..cursor.value]) + Tag([g[cursor.value].base], style[cursor.value])
    else CellTags(g[at..], style[at..])
  }

  lemma {:induction false} TaggedCells(g: Grid, style: seq<Style>, at: nat, sty: Style, cursor: Option<nat>)
    requires WellFormed(g) && |g| == |style| && at <= |g| && (at < |g| ==> g[at].Cell?)
    ensures at + RowCopy.TotalWidth(Points(g[at..])) <= |style|
    ensures Tagged(Points(g[at..]), style, at, sty, cursor) == CutFrom(g, style, at, cursor)
    decreases |g| - at
  {
    hide Points, WellFormed, Tagged, SlotPoints, Width, CutFrom, CellTags, Tag, RowCopy.TotalWidth;
    WidthFrom(g, at);
    if at < |g| {
      var b, m, next := g[at].base, g[at].marks, at + Width(g[at].base);
      NextIsBase(g, at);
      MarksOf(g, at);
      assert Points(g[at..]) == [b] + (m + Points(g[next..]));
      WidthFrom(g, next);
      TaggedCells(g, style, next, style[at], cursor);
      TaggedCell(b, m, Points(g[next..]), style, at, sty, cursor);
      CutCell(g, style, at, cursor);
    } else {
      NothingCut(g, style, at, sty, cursor);
    }
  }

  lemma WidthFrom(g: Grid, at: nat)
    requires WellFormed(g) && at <= |g| && (at < |g| ==> g[at].Cell?)
    ensures RowCopy.TotalWidth(Points(g[at..])) == |g| - at
  {
    CutKeeps(g, at);
    RowCopy.WidthOfCells(g[at..]);
  }

  lemma NothingCut(g: Grid, style: seq<Style>, at: nat, sty: Style, cursor: Option<nat>)
    requires |g| == |style| == at
    ensures Points(g[at..]) == [] && RowCopy.TotalWidth([]) == 0
    ensures Tagged([], style, at, sty, cursor) == CutFrom(g, style, at, cursor)
  {
  }

  lemma TaggedCell(b: CodePoint, m: seq<CodePoint>, t: seq<CodePoint>, style: seq<Style>, at: nat, sty: Style,
      cursor: Option<nat>)
    requires 0 < Width(b) && AllMarks(m) && at + Width(b) + RowCopy.TotalWidth(t) <= |style|
    ensures at + RowCopy.TotalWidth([b] + (m + t)) <= |style|
    ensures Tagged([b] + (m + t), style, at, sty, cursor) ==
      if cursor == Some(at) then Tag([b], style[at])
      else Tag([b] + m, style[at]) + Tagged(t, style, at + Width(b), style[at], cursor)
  {
    hide Width;
    assert ([b] + (m + t))[1..] == m + t;
    TaggedMarks(m, t, style, at + Width(b), style[at], cursor);
    TagConcat([b], m, style[at]);
    hide Tag;
    Associate(Tag([b], style[at]), Tag(m, style[at]), Tagged(t, style, at + Width(b), style[at], cursor));
  }

  lemma WholeFrom(g: Grid, style: seq<Style>, at: nat, next: nat)
    requires WellFormed(g) && |g| == |style| && at < |g| && g[at].Cell? && next == at + Width(g[at].base) <= |g|
    ensures CellTags(g[at..], style[at..]) ==
      Tag([g[at].base] + g[at].marks, style[at]) + CellTags(g[next..], style[next..])
  {
    MarksOf(g, at);
    Neighbours(g, at);
    var cells, styles := g[at..next], style[at..next];
    assert cells == [g[at]] || cells == [g[at], Rest];
    assert g[at..] == cells + g[next..] && style[at..] == styles + style[next..];
    hide WellFormed, CellTags, Tag;
    CellTagsConcat(cells, styles, g[next..], style[next..]);
    TagsOfCell(g[at], style[at], cells, styles);
  }

  lemma CutLater(g: Grid, style: seq<Style>, at: nat, next: nat, k: nat)
    requires WellFormed(g) && |g| == |style| && at < k < |g| && g[at].Cell? && next == at + Width(g[at].base) <= |g|
    requires g[k].Cell?
    ensures next <= k
    ensures CellTags(g[at..k], style[at..k]) + Tag([g[k].base], style[k]) ==
      Tag([g[at].base] + g[at].marks, style[at]) + (CellTags(g[next..k], style[next..k]) + Tag([g[k].base], style[k]))
  {
    Neighbours(g, at);
    MarksOf(g, at);
    hide WellFormed, CellTags, Tag;
    CellsSplit(g, style, at, next, k);
    Associate(Tag([g[at].base] + g[at].marks, style[at]), CellTags(g[next..k], style[next..k]),
              Tag([g[k].base], style[k]));
  }

  /** The first cell of what is left of a row, and the others. */
  lemma CutCell(g: Grid, style: seq<Style>, at: nat, cursor: Option<nat>)
    requires WellFormed(g) && |g| == |style| && at < |g| && g[at].Cell? && at + Width(g[at].base) <= |g|
    ensures CutFrom(g, style, at, cursor) ==
      if cursor == Some(at) then Tag([g[at].base], style[at])
      else Tag([g[at].base] + g[at].marks, style[at]) + CutFrom(g, style, at + Width(g[at].base), cursor)
  {
    var next := at + Width(g[at].base);
    MarksOf(g, at);
    hide WellFormed, CellTags, Tag, Width;
    if cursor == Some(at) {
      NoCells(g[at..at], style[at..at]);
    } else if cursor.Some? && at < cursor.value < |g| && g[cursor.value].Cell? {
      CutLater(g, style, at, next, cursor.value);
    } else {
      WholeFrom(g, style, at, next);
    }
  }

  lemma NoCells(g: Grid, style: seq<Style>)
    requires g == [] && style == []
    ensures CellTags(g, style) == []
  {
  }

  lemma CellsSplit(g: Grid, style: seq<Style>, at: nat, next: nat, k: nat)
    requires WellFormed(g) && |g| == |style| && at < next <= k <= |g| && g[at].Cell? && next == at + Width(g[at].base)
    ensures CellTags(g[at..k], style[at..k]) ==
      Tag([g[at].base] + g[at].marks, style[at]) + CellTags(g[next..k], style[next..k])
  {
    Neighbours(g, at);
    var cells, styles := g[at..next], style[at..next];
    assert cells == [g[at]] || cells == [g[at], Rest];
    assert g[at..k] == cells + g[next..k] && style[at..k] == styles + style[next..k];
    hide WellFormed, CellTags, Tag;
    CellTagsConcat(cells, styles, g[next..k], style[next..k]);
    TagsOfCell(g[at], style[at], cells, styles);
  }

  // ----- The rows -----

  lemma {:induction false} TaggedSpace(s: seq<CodePoint>, style: seq<Style>, col: nat, sty: Style)
    requires col + RowCopy.TotalWidth(s + [SPACE]) <= |style|
    ensures col + RowCopy.TotalWidth(s) <= |style|
    ensures Tagged(s + [SPACE], style, col, sty, None) == Tagged(s, style, col, sty, None)
    decreases s
  {
    LatinIsNarrow(SPACE);
    if s == [] {
      assert [] + [SPACE] == [SPACE] && [SPACE][1..] == [];
      assert Tag([SPACE], style[col]) == Tag([], style[col]) == [];
    } else {
      assert (s + [SPACE])[0] == s[0] && (s + [SPACE])[1..] == s[1..] + [SPACE];
      hide Tag, Width;
      var st := if Width(s[0]) == 0 then sty else style[col];
      TaggedSpace(s[1..], style, col + Width(s[0]), st);
    }
  }

  lemma {:induction false} TaggedTrimmed(s: seq<CodePoint>, style: seq<Style>)
    requires RowCopy.TotalWidth(s) <= |style|
    ensures RowCopy.TotalWidth(TrimRight(s)) <= |style|
    ensures Tagged(TrimRight(s), style, 0, 0, None) == Tagged(s, style, 0, 0, None)
  {
    if s != [] && s[|s| - 1] == SPACE {
      var t := s[..|s| - 1];
      assert s == t + [SPACE];
      TaggedSpace(t, style, 0, 0);
      TaggedTrimmed(t, style);
    }
  }

  /** What is copied of a row is its text, cut at the cursor. */
  lemma TakenTags(r: RowValue, cursor: Option<nat>, columns: nat)
    requires P.GoodRow(r, columns)
    ensures RowCopy.TotalWidth(Taken(r, cursor)) <= |r.style|
    ensures Tagged(Taken(r, cursor), r.style, 0, 0, cursor) ==
      if cursor.Some? then CutTags(r, cursor.value) else RowTags(r)
  {
    TakenFits(r, cursor, columns);
    FirstIsCell(r.grid);
    TaggedCells(r.grid, r.style, 0, 0, cursor);
    assert r.grid[0..] == r.grid && r.style[0..] == r.style;
    hide Tagged, CellTags, Tag, Points, WellFormed;
    if cursor.None? {
      RowCopy.WidthOfCells(r.grid);
      TaggedTrimmed(Points(r.grid), r.style);
    } else if cursor.value < |r.grid| {
      assert r.grid[0..cursor.value] == r.grid[..cursor.value] && r.style[0..cursor.value] == r.style[..cursor.value];
    }
  }

  lemma FirstIsCell(g: Grid)
    requires WellFormed(g)
    ensures g != [] ==> g[0].Cell?
  {
    if g != [] {
      Neighbours(g, 0);
    }
  }

  lemma CopyRowTags(o: Output, r: RowValue, cursor: Option<nat>, last: bool, columns: nat, st: Style)
    requires Tidy(o) && P.GoodRow(r, columns)
    ensures OutTags(CopyRow(o, r, cursor, last, columns, st)) ==
      OutTags(o) + if cursor.Some? then CutTags(r, cursor.value) else RowTags(r)
  {
    hide P.Good, OutTags, Tidy, Ready, CopyPoints, LineFeed, Taken, WellFormed, Tagged, CutTags, RowTags, InkOf, Ink,
      Kept;
    TidyIsReady(o);
    TakenFits(r, cursor, columns);
    RowStartsWithBase(r, columns, cursor);
    TakenTags(r, cursor, columns);
    var o1 := CopyPoints(o, Taken(r, cursor), r.style, Source(0, 0, cursor), st);
    CopyPointsTags(o, Taken(r, cursor), r.style, Source(0, 0, cursor), st);
    CopyPointsAppends(o, Taken(r, cursor), r.style, Source(0, 0, cursor), st);
    LineFeedTags(o1, st, true);
  }

  lemma {:induction false} BlankTextHasNoTags(s: seq<CodePoint>, st: Style)
    requires IsBlankText(s)
    ensures Tag(s, st) == []
  {
    if s != [] {
      BlankTextHasNoTags(s[1..], st);
    }
  }

  lemma {:induction false} BlankPointsHaveNoTags(g: Grid, style: seq<Style>)
    requires |g| == |style| && IsBlankText(Points(g))
    ensures CellTags(g, style) == []
  {
    if g != [] {
      var a, b := SlotPoints(g[0]), Points(g[1..]);
      assert Points(g) == a + b;
      assert forall i :: 0 <= i < |a| ==> a[i] == Points(g)[i];
      assert forall i :: 0 <= i < |b| ==> b[i] == Points(g)[|a| + i];
      BlankTextHasNoTags(a, style[0]);
      BlankPointsHaveNoTags(g[1..], style[1..]);
    }
  }

  /** A row that is skipped has no text, cut or not. */
  lemma SkippedHasNoTags(r: RowValue, columns: nat, k: nat)
    requires P.GoodRow(r, columns) && IsBlankText(Points(r.grid))
    ensures RowTags(r) == [] && CutTags(r, k) == []
  {
    BlankPointsHaveNoTags(r.grid, r.style);
    if k < |r.grid| && r.grid[k].Cell? {
      TextSplit(r.grid, k);
      var a, b := Points(r.grid[..k]), Points(r.grid[k..]);
      assert forall i :: 0 <= i < |a| ==> a[i] == Points(r.grid)[i];
      BlankPointsHaveNoTags(r.grid[..k], r.style[..k]);
      PointsUnfold(r.grid, k);
      assert b[0] == r.grid[k].base == Points(r.grid)[|a|];
      BlankTextHasNoTags([r.grid[k].base], r.style[k]);
    }
  }

  lemma {:induction false} CopyRowsTags(
    o: Output, rows: seq<RowValue>, i: nat, skipped: nat, c: Cursor, columns: nat, st: Style)
    requires Tidy(o) && P.GoodRows(rows, columns) && i <= |rows|
    ensures OutTags(CopyRows(o, rows, i, skipped, c, columns, st)) == OutTags(o) + CutRows(rows, i, c)
    decreases |rows| - i
  {
    hide P.Good, OutTags, Tidy, Ready, CopyRow, LineFeeds, P.GoodRow, IsBlankText, Points, InkOf, Ink, Kept, RowTags,
      CutTags;
    TidyIsReady(o);
    if i < |rows| {
      assert P.GoodRow(rows[i], columns);
      if Skipped(o, rows[i], c, i) {
        SkippedHasNoTags(rows[i], columns, c.col);
        CopyRowsTags(o, rows, i + 1, skipped + 1, c, columns, st);
      } else {
        LineFeedsKeep(o, skipped, st);
        LineFeedsTags(o, skipped, st);
        var o1 := LineFeeds(o, skipped, st);
        TidyIsReady(o1);
        var o2 := CopyRow(o1, rows[i], CursorIn(c, i), i == |rows| - 1, columns, st);
        CopyRowAppends(o1, rows[i], CursorIn(c, i), i == |rows| - 1, columns, st);
        CopyRowTags(o1, rows[i], CursorIn(c, i), i == |rows| - 1, columns, st);
        CopyRowsTags(o2, rows, i + 1, 0, c, columns, st);
      }
    }
  }

  /** A reflow conserves styles with the text: every code point that is not a space, in the rows evicted from the full
      ring and then in the new history and screen, has the style of the cell it had in the old rows, in the same order;
      the row of the cursor is cut behind the base at the cursor. */
  lemma ReflowConservesStyles(p: Page, newColumns: nat, newRows: nat, newTotal: nat, c: Cursor, st: Style)
    requires P.Good(p) && 2 <= newColumns && 0 < newRows <= newTotal
    ensures var o := Reflowed(p, newColumns, newRows, newTotal, c, st);
      TagsOf(o.evicted) + TagsOf(o.page.history + o.page.screen) == CutRows(p.history + p.screen, 0, c)
  {
    assert P.GoodRows(p.history + p.screen, p.columns);
    hide P.Good, CopyRows, P.GoodRows, Fresh, Tidy, P.GoodRow, Ready, OutTags, CutRows, TagsOf;
    var o := Reflowed(p, newColumns, newRows, newTotal, c, st);
    FreshIsTidy(newColumns, newRows, newTotal, st);
    FreshTags(newColumns, newRows, newTotal, st);
    CopyRowsTags(Fresh(newColumns, newRows, newTotal, st), p.history + p.screen, 0, 0, c, p.columns, st);
    TagsOfAll(o);
  }

  lemma TagsOfAll(o: Output)
    ensures OutTags(o) == TagsOf(o.evicted) + TagsOf(o.page.history + o.page.screen)
  {
    hide TagsOf;
    assert AllRows(o) == o.evicted + (o.page.history + o.page.screen);
    TagsConcat(o.evicted, o.page.history + o.page.screen);
  }
}
