/** Line feeds: when they scroll, and what scrolls where. */
module FeedOps {
  import opened Common
  import opened WcWidth
  import opened Utf16
  import opened Row
  import P = Page
  import TextStyle
  import opened Display
  import opened CsiArgs
  import opened TerminalState
  import opened Interpreter
  import opened Sequences
  import CursorOps

  /** The region between the margins has scrolled up by one line: its top line has become the newest one of the history,
      which keeps as many as there is room for, and a blank one has come in at the bottom. */
  predicate Scrolled(p: P.Page, p': P.Page, top: nat, bottom: nat, st: Style)
    requires top < bottom <= |p.screen|
  {
    && p'.columns == p.columns && |p'.screen| == |p.screen| && P.Total(p') == P.Total(p)
    && p'.history == P.Newest(p.history + [p.screen[top]], P.Total(p) - |p.screen|)
    && p'.screen[..bottom - 1] == p.screen[..top] + p.screen[top + 1..bottom]
    && p'.screen[bottom - 1].grid == Blanks(p.columns)
    && p'.screen[bottom - 1].style == seq(p.columns, _ => st)
    && p'.screen[bottom..] == p.screen[bottom..]
  }

  lemma ScrollIsScrolled(p: P.Page, top: nat, bottom: nat, st: Style)
    requires P.Good(p) && top < bottom <= |p.screen|
    ensures Scrolled(p, P.ScrollDownOneLine(p, top, bottom, st), top, bottom, st)
  {
    hide P.Good;
    var p' := P.ScrollDownOneLine(p, top, bottom, st);
    assert |p.screen[..top] + p.screen[top + 1..bottom]| == bottom - 1;
  }

  /** What a line feed does. At the bottom margin the region scrolls and the cursor stays; elsewhere the cursor moves
      down and the screen stays. On the last line of the screen below the region nothing happens at all. */
  predicate LineFed(t: Terminal, t': Terminal)
    requires t.margins.top < t.margins.bottom <= |Active(t.screens).screen|
  {
    if t.cursor.row + 1 == t.margins.bottom then
      && t' == t.(screens := WithActive(t.screens, Active(t'.screens)), cursor := t.cursor.(aboutToWrap := false))
      && Scrolled(Active(t.screens), Active(t'.screens), t.margins.top, t.margins.bottom, CurrentStyle(t))
    else if t.cursor.row == Rows(t) - 1 then t' == t
    else t' == t.(cursor := Cursor(t.cursor.row + 1, t.cursor.col, false))
  }

  lemma ScreenFits(t: Terminal)
    requires Inv(t)
    ensures t.margins.top < t.margins.bottom <= |Active(t.screens).screen| == Rows(t) && P.Good(Active(t.screens))
    ensures t.cursor.row < Rows(t)
  {
    hide P.Good, Styled;
  }

  lemma LinefeedFeeds(t: Terminal)
    requires Inv(t)
    ensures t.margins.top < t.margins.bottom <= |Active(t.screens).screen|
    ensures LineFed(t, Linefeed(t))
  {
    ScreenFits(t);
    hide Ok, P.Good, Scrolled, P.ScrollDownOneLine;
    ScrollIsScrolled(Active(t.screens), t.margins.top, t.margins.bottom, CurrentStyle(t));
  }

  // ----- The characters and sequences -----

  const IND: CodePoint := 68
  const NEL: CodePoint := 69

  /** LF, VT and FF, also in the middle of a sequence. */
  lemma LineFeedCharacter(t: Terminal, b: CodePoint)
    requires Inv(t) && b in {10, 11, 12}
    ensures t.margins.top < t.margins.bottom <= |Active(t.screens).screen|
    ensures Yields(t, [b], Linefeed(t)) && LineFed(t, Linefeed(t))
  {
    hide Inv, Yields, LineFed, Linefeed;
    FeedControl(t, b);
    LinefeedFeeds(t);
  }

  lemma OverKeeps(t: Terminal)
    requires Inv(t)
    ensures Inv(EscapeOver(t)) && Inv(Escaped(t))
  {
    hide Ok;
  }

  lemma LinefeedFinishes(t: Terminal)
    requires Inv(t) && Inv(EscapeOver(t)) && Inv(Escaped(t))
    ensures Finish(Linefeed(Escaped(t))) == Linefeed(EscapeOver(t))
  {
    hide Ok, NoArgs;
  }

  /** IND. */
  lemma Index(t: Terminal)
    requires Inv(t) && CanStart(t)
    ensures Inv(EscapeOver(t)) && t.margins.top < t.margins.bottom <= |Active(t.screens).screen|
    ensures Yields(t, [ESC, IND], Linefeed(EscapeOver(t))) && LineFed(EscapeOver(t), Linefeed(EscapeOver(t)))
  {
    hide Inv, Yields, LineFed, Linefeed, NoArgs;
    OverKeeps(t);
    FeedEscMotion(t, IND);
    LinefeedFinishes(t);
    LinefeedFeeds(EscapeOver(t));
  }

  /** NEL: a line feed from the first column. */
  lemma NextLineFeeds(t: Terminal)
    requires Inv(t) && CanStart(t)
    ensures var t1 := EscapeOver(t).(cursor := Cursor(t.cursor.row, 0, false));
      && Inv(t1) && t1.margins.top < t1.margins.bottom <= |Active(t1.screens).screen|
      && Yields(t, [ESC, NEL], Linefeed(t1)) && LineFed(t1, Linefeed(t1))
  {
    var t0 := t.(cursor := Cursor(t.cursor.row, 0, false));
    AtFirstColumn(t);
    hide Inv, Yields, LineFed, Linefeed, NoArgs;
    OverKeeps(t);
    OverKeeps(t0);
    FeedEscMotion(t, NEL);
    CursorOps.CursorInside(t);
    LinefeedFinishes(t0);
    LinefeedFeeds(EscapeOver(t0));
  }

  lemma AtFirstColumn(t: Terminal)
    requires Inv(t)
    ensures Inv(t.(cursor := Cursor(t.cursor.row, 0, false)))
  {
    hide Ok;
  }

  /** CR. */
  lemma CarriageReturns(t: Terminal)
    requires Inv(t)
    ensures Yields(t, [13], t.(cursor := Cursor(t.cursor.row, 0, false)))
  {
    hide Inv, Yields;
    CursorOps.CursorInside(t);
    FeedControl(t, 13);
  }

  // ----- Many line feeds -----

  function Linefeeds(t: Terminal, n: nat): (t': Terminal)
    requires Inv(t)
    ensures Inv(t')
    decreases n
  {
    hide Inv, Linefeed;
    if n == 0 then t else Linefeeds(Linefeed(t), n - 1)
  }

  lemma {:induction false} LineFeedCharacters(t: Terminal, n: nat)
    requires Inv(t)
    ensures Yields(t, seq(n, _ => 10), Linefeeds(t, n))
    decreases n
  {
    hide Inv, Yields, Linefeed, LineFed;
    if n == 0 {
      YieldsNothing(t);
    } else {
      var rest: seq<CodePoint> := seq(n - 1, _ => 10);
      assert seq(n, _ => 10) == [10] + rest;
      LineFeedCharacter(t, 10);
      LineFeedCharacters(Linefeed(t), n - 1);
      YieldsConcat(t, [10], Linefeed(t), rest, Linefeeds(t, n));
    }
  }

  /** `n` line feeds at the bottom margin scroll `n` times: what that does to the history and the region is said by
      `Page.ScrollsAreList`. */
  lemma {:induction false} LineFeedsScroll(t: Terminal, n: nat)
    requires Inv(t) && t.cursor.row + 1 == t.margins.bottom
    ensures t.margins.top < t.margins.bottom <= |Active(t.screens).screen| && P.Good(Active(t.screens))
    ensures Yields(t, seq(n, _ => 10), Linefeeds(t, n))
    ensures Active(Linefeeds(t, n).screens) ==
      P.Scrolls(Active(t.screens), t.margins.top, t.margins.bottom, CurrentStyle(t), n)
    decreases n
  {
    hide Inv, P.Good, P.Scrolls, Linefeed, P.ScrollDownOneLine, Yields;
    ScreenFits(t);
    LineFeedCharacters(t, n);
    if n == 0 {
      NoScroll(Active(t.screens), t.margins.top, t.margins.bottom, CurrentStyle(t));
    } else {
      AtBottom(t);
      LineFeedsScroll(Linefeed(t), n - 1);
      P.ScrollsFromFront(Active(t.screens), t.margins.top, t.margins.bottom, CurrentStyle(t), n);
    }
  }

  lemma NoScroll(p: P.Page, top: nat, bottom: nat, st: Style)
    requires P.Good(p) && top < bottom <= |p.screen|
    ensures P.Scrolls(p, top, bottom, st, 0) == p
  {
  }

  lemma AtBottom(t: Terminal)
    requires Inv(t) && t.cursor.row + 1 == t.margins.bottom
    requires t.margins.top < t.margins.bottom <= |Active(t.screens).screen|
    requires P.Good(Active(t.screens))
    ensures var t' := Linefeed(t);
      && t'.cursor.row == t.cursor.row && t'.margins == t.margins && t'.pen == t.pen
      && Active(t'.screens) == P.ScrollDownOneLine(Active(t.screens), t.margins.top, t.margins.bottom, CurrentStyle(t))
  {
    hide Ok, P.Good, P.ScrollDownOneLine;
  }
}
