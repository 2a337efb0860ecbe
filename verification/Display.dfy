/** The main and the alternate buffer of a terminal as values, and the edits of the one that is shown. */
module Display {
  import opened WcWidth
  import opened Utf16
  import opened Row
  import P = Page
  import Reflow
  import TextStyle
  import Styles

  type Page = P.Page

  datatype Screens = Screens(columns: nat, rows: nat, main: Page, alt: Page, onAlt: bool)

  function Active(s: Screens): Page {
    if s.onAlt then s.alt else s.main
  }

  function WithActive(s: Screens, p: Page): Screens {
    if s.onAlt then s.(alt := p) else s.(main := p)
  }

  /** A buffer of the alternate screen holds the screen and nothing else. */
  predicate AltOk(p: Page) {
    P.Good(p) && p.history == [] && p.spare == []
  }

  predicate Fits(p: Page, columns: nat, rows: nat) {
    p.columns == columns && |p.screen| == rows
  }

  /** All styles in the two buffers are encodings. */
  ghost predicate Styled(s: Screens) {
    Styles.PageEncoded(s.main) && Styles.PageEncoded(s.alt)
  }

  ghost predicate Ok(s: Screens) {
    && 2 <= s.columns && 2 <= s.rows && s.rows <= P.Total(s.main)
    && P.Good(s.main) && s.main.first < P.Total(s.main) && AltOk(s.alt)
    && Fits(Active(s), s.columns, s.rows) && Styled(s)
  }

  /** Nothing but the active buffer has changed. */
  predicate OnlyActive(s: Screens, s': Screens) {
    s' == WithActive(s, Active(s'))
  }

  /** An edit of cells keeps the shape of a buffer. */
  predicate Edited(p: Page, p': Page) {
    P.Good(p') && p' == p.(screen := p'.screen) && |p'.screen| == |p.screen|
  }

  lemma ActiveIsGood(s: Screens)
    requires Ok(s)
    ensures P.Good(Active(s)) && Fits(Active(s), s.columns, s.rows) && Styles.PageEncoded(Active(s))
  {
    hide Styles.PageEncoded;
  }

  lemma EditKeeps(s: Screens, p: Page)
    requires Ok(s) && Edited(Active(s), p) && Styles.PageEncoded(p)
    ensures Ok(WithActive(s, p)) && OnlyActive(s, WithActive(s, p))
  {
    hide P.Good, Styles.PageEncoded;
  }

  function SetChar(s: Screens, column: nat, row: nat, c: CodePoint, st: Style): (s': Screens)
    requires Ok(s) && row < s.rows && column < s.columns && column + Width(c) <= s.columns && TextStyle.IsEncoded(st)
    ensures Ok(s') && OnlyActive(s, s')
  {
    ActiveIsGood(s);
    var p := P.SetChar(Active(s), column, row, c, st);
    Styles.SetCharEncoded(Active(s), column, row, c, st);
    EditKeeps(s, p);
    WithActive(s, p)
  }

  /** Filling with spaces; a negative height fills nothing. */
  function Clear(s: Screens, x: nat, y: nat, w: nat, h: int, st: Style): (s': Screens)
    requires Ok(s) && x + w <= s.columns && y + h <= s.rows && TextStyle.IsEncoded(st)
    ensures Ok(s') && OnlyActive(s, s')
  {
    LatinIsNarrow(SPACE);
    hide Ok, TextStyle.IsEncoded;
    if h > 0 then Fill(s, x, y, w, h, SPACE, st) else s
  }

  function Fill(s: Screens, x: nat, y: nat, w: nat, h: nat, c: CodePoint, st: Style): (s': Screens)
    requires Ok(s) && x + w <= s.columns && y + h <= s.rows && Width(c) == 1 && TextStyle.IsEncoded(st)
    ensures Ok(s') && OnlyActive(s, s')
  {
    ActiveIsGood(s);
    var p := P.BlockSet(Active(s), x, y, w, h, c, st);
    P.BlockSetRows(Active(s), x, y, w, h, c, st, 0);
    Styles.BlockSetEncoded(Active(s), x, y, w, h, c, st);
    EditKeeps(s, p);
    WithActive(s, p)
  }

  ghost function Copy(s: Screens, b: P.Block): (s': Screens)
    requires Ok(s) && P.Fits(b, s.columns, s.rows)
    ensures Ok(s') && OnlyActive(s, s')
  {
    ActiveIsGood(s);
    var p := P.BlockCopy(Active(s), b);
    Styles.BlockCopyEncoded(Active(s), b);
    EditKeeps(s, p);
    WithActive(s, p)
  }

  function SetWrap(s: Screens, row: nat, wrap: bool): (s': Screens)
    requires Ok(s) && row < s.rows
    ensures Ok(s') && OnlyActive(s, s')
  {
    ActiveIsGood(s);
    var p := P.SetLineWrap(Active(s), row, wrap);
    Styles.SetLineWrapEncoded(Active(s), row, wrap);
    EditKeeps(s, p);
    WithActive(s, p)
  }

  function GetWrap(s: Screens, row: nat): bool
    requires Ok(s) && row < s.rows
  {
    Active(s).screen[row].wrap
  }

  function StyleAt(s: Screens, row: nat, column: nat): (st: Style)
    requires Ok(s) && row < s.rows && column < s.columns
    ensures TextStyle.IsEncoded(st)
  {
    ActiveIsGood(s);
    assert P.GoodRow(Active(s).screen[row], s.columns);
    assert Styles.RowEncoded(Active(s).screen[row]);
    hide TextStyle.IsEncoded;
    Active(s).screen[row].style[column]
  }

  function ChangeEffects(s: Screens, e: P.Change): (s': Screens)
    requires Ok(s) && P.ChangeFits(Active(s), e)
    ensures Ok(s') && OnlyActive(s, s')
  {
    ActiveIsGood(s);
    var p := P.SetOrClearEffect(Active(s), e, e.top);
    P.EffectEdits(Active(s), e, e.top);
    Styles.EffectsEncoded(Active(s), e);
    EditKeeps(s, p);
    WithActive(s, p)
  }

  /** Reversing the same effects twice restores every cell style. */
  lemma ReverseTwice(s: Screens, e: P.Change)
    requires Ok(s) && P.ChangeFits(Active(s), e) && e.reverse
    ensures P.ChangeFits(Active(ChangeEffects(s, e)), e) && ChangeEffects(ChangeEffects(s, e), e) == s
  {
    ActiveIsGood(s);
    hide P.Good, Styles.RowEncoded, P.SetOrClearEffect;
    P.EffectEdits(Active(s), e, e.top);
    Styles.ReverseTwice(Active(s), e);
  }

  function ScrollUp(s: Screens, top: nat, bottom: nat, st: Style): (s': Screens)
    requires Ok(s) && top < bottom <= s.rows && TextStyle.IsEncoded(st)
    ensures Ok(s') && OnlyActive(s, s')
  {
    ActiveIsGood(s);
    hide P.Good, Styles.PageEncoded, TextStyle.IsEncoded;
    Styles.ScrollEncoded(Active(s), top, bottom, st);
    WithActive(s, P.ScrollDownOneLine(Active(s), top, bottom, st))
  }

  function ForgetHistory(s: Screens): (s': Screens)
    requires Ok(s)
    ensures Ok(s') && s' == s.(main := s'.main) && s'.main.screen == s.main.screen
  {
    hide P.Good, Styles.PageEncoded;
    Styles.ClearTranscriptEncoded(s.main);
    s.(main := P.ClearTranscript(s.main))
  }

  /** Switching to the other buffer, which may still have an old size. */
  ghost predicate OkButSize(s: Screens) {
    && 2 <= s.columns && 2 <= s.rows && s.rows <= P.Total(s.main)
    && P.Good(s.main) && s.main.first < P.Total(s.main) && AltOk(s.alt) && Styled(s)
  }

  function NewTotal(s: Screens): nat {
    if s.onAlt then s.rows else P.Total(s.main)
  }

  /** Brings the active buffer to the terminal's size; also returns where the cursor goes. */
  function Resize(s: Screens, col: nat, row: nat, st: Style): (r: (Screens, int, int))
    requires OkButSize(s) && TextStyle.IsEncoded(st)
    ensures Ok(r.0) && OnlyActive(s, r.0)
    ensures (col < Active(s).columns && row < |Active(s).screen|) || (s.onAlt && col < s.columns && row < s.rows) ==>
      0 <= r.1 < s.columns && 0 <= r.2 < s.rows
  {
    assert Reflow.CanResize(Active(s), s.columns, s.rows, NewTotal(s), s.onAlt);
    hide Styles.PageEncoded, TextStyle.IsEncoded;
    var p := Active(s);
    var r := Reflow.Resize(p, s.columns, s.rows, NewTotal(s), col, row, st, s.onAlt);
    Styles.ResizeEncoded(p, s.columns, s.rows, NewTotal(s), col, row, st, s.onAlt);
    Reflow.ResizedNumbers(p, s.columns, s.rows, NewTotal(s), col, row, st, s.onAlt);
    if (col < p.columns && row < |p.screen|) || (s.onAlt && col < s.columns && row < s.rows) then
      Reflow.ResizedCursorOnScreen(p, s.columns, s.rows, NewTotal(s), col, row, st, s.onAlt);
      (WithActive(s, r.page), r.col, r.row)
    else
      (WithActive(s, r.page), r.col, r.row)
  }

  function Switch(s: Screens, onAlt: bool): (s': Screens)
    requires Ok(s)
    ensures OkButSize(s')
  {
    s.(onAlt := onAlt)
  }

  /** Shows the other buffer, and brings it to the terminal's size if it has another one: then also returns where the
      cursor goes. */
  function SwitchTo(s: Screens, onAlt: bool, col: nat, row: nat, st: Style): (r: (Screens, bool, int, int))
    requires Ok(s) && onAlt != s.onAlt && TextStyle.IsEncoded(st)
    requires if onAlt then col < s.columns && row < s.rows else col < s.main.columns && row < |s.main.screen|
    ensures Ok(r.0) && r.0.onAlt == onAlt && r.0.columns == s.columns && r.0.rows == s.rows
    ensures if onAlt then r.0.main == s.main else r.0.alt == s.alt
    ensures r.1 ==> 0 <= r.2 < s.columns && 0 <= r.3 < s.rows
    ensures !onAlt && Fits(s.main, s.columns, s.rows) ==> !r.1 && r.0.main == s.main
  {
    hide P.Good, TextStyle.IsEncoded;
    var s1 := Switch(s, onAlt);
    if Fits(Active(s1), s.columns, s.rows) then (s1, false, 0, 0)
    else
      var (s2, newCol, newRow) := Resize(s1, col, row, st);
      (s2, true, newCol, newRow)
  }

  function SetSize(s: Screens, columns: nat, rows: nat): (s': Screens)
    requires Ok(s) && 2 <= columns && 2 <= rows <= P.Total(s.main)
    ensures OkButSize(s')
  {
    s.(columns := columns, rows := rows)
  }

  function Initial(columns: nat, total: nat, rows: nat): (s: Screens)
    requires 2 <= columns && 2 <= rows <= total
    ensures Ok(s)
  {
    Styles.InitialEncoded(columns, total, rows);
    Styles.InitialEncoded(columns, rows, rows);
    Screens(columns, rows, P.Initial(columns, total, rows), P.Initial(columns, rows, rows), false)
  }
}
