/** A new size of the window, as the terminal sees it: the screen shown is resized with the cursor on it, the margins of
    a side that changes are the edges again, and the tab stops of the columns that stay are kept. */
module ResizeOps {
  import opened Common
  import opened Row
  import opened Display
  import opened TerminalState
  import opened CursorOps
  import P = Page
  import Reflow
  import Styles
  import Sgr
  import CsiArgs

  /** Every eighth column but the first. */
  predicate DefaultStop(i: nat) {
    i % 8 == 0 && 0 < i
  }

  /** The page and the cursor that `Reflow` makes of those shown. */
  function Fitted(t: Terminal, columns: nat, rows: nat): Reflow.Resized
    requires Inv(t) && 2 <= columns && 2 <= rows <= P.Total(t.screens.main)
  {
    ActiveIsGood(t.screens);
    var p := Active(t.screens);
    Reflow.Resize(p, columns, rows, if t.screens.onAlt then rows else P.Total(p), t.cursor.col, t.cursor.row,
                  CurrentStyle(t), t.screens.onAlt)
  }

  /** The shown screen has the new size and the other one is as it was; nothing but the screen, the cursor's place, the
      margins and the tab stops changes. */
  lemma Resizes(t: Terminal, columns: nat, rows: nat)
    requires Inv(t) && 2 <= columns && 2 <= rows <= P.Total(t.screens.main)
    requires columns != Columns(t) || rows != Rows(t)
    ensures var t', r := TerminalState.Resize(t, columns, rows), Fitted(t, columns, rows);
      && Active(t'.screens) == r.page && t'.screens.onAlt == t.screens.onAlt
      && (if t.screens.onAlt then t'.screens.main == t.screens.main else t'.screens.alt == t.screens.alt)
      && t'.cursor == t.cursor.(row := r.row, col := r.col)
      && t'.margins == Margins(if rows == Rows(t) then t.margins.top else 0,
                               if rows == Rows(t) then t.margins.bottom else rows,
                               if columns == Columns(t) then t.margins.left else 0,
                               if columns == Columns(t) then t.margins.right else columns)
      && |t'.tabStop| == columns
      && (forall i :: 0 <= i < columns ==>
            (t'.tabStop[i] <==> if i < Columns(t) then t.tabStop[i] else DefaultStop(i)))
      && t' == t.(screens := t'.screens, cursor := t'.cursor, margins := t'.margins, tabStop := t'.tabStop)
  {
    var t1 := Sized(t, columns, rows);
    ActiveIsGood(t.screens);
    hide Styles.PageEncoded, P.Good, Sgr.PenOk, CsiArgs.ArgsOk, SavedOk, Reflow.Resize;
    assert Active(t1.screens) == Active(t.screens);
  }

  /** Tab stops survive a change of columns and back exactly when those of the columns lost are the default ones. */
  lemma TabStopsComeBackExactly(stops: seq<bool>, columns: nat)
    ensures ResizedTabStops(ResizedTabStops(stops, columns), |stops|) == stops <==>
      forall i :: columns <= i < |stops| ==> (stops[i] <==> DefaultStop(i))
  {
    var s := ResizedTabStops(ResizedTabStops(stops, columns), |stops|);
    assert forall i :: 0 <= i < |stops| ==> (s[i] <==> if i < columns then stops[i] else DefaultStop(i));
  }
}
