/** Tab stops: what setting, clearing and moving to them means. */
module TabOps {
  import opened Common
  import opened Utf16
  import opened CsiArgs
  import opened TerminalState
  import opened Commands
  import opened Interpreter
  import opened Sequences
  import opened CursorOps

  /** How many tab stops there are in columns [from, to). */
  function Stops(tabStop: seq<bool>, from: nat, to: nat): nat
    requires from <= to <= |tabStop|
    decreases |tabStop| - from
  {
    if from == to then 0 else (if tabStop[from] then 1 else 0) + Stops(tabStop, from + 1, to)
  }

  lemma {:induction false} StopsSplit(tabStop: seq<bool>, from: nat, mid: nat, to: nat)
    requires from <= mid <= to <= |tabStop|
    ensures Stops(tabStop, from, to) == Stops(tabStop, from, mid) + Stops(tabStop, mid, to)
    decreases |tabStop| - from
  {
    if from < mid {
      StopsSplit(tabStop, from + 1, mid, to);
    }
  }

  /** The search finds the stop with `n - 1` others before it, or else ends in the last column. */
  lemma {:induction false} NextStopIs(tabStop: seq<bool>, i: nat, n: nat)
    requires 0 < n && i <= |tabStop| && 0 < |tabStop|
    ensures var col := NextTabStop(tabStop, i, n, |tabStop|);
      if n <= Stops(tabStop, i, |tabStop|) then i <= col < |tabStop| && tabStop[col] && Stops(tabStop, i, col) == n - 1
      else col == |tabStop| - 1
    decreases |tabStop| - i
  {
    if i < |tabStop| {
      if !tabStop[i] {
        NextStopIs(tabStop, i + 1, n);
      } else if n > 1 {
        NextStopIs(tabStop, i + 1, n - 1);
      }
    }
  }

  lemma {:induction false} PreviousStopIs(tabStop: seq<bool>, i: nat, n: nat)
    requires 0 < n && i <= |tabStop| && 0 < |tabStop|
    ensures var col := PreviousTabStop(tabStop, i - 1, n, 0);
      if n <= Stops(tabStop, 0, i) then 0 <= col < i && tabStop[col] && Stops(tabStop, col + 1, i) == n - 1
      else col == 0
    decreases i
  {
    if i > 0 {
      StopsSplit(tabStop, 0, i - 1, i);
      if !tabStop[i - 1] {
        PreviousStopIs(tabStop, i - 1, n);
        var col := PreviousTabStop(tabStop, i - 2, n, 0);
        if n <= Stops(tabStop, 0, i - 1) {
          StopsSplit(tabStop, col + 1, i - 1, i);
        }
      } else if n > 1 {
        PreviousStopIs(tabStop, i - 1, n - 1);
        var col := PreviousTabStop(tabStop, i - 2, n - 1, 0);
        if n - 1 <= Stops(tabStop, 0, i - 1) {
          StopsSplit(tabStop, col + 1, i - 1, i);
        }
      }
    }
  }

  /** Column `c` is that of the `n`-th tab stop to the right of column `col`, or the last one if there are fewer. */
  predicate IsStopAfter(tabStop: seq<bool>, col: nat, n: nat, c: int)
    requires col < |tabStop|
  {
    if n <= Stops(tabStop, col + 1, |tabStop|) then
      col < c < |tabStop| && tabStop[c] && Stops(tabStop, col + 1, c) == n - 1
    else c == |tabStop| - 1
  }

  /** Column `c` is that of the `n`-th tab stop to the left of column `col`, or the first one if there are fewer. */
  predicate IsStopBefore(tabStop: seq<bool>, col: nat, n: nat, c: int)
    requires col < |tabStop|
  {
    if n <= Stops(tabStop, 0, col) then 0 <= c < col && tabStop[c] && Stops(tabStop, c + 1, col) == n - 1
    else c == 0
  }

  function StopAfter(tabStop: seq<bool>, col: nat, n: nat): (c: nat)
    requires col < |tabStop| && 0 < n
    ensures IsStopAfter(tabStop, col, n, c)
  {
    NextStopIs(tabStop, col + 1, n);
    NextTabStop(tabStop, col + 1, n, |tabStop|)
  }

  function StopBefore(tabStop: seq<bool>, col: nat, n: nat): (c: nat)
    requires col < |tabStop| && 0 < n
    ensures IsStopBefore(tabStop, col, n, c)
  {
    PreviousStopIs(tabStop, col, n);
    PreviousTabStop(tabStop, col - 1, n, 0)
  }

  /** There is only one such column. */
  lemma StopAfterIsUnique(tabStop: seq<bool>, col: nat, n: nat, c: int)
    requires col < |tabStop| && 0 < n && IsStopAfter(tabStop, col, n, c)
    ensures c == StopAfter(tabStop, col, n)
  {
    var d := StopAfter(tabStop, col, n);
    if n <= Stops(tabStop, col + 1, |tabStop|) {
      var low, high := if c < d then c else d, if c < d then d else c;
      StopsSplit(tabStop, col + 1, low, high);
    }
  }

  lemma StopBeforeIsUnique(tabStop: seq<bool>, col: nat, n: nat, c: int)
    requires col < |tabStop| && 0 < n && IsStopBefore(tabStop, col, n, c)
    ensures c == StopBefore(tabStop, col, n)
  {
    var d := StopBefore(tabStop, col, n);
    if n <= Stops(tabStop, 0, col) {
      var low, high := if c < d then c else d, if c < d then d else c;
      if low < high {
        StopsSplit(tabStop, low + 1, high, col);
      }
    }
  }

  const CHT: CodePoint := 73
  const CBT: CodePoint := 90
  const TBC: CodePoint := 103
  const HTS: CodePoint := 72

  /** HT moves to the next tab stop; a pending wrap stays pending. */
  lemma Tabulates(t: Terminal)
    requires Inv(t)
    ensures t.cursor.col < |t.tabStop|
    ensures Yields(t, [9], t.(cursor := t.cursor.(col := StopAfter(t.tabStop, t.cursor.col, 1))))
  {
    hide Inv, Yields, IsStopAfter;
    CursorInside(t);
    FeedControl(t, 9);
  }

  /** CHT moves to the `n`-th tab stop to the right. */
  lemma TabulatesForward(t: Terminal, params: seq<Param>)
    requires Inv(t) && CanStart(t)
    ensures t.cursor.col < |t.tabStop|
    ensures var col := StopAfter(t.tabStop, t.cursor.col, Count(params));
      Yields(t, ControlSequence(params, CHT), Moved(t, params, t.cursor.row, col))
  {
    hide Inv, Yields, ControlSequence, Meaning, IsStopAfter;
    CursorInside(t);
    FeedTab(t, params, CHT);
    ArgIsNth(t, params, 0, 1);
  }

  /** CBT moves to the `n`-th tab stop to the left; a pending wrap stays pending. */
  lemma TabulatesBackward(t: Terminal, params: seq<Param>)
    requires Inv(t) && CanStart(t)
    ensures t.cursor.col < |t.tabStop|
    ensures var col := StopBefore(t.tabStop, t.cursor.col, Count(params));
      Yields(t, ControlSequence(params, CBT), Over(t, params).(cursor := t.cursor.(col := col)))
  {
    hide Inv, Yields, ControlSequence, Meaning, IsStopBefore;
    CursorInside(t);
    FeedTab(t, params, CBT);
    ArgIsNth(t, params, 0, 1);
  }

  /** HTS sets a tab stop in the cursor's column. */
  lemma SetsTabStop(t: Terminal)
    requires Inv(t) && CanStart(t)
    ensures t.cursor.col < |t.tabStop|
    ensures Yields(t, [ESC, HTS], EscapeOver(t).(tabStop := t.tabStop[t.cursor.col := true]))
  {
    hide Inv, Yields;
    CursorInside(t);
    FeedEscSetting(t, HTS);
  }

  /** TBC clears the one in the cursor's column, or all of them. */
  lemma ClearsTabStop(t: Terminal, params: seq<Param>)
    requires Inv(t) && CanStart(t)
    ensures t.cursor.col < |t.tabStop|
    ensures Nth(params, 0, 0) == 0 ==>
      Yields(t, ControlSequence(params, TBC), Over(t, params).(tabStop := t.tabStop[t.cursor.col := false]))
    ensures Nth(params, 0, 0) == 3 ==>
      Yields(t, ControlSequence(params, TBC), Over(t, params).(tabStop := seq(Columns(t), _ => false)))
  {
    hide Inv, Yields, ControlSequence, Meaning;
    CursorInside(t);
    FeedMode(t, params, TBC);
    ArgIsNth(t, params, 0, 0);
  }
}
