/** The arithmetic of a circular array, and moving its elements around, on sequences. */
module Ring {

  /** The slot of the `k`-th element of a ring that starts at slot `first`: at most once around. */
  function Slot(first: nat, k: nat, total: nat): (slot: nat)
    requires 0 < total && k <= total
    ensures slot < total
  {
    var f := first % total;
    if f + k < total then f + k else f + k - total
  }

  lemma DivUnique(a: nat, m: nat, q: int, r: nat)
    requires r < m && a == q * m + r
    ensures a % m == r
  {
    var q', r' := a / m, a % m;
    assert a == q' * m + r';
    var d := q' - q;
    assert d * m == q' * m - q * m == r - r';
    AtLeastOnce(d, m);
  }

  lemma AtLeastOnce(d: int, m: nat)
    ensures d >= 1 ==> d * m >= m
    ensures d <= -1 ==> d * m + m <= 0
  {
    if d >= 1 {
      assert d * m == (d - 1) * m + m;
      MulNonNegative(d - 1, m);
    } else if d <= -1 {
      assert d * m + m == 0 - (-d - 1) * m;
      MulNonNegative(-d - 1, m);
    }
  }

  lemma MulNonNegative(a: nat, b: nat)
    ensures a * b >= 0
  {
  }

  /** The slots are what the source computes with a remainder. */
  lemma SlotIsMod(first: nat, k: nat, total: nat)
    requires 0 < total && k <= total
    ensures (first + k) % total == Slot(first, k, total)
  {
    var q, f := first / total, first % total;
    assert first == q * total + f;
    if f + k < total {
      DivUnique(first + k, total, q, f + k);
    } else {
      assert (q + 1) * total == q * total + total;
      DivUnique(first + k, total, q + 1, f + k - total);
    }
  }

  lemma SlotOfSmall(first: nat, total: nat)
    requires first < total
    ensures first % total == first
  {
  }

  lemma SlotFromZero(k: nat, total: nat)
    requires k < total
    ensures Slot(0, k, total) == k
  {
    SlotOfSmall(0, total);
  }

  lemma SlotsDiffer(first: nat, i: nat, j: nat, total: nat)
    requires i < j < total
    ensures Slot(first, i, total) != Slot(first, j, total)
  {
  }

  /** The ring that starts one element later. */
  lemma SlotOfNext(first: nat, k: nat, total: nat)
    requires 0 < total && k < total
    ensures Slot((first + 1) % total, k, total) == Slot(first, if k + 1 < total then k + 1 else 0, total)
  {
    SlotIsMod(first, 1, total);
    SlotOfSmall(Slot(first, 1, total), total);
  }

  /** Which element of the ring is in a slot. */
  function Position(first: nat, slot: nat, total: nat): (k: nat)
    requires slot < total
    ensures k < total
  {
    var f := first % total;
    if slot >= f then slot - f else slot + total - f
  }

  lemma PositionOfSlot(first: nat, slot: nat, total: nat)
    requires slot < total
    ensures Slot(first, Position(first, slot, total), total) == slot
  {
  }

  lemma PositionsDiffer(first: nat, a: nat, b: nat, total: nat)
    requires a < total && b < total && a != b
    ensures Position(first, a, total) != Position(first, b, total)
  {
  }

  // ----- Moving elements -----

  /** The element after a block goes in front of it; past the last element the ring continues with the first. */
  function MoveInFront<T>(ring: seq<T>, s: nat, len: nat): (r: seq<T>)
    requires len < |ring| && s + len <= |ring|
    ensures |r| == |ring|
  {
    if len == 0 then ring
    else if s + len < |ring| then
      ring[..s] + [ring[s + len]] + ring[s..s + len] + ring[s + len + 1..]
    else
      [ring[|ring| - 1]] + ring[1..s] + [ring[0]] + ring[s..|ring| - 1]
  }

  lemma MoveInFrontAt<T>(ring: seq<T>, s: nat, len: nat, k: nat)
    requires len < |ring| && s + len <= |ring| && k < |ring|
    ensures MoveInFront(ring, s, len)[k] ==
      if len == 0 then ring[k]
      else if k == s then ring[if s + len < |ring| then s + len else 0]
      else if s < k <= s + len then ring[k - 1]
      else if k == 0 && s + len == |ring| then ring[|ring| - 1]
      else ring[k]
  {
  }

  function Wrap(k: nat, total: nat): nat
    requires k <= total
  {
    if k < total then k else 0
  }

  /** The ring while elements s + i, ..., s + len - 1 have moved one place on. */
  function PartlyMoved<T>(ring: seq<T>, s: nat, len: nat, i: nat): (r: seq<T>)
    requires 0 < len < |ring| && s + len <= |ring| && i <= len
    ensures |r| == |ring|
    decreases len - i
  {
    if i == len then ring else PartlyMoved(ring, s, len, i + 1)[Wrap(s + i + 1, |ring|) := ring[s + i]]
  }

  lemma {:induction false} PartlyMovedAt<T>(ring: seq<T>, s: nat, len: nat, i: nat, k: nat)
    requires 0 < len < |ring| && s + len <= |ring| && i <= len && k < |ring|
    ensures PartlyMoved(ring, s, len, i)[k] ==
      if s + i < k <= s + len then ring[k - 1]
      else if k == 0 && s + len == |ring| && i < len then ring[|ring| - 1]
      else ring[k]
    decreases len - i
  {
    if i < len {
      PartlyMovedAt(ring, s, len, i + 1, k);
    }
  }

  lemma PartlyMovedStep<T>(ring: seq<T>, s: nat, len: nat, i: nat)
    requires 0 < len < |ring| && s + len <= |ring| && i < len
    ensures PartlyMoved(ring, s, len, i) ==
      PartlyMoved(ring, s, len, i + 1)[Wrap(s + i + 1, |ring|) := PartlyMoved(ring, s, len, i + 1)[s + i]]
  {
    PartlyMovedAt(ring, s, len, i + 1, s + i);
  }

  lemma PartlyMovedEnd<T>(ring: seq<T>, s: nat, len: nat)
    requires 0 < len < |ring| && s + len <= |ring|
    ensures PartlyMoved(ring, s, len, 0)[s := ring[Wrap(s + len, |ring|)]] == MoveInFront(ring, s, len)
  {
    forall k | 0 <= k < |ring|
      ensures PartlyMoved(ring, s, len, 0)[s := ring[Wrap(s + len, |ring|)]][k] == MoveInFront(ring, s, len)[k]
    {
      PartlyMovedAt(ring, s, len, 0, k);
      MoveInFrontAt(ring, s, len, k);
    }
  }

  /** The first element becomes the last. */
  function TurnOnce<T>(ring: seq<T>): (r: seq<T>)
    requires ring != []
    ensures |r| == |ring|
  {
    ring[1..] + [ring[0]]
  }

  /** The ring after the moves of a scroll of elements [top, bottom) among the first `rows`. */
  function Scrolled<T>(ring: seq<T>, top: nat, bottom: nat, rows: nat): (r: seq<T>)
    requires top < bottom <= rows <= |ring|
    ensures |r| == |ring|
  {
    TurnOnce(MoveInFront(MoveInFront(ring, 0, top), bottom, rows - bottom))
  }

  /** Which element is where after a scroll. */
  function ScrolledFrom(total: nat, top: nat, bottom: nat, rows: nat, k: nat): (j: nat)
    requires top < bottom <= rows <= total && k < total
    ensures j < total
  {
    if k < top then k
    else if k < bottom - 1 then k + 1
    else if k == bottom - 1 then if rows < total then rows else top
    else if k < rows then k
    else if k < total - 1 then k + 1
    else top
  }

  /** A scroll moves no two elements to the same place. */
  lemma ScrolledFromInjective(total: nat, top: nat, bottom: nat, rows: nat, i: nat, j: nat)
    requires top < bottom <= rows <= total && i < j < total
    ensures ScrolledFrom(total, top, bottom, rows, i) != ScrolledFrom(total, top, bottom, rows, j)
  {
  }

  lemma ScrolledAt<T>(ring: seq<T>, top: nat, bottom: nat, rows: nat, k: nat)
    requires top < bottom <= rows <= |ring| && k < |ring|
    ensures Scrolled(ring, top, bottom, rows)[k] == ring[ScrolledFrom(|ring|, top, bottom, rows, k)]
  {
    hide MoveInFront;
    var r1 := MoveInFront(ring, 0, top);
    var r2 := MoveInFront(r1, bottom, rows - bottom);
    var j := if k + 1 < |ring| then k + 1 else 0;
    assert TurnOnce(r2)[k] == r2[j];
    MoveInFrontAt(r1, bottom, rows - bottom, j);
    MoveInFrontAt(ring, 0, top, j);
    MoveInFrontAt(ring, 0, top, 0);
    MoveInFrontAt(ring, 0, top, |ring| - 1);
    MoveInFrontAt(ring, 0, top, k);
    MoveInFrontAt(ring, 0, top, if rows < |ring| then rows else 0);
  }
}
