/** Display widths of code points (WcWidth.java).

    The literal Unicode tables are not transcribed. `TABLES` is a constant about which the verifier knows
    only what its type says, so everything proved here holds for every choice of tables of that shape. */
module WcWidth {

  datatype Interval = Interval(lo: int, hi: int)

  /** Character data that the source reads from literal tables or from the Java runtime. */
  datatype CharacterData = CharacterData(
    zeroWidth: seq<Interval>,    // code points that combine with the preceding one
    wide: seq<Interval>,         // code points that take two columns
    unassigned: seq<Interval>,   // code points of Character.getType() UNASSIGNED, in Unicode's range
    lineDrawing: map<int, int>)  // the DEC special graphics set

  predicate SortedDisjoint(table: seq<Interval>) {
    && |table| > 0
    && (forall i :: 0 <= i < |table| ==> table[i].lo <= table[i].hi)
    && (forall i, j :: 0 <= i < j < |table| ==> table[i].hi < table[j].lo)
  }

  /** The facts about the source's literals that are used: sorted, disjoint, nothing below U+0300, and that U+FFFF is
      unassigned but U+FFFD is not. */
  type Tables = d: CharacterData
    | && SortedDisjoint(d.zeroWidth) && d.zeroWidth[0].lo >= 0x300
      && SortedDisjoint(d.wide) && d.wide[0].lo >= 0x300
      && SortedDisjoint(d.unassigned) && d.unassigned[0].lo >= 0x300
      && !InTable(d.unassigned, 0xFFFD) && InTable(d.unassigned, 0xFFFF)
      && (forall c :: c in d.lineDrawing ==> 0 <= d.lineDrawing[c] < 0xD800)
    witness CharacterData([Interval(0x300, 0x36F)], [Interval(0x1100, 0x115F)], [Interval(0xFFFE, 0xFFFF)], map[])

  const TABLES: Tables

  /** The linear-scan meaning of a table. */
  predicate InTable(table: seq<Interval>, c: int) {
    exists i :: 0 <= i < |table| && table[i].lo <= c <= table[i].hi
  }

  method Intable(table: seq<Interval>, c: int) returns (found: bool)
    requires SortedDisjoint(table)
    ensures found <==> InTable(table, c)
  {
    if c < table[0].lo {
      return false;
    }
    var bot, top := 0, |table| - 1;
    while top >= bot
      invariant 0 <= bot <= top + 1 <= |table|
      invariant forall i :: 0 <= i < bot ==> table[i].hi < c
      invariant forall i :: top < i < |table| ==> c < table[i].lo
    {
      var mid := (bot + top) / 2;
      if table[mid].hi < c {
        bot := mid + 1;
      } else if table[mid].lo > c {
        top := mid - 1;
      } else {
        return true;
      }
    }
    return false;
  }

  /** Format characters and separators listed by the source one by one. */
  predicate Invisible(ucs: int) {
    || ucs == 0
    || ucs == 0x034F
    || 0x200B <= ucs <= 0x200F
    || ucs == 0x2028
    || ucs == 0x2029
    || 0x202A <= ucs <= 0x202E
    || 0x2060 <= ucs <= 0x2063
  }

  predicate Control(ucs: int) {
    ucs < 32 || 0x07F <= ucs < 0x0A0
  }

  /** The display width as a linear-scan specification. */
  function Width(ucs: int): (w: int)
    ensures 0 <= w <= 2
  {
    if Invisible(ucs) || Control(ucs) || InTable(TABLES.zeroWidth, ucs) then 0
    else if InTable(TABLES.wide, ucs) then 2
    else 1
  }

  method ComputeWidth(ucs: int) returns (w: int)
    ensures w == Width(ucs)
  {
    if Invisible(ucs) {
      return 0;
    }
    if Control(ucs) {
      return 0;
    }
    var combining := Intable(TABLES.zeroWidth, ucs);
    if combining {
      return 0;
    }
    var wide := Intable(TABLES.wide, ucs);
    return if wide then 2 else 1;
  }

  /** Nothing below the first interval of a sorted table is in it. */
  lemma BelowTable(table: seq<Interval>, c: int)
    requires SortedDisjoint(table) && c < table[0].lo
    ensures !InTable(table, c)
  {
    forall i | 0 <= i < |table| ensures c < table[i].lo {
      if i > 0 {
        assert table[0].hi < table[i].lo;
      }
    }
  }

  /** Printable Latin-1 characters, the space among them, take exactly one column. */
  lemma LatinIsNarrow(c: int)
    requires 32 <= c <= 126 || 160 <= c <= 255
    ensures Width(c) == 1
  {
    BelowTable(TABLES.zeroWidth, c);
    BelowTable(TABLES.wide, c);
  }
}
