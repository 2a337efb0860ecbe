/** The UTF-16 arithmetic of java.lang.Character used by TerminalRow. */
module Utf16 {

  type CodeUnit = u: int | 0 <= u < 0x1_0000

  /** A Unicode scalar value: never a lone surrogate. */
  type CodePoint = c: int | 0 <= c < 0xD800 || 0xE000 <= c < 0x11_0000

  const SPACE: CodePoint := 32

  predicate IsHighSurrogate(u: CodeUnit) {
    0xD800 <= u < 0xDC00
  }

  function CharCount(c: CodePoint): nat {
    if c >= 0x1_0000 then 2 else 1
  }

  function ToCodePoint(high: CodeUnit, low: CodeUnit): int {
    (high - 0xD800) * 0x400 + (low - 0xDC00) + 0x1_0000
  }

  /** The one or two units that Character.toChars writes. */
  function ToChars(c: CodePoint): (units: seq<CodeUnit>)
    ensures |units| == CharCount(c)
    ensures IsHighSurrogate(units[0]) <==> |units| == 2
    ensures c == if |units| == 2 then ToCodePoint(units[0], units[1]) else units[0]
  {
    if c >= 0x1_0000 then
      [0xD800 + (c - 0x1_0000) / 0x400, 0xDC00 + (c - 0x1_0000) % 0x400]
    else
      [c]
  }

  /** The UTF-16 text of a list of code points. */
  function Units(s: seq<CodePoint>): seq<CodeUnit> {
    if s == [] then [] else ToChars(s[0]) + Units(s[1..])
  }

  lemma NoUnits()
    ensures Units([]) == []
  {
  }

  lemma {:induction false} UnitsConcat(s: seq<CodePoint>, t: seq<CodePoint>)
    ensures Units(s + t) == Units(s) + Units(t)
  {
    if s == [] {
      assert s + t == t;
    } else {
      var s', p, q := s[1..], ToChars(s[0]), Units(t);
      calc {
        Units(s + t);
        { assert (s + t)[1..] == s' + t && (s + t)[0] == s[0]; }
        p + Units(s' + t);
        { UnitsConcat(s', t); }
        p + (Units(s') + q);
        (p + Units(s')) + q;
      }
    }
  }

  lemma UnitsHead(c: CodePoint, s: seq<CodePoint>)
    ensures Units([c] + s) == ToChars(c) + Units(s)
  {
    assert ([c] + s)[1..] == s;
  }

  lemma {:induction false} UnitsLength(s: seq<CodePoint>)
    ensures |Units(s)| >= |s|
  {
    if s != [] {
      UnitsLength(s[1..]);
    }
  }

  lemma UnitsSingleton(c: CodePoint)
    ensures Units([c]) == ToChars(c)
  {
    assert [c][1..] == [];
    assert Units([]) == [];
  }

  /** Equal texts come from equal code point lists: no information is lost in the buffer. */
  lemma {:induction false} UnitsInjective(s: seq<CodePoint>, t: seq<CodePoint>)
    requires Units(s) == Units(t)
    ensures s == t
  {
    UnitsLength(s);
    UnitsLength(t);
    if s != [] {
      assert Units(s)[0] == ToChars(s[0])[0];
      assert Units(t)[0] == ToChars(t[0])[0];
      assert |ToChars(s[0])| == 2 ==> Units(s)[1] == ToChars(s[0])[1];
      assert |ToChars(t[0])| == 2 ==> Units(t)[1] == ToChars(t[0])[1];
      assert s[0] == t[0];
      assert Units(s[1..]) == Units(s)[CharCount(s[0])..];
      assert Units(t[1..]) == Units(t)[CharCount(t[0])..];
      UnitsInjective(s[1..], t[1..]);
    }
  }

  lemma AppendAssoc<T>(a: seq<T>, b: seq<T>, c: seq<T>)
    ensures a + b + c == a + (b + c)
  {
  }

  /** The parts of a buffer whose used prefix is the concatenation of three texts. */
  lemma BufferParts(buffer: array<CodeUnit>, used: nat, a: seq<CodeUnit>, b: seq<CodeUnit>, c: seq<CodeUnit>)
    requires used <= buffer.Length && buffer[..used] == a + b + c
    ensures |a| + |b| <= used
    ensures buffer[..|a|] == a
    ensures buffer[|a|..|a| + |b|] == b
    ensures buffer[|a| + |b|..used] == c
  {
    var t := buffer[..used];
    assert buffer[..|a|] == t[..|a|];
    assert buffer[|a|..|a| + |b|] == t[|a|..|a| + |b|];
    assert buffer[|a| + |b|..used] == t[|a| + |b|..];
  }

  /** A buffer that holds `c` and then `left` from index `at` on. */
  lemma BufferHead(buffer: array<CodeUnit>, at: nat, used: nat, c: CodePoint, left: seq<CodeUnit>)
    requires at <= used <= buffer.Length && buffer[at..used] == ToChars(c) + left
    ensures at + CharCount(c) <= used
    ensures IsHighSurrogate(buffer[at]) <==> CharCount(c) == 2
    ensures c == if CharCount(c) == 2 then ToCodePoint(buffer[at], buffer[at + 1]) else buffer[at]
    ensures buffer[at + CharCount(c)..used] == left
  {
    var t := buffer[at..used];
    assert buffer[at] == t[0] == ToChars(c)[0];
    assert CharCount(c) == 2 ==> buffer[at + 1] == t[1] == ToChars(c)[1];
    assert buffer[at + CharCount(c)..used] == t[CharCount(c)..];
  }

  lemma BufferGlue(buffer: array<CodeUnit>, at: nat, used: nat)
    requires at <= used <= buffer.Length
    ensures buffer[..used] == buffer[..at] + buffer[at..used]
  {
  }
}
