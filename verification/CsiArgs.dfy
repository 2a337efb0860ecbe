/** The numeric arguments of a control sequence: TerminalEmulator.parseArg and getArg. */
module CsiArgs {
  import opened Common
  import opened Utf16
  import P = Page

  const MAX_ESCAPE_PARAMETERS := 16

  const DIGIT_0: CodePoint := 48
  const SEMICOLON: CodePoint := 59

  /** The argument values, -1 where nothing was given, and which argument is being read. */
  datatype Args = Args(values: seq<int>, index: nat)

  predicate ArgsOk(a: Args) {
    && |a.values| == MAX_ESCAPE_PARAMETERS && a.index <= MAX_ESCAPE_PARAMETERS
    && forall i :: 0 <= i < |a.values| ==> -1 <= a.values[i]
  }

  /** Before the first argument is read. */
  function NoArgs(): (a: Args)
    ensures ArgsOk(a)
  {
    Args(seq(MAX_ESCAPE_PARAMETERS, _ => -1), 0)
  }

  predicate IsDigit(b: int) {
    DIGIT_0 <= b <= DIGIT_0 + 9
  }

  predicate IsArgChar(b: int) {
    IsDigit(b) || b == SEMICOLON
  }

  /** One character of an argument list. Arguments beyond the sixteenth are read but not kept. */
  function ParseArg(a: Args, b: int): (a': Args)
    requires ArgsOk(a) && IsArgChar(b)
    ensures ArgsOk(a')
  {
    if b == SEMICOLON then
      if a.index < |a.values| then a.(index := a.index + 1) else a
    else if a.index < |a.values| then
      var oldValue, thisDigit := a.values[a.index], b - DIGIT_0;
      a.(values := a.values[a.index := if oldValue >= 0 then oldValue * 10 + thisDigit else thisDigit])
    else a
  }

  function GetArg(a: Args, index: nat, defaultValue: int, treatZeroAsDefault: bool): int
    requires ArgsOk(a) && index < MAX_ESCAPE_PARAMETERS
  {
    var result := a.values[index];
    if result < 0 || (result == 0 && treatZeroAsDefault) then defaultValue else result
  }

  /** The last argument to be looked at by commands that go through all of them. */
  function LastArg(a: Args): nat
    requires ArgsOk(a)
  {
    if a.index >= MAX_ESCAPE_PARAMETERS then MAX_ESCAPE_PARAMETERS - 1 else a.index
  }

  function ParseAll(a: Args, s: seq<int>): (a': Args)
    requires ArgsOk(a) && forall i :: 0 <= i < |s| ==> IsArgChar(s[i])
    ensures ArgsOk(a')
    decreases s
  {
    if s == [] then a else ParseAll(ParseArg(a, s[0]), s[1..])
  }

  // ----- Printing -----

  type Param = Option<nat>

  function Decimal(n: nat): (s: seq<CodePoint>)
    ensures forall i :: 0 <= i < |s| ==> IsDigit(s[i])
  {
    if n < 10 then [DIGIT_0 + n] else Decimal(n / 10) + [DIGIT_0 + n % 10]
  }

  function PrintParam(p: Param): (s: seq<CodePoint>)
    ensures forall i :: 0 <= i < |s| ==> IsArgChar(s[i])
  {
    if p.None? then [] else Decimal(p.value)
  }

  /** A list of optional numbers in decimal, with semicolons between them. */
  function Print(params: seq<Param>): (s: seq<CodePoint>)
    ensures forall i :: 0 <= i < |s| ==> IsArgChar(s[i])
  {
    if params == [] then []
    else if |params| == 1 then PrintParam(params[0])
    else Print(params[..|params| - 1]) + [SEMICOLON] + PrintParam(params[|params| - 1])
  }

  function Value(p: Param): int {
    if p.None? then -1 else p.value
  }

  /** The arguments that a printed list stands for. */
  function Meaning(params: seq<Param>): Args {
    Args(seq(MAX_ESCAPE_PARAMETERS, i => if 0 <= i < |params| then Value(params[i]) else -1),
         if |params| == 0 then 0 else if |params| <= MAX_ESCAPE_PARAMETERS then |params| - 1 else MAX_ESCAPE_PARAMETERS)
  }

  lemma {:induction false} ParseConcat(a: Args, s: seq<int>, t: seq<int>)
    requires ArgsOk(a)
    requires forall i :: 0 <= i < |s| ==> IsArgChar(s[i])
    requires forall i :: 0 <= i < |t| ==> IsArgChar(t[i])
    ensures forall i :: 0 <= i < |s + t| ==> IsArgChar((s + t)[i])
    ensures ParseAll(a, s + t) == ParseAll(ParseAll(a, s), t)
    decreases s
  {
    if s == [] {
      assert s + t == t;
    } else {
      assert (s + t)[1..] == s[1..] + t;
      ParseConcat(ParseArg(a, s[0]), s[1..], t);
    }
  }

  lemma ParseOne(a: Args, b: int)
    requires ArgsOk(a) && IsArgChar(b)
    ensures ParseAll(a, [b]) == ParseArg(a, b)
  {
    assert [b][1..] == [];
  }

  /** The digits of a number are read back as the number. */
  lemma {:induction false} ParseDecimal(a: Args, n: nat)
    requires ArgsOk(a) && (a.index < MAX_ESCAPE_PARAMETERS ==> a.values[a.index] == -1)
    ensures ParseAll(a, Decimal(n)) ==
      if a.index < MAX_ESCAPE_PARAMETERS then a.(values := a.values[a.index := n]) else a
    decreases n
  {
    hide ParseAll;
    var last := DIGIT_0 + n % 10;
    if n < 10 {
      ParseOne(a, last);
    } else {
      ParseDecimal(a, n / 10);
      ParseConcat(a, Decimal(n / 10), [last]);
      ParseOne(ParseAll(a, Decimal(n / 10)), last);
      assert n / 10 * 10 + n % 10 == n;
    }
  }

  lemma ParseParam(a: Args, p: Param)
    requires ArgsOk(a) && (a.index < MAX_ESCAPE_PARAMETERS ==> a.values[a.index] == -1)
    ensures ParseAll(a, PrintParam(p)) ==
      if a.index < MAX_ESCAPE_PARAMETERS then a.(values := a.values[a.index := Value(p)]) else a
  {
    if p.Some? {
      ParseDecimal(a, p.value);
    }
  }

  /** Any list of optional numbers printed in decimal is parsed back exactly; of more than sixteen the first sixteen
      are kept. */
  lemma {:induction false} ParsePrinted(params: seq<Param>)
    ensures ParseAll(NoArgs(), Print(params)) == Meaning(params)
    decreases |params|
  {
    hide ParseAll, PrintParam, Value;
    if params == [] {
      ParseNothing(NoArgs());
      assert Meaning(params).values == NoArgs().values;
    } else if |params| == 1 {
      ParseParam(NoArgs(), params[0]);
      assert Meaning(params).values == NoArgs().values[0 := Value(params[0])];
    } else {
      var n := |params| - 1;
      var front := params[..n];
      ParsePrinted(front);
      var a := Meaning(front);
      ParseConcat(NoArgs(), Print(front), [SEMICOLON]);
      ParseOne(a, SEMICOLON);
      var a' := ParseArg(a, SEMICOLON);
      ParseConcat(NoArgs(), Print(front) + [SEMICOLON], PrintParam(params[n]));
      ParseParam(a', params[n]);
      MeaningOfLonger(params);
    }
  }

  lemma ParseNothing(a: Args)
    requires ArgsOk(a)
    ensures ParseAll(a, []) == a
  {
  }

  lemma MeaningOfLonger(params: seq<Param>)
    requires |params| >= 2
    ensures var a := Meaning(params[..|params| - 1]);
      ArgsOk(a) && ArgsOk(ParseArg(a, SEMICOLON)) &&
      var a' := ParseArg(a, SEMICOLON);
      (a'.index < MAX_ESCAPE_PARAMETERS ==> a'.values[a'.index] == -1) &&
      Meaning(params) ==
        if a'.index < MAX_ESCAPE_PARAMETERS then a'.(values := a'.values[a'.index := Value(params[|params| - 1])])
        else a'
  {
    var n := |params| - 1;
    assert forall i :: 0 <= i < MAX_ESCAPE_PARAMETERS ==> -1 <= Meaning(params[..n]).values[i];
    hide Value;
    var a := Meaning(params[..n]);
    var a' := ParseArg(a, SEMICOLON);
    if a'.index < MAX_ESCAPE_PARAMETERS {
      assert Meaning(params).values == a'.values[a'.index := Value(params[n])];
    } else {
      assert Meaning(params).values == a'.values;
    }
  }
}
