/** Select Graphic Rendition, from its first character to its last: what every code selects, and lists of codes
    (section 8.3.117 of ECMA-48). */
module SgrOps {
  import opened Common
  import opened Utf16
  import opened TextStyle
  import opened Sgr
  import opened CsiArgs
  import opened TerminalState
  import opened Commands
  import opened Interpreter
  import opened Sequences

  const SGR: CodePoint := 109

  // ----- Lists of codes -----

  /** Codes as parameters: none is missing. */
  function Given(codes: seq<nat>): (params: seq<Param>)
    ensures |params| == |codes|
  {
    seq(|codes|, i requires 0 <= i < |codes| => Some(codes[i]))
  }

  /** The pen that a list of parameters selects. */
  function PenAfter(p: Pen, params: seq<Param>): Pen {
    MeaningIsOk(params);
    Select(p, Meaning(params).values, LastArg(Meaning(params)), 0)
  }

  /** SGR changes the pen and nothing else. */
  lemma SelectsPen(t: Terminal, params: seq<Param>)
    requires Inv(t) && CanStart(t)
    ensures Yields(t, ControlSequence(params, SGR), Over(t, params).(pen := PenAfter(t.pen, params)))
  {
    hide Inv, Yields, ControlSequence, Meaning, Select;
    FeedMode(t, params, SGR);
  }

  /** A single code. */
  lemma OneCode(p: Pen, code: nat)
    ensures PenAfter(p, [Some(code)]) == if code == 38 || code == 48 then p else Simple(p, code)
  {
    hide Simple;
    var v := Meaning([Some(code)]).values;
    assert v[0] == code;
    assert Select(One(p, v, 0, 0).0, v, 0, 1) == One(p, v, 0, 0).0;
  }

  lemma NoCode(p: Pen)
    ensures PenAfter(p, []) == PenAfter(p, [None]) == DEFAULT_PEN
  {
    var v := Meaning([]).values;
    assert v == Meaning([None]).values;
    assert v[0] == -1;
    assert Select(DEFAULT_PEN, v, 0, 1) == DEFAULT_PEN;
  }

  // ----- What the codes select -----

  /** ESC [ code m selects the pen `p` and changes nothing else. */
  ghost predicate Selects(t: Terminal, codes: seq<nat>, p: Pen) {
    Yields(t, ControlSequence(Given(codes), SGR), Over(t, Given(codes)).(pen := p))
  }

  lemma SelectsSimple(t: Terminal, code: nat)
    requires Inv(t) && CanStart(t)
    ensures Selects(t, [code], if code == 38 || code == 48 then t.pen else Simple(t.pen, code))
  {
    hide Inv, Yields, ControlSequence, Meaning, Simple, PenAfter;
    assert Given([code]) == [Some(code)];
    SelectsPen(t, [Some(code)]);
    OneCode(t.pen, code);
  }

  /** The eight colours and their bright variants. */
  lemma SelectsColor(t: Terminal, k: nat)
    requires Inv(t) && CanStart(t) && k < 8
    ensures Selects(t, [30 + k], t.pen.(fore := k as bv32)) && Selects(t, [90 + k], t.pen.(fore := (k + 8) as bv32))
    ensures Selects(t, [40 + k], t.pen.(back := k as bv32)) && Selects(t, [100 + k], t.pen.(back := (k + 8) as bv32))
  {
    hide Inv, Selects;
    SelectsSimple(t, 30 + k);
    SelectsSimple(t, 90 + k);
    SelectsSimple(t, 40 + k);
    SelectsSimple(t, 100 + k);
  }

  /** The default colours, and everything back to the default. */
  lemma SelectsDefault(t: Terminal)
    requires Inv(t) && CanStart(t)
    ensures Selects(t, [39], t.pen.(fore := COLOR_INDEX_FOREGROUND))
    ensures Selects(t, [49], t.pen.(back := COLOR_INDEX_BACKGROUND))
    ensures Selects(t, [0], Pen(COLOR_INDEX_FOREGROUND, COLOR_INDEX_BACKGROUND, 0))
    ensures Selects(t, [], Pen(COLOR_INDEX_FOREGROUND, COLOR_INDEX_BACKGROUND, 0))
  {
    hide Inv, Yields, PenAfter;
    SelectsSimple(t, 39);
    SelectsSimple(t, 49);
    SelectsSimple(t, 0);
    NoCode(t.pen);
    assert Given([]) == [];
    SelectsPen(t, []);
  }

  const SETS: map<nat, bv32> :=
    map[1 := BOLD, 2 := DIM, 3 := ITALIC, 4 := UNDERLINE, 5 := BLINK, 7 := INVERSE, 8 := INVISIBLE, 9 := STRIKETHROUGH]

  const CLEARS: map<nat, bv32> :=
    map[22 := BOLD | DIM, 23 := ITALIC, 24 := UNDERLINE, 25 := BLINK, 27 := INVERSE, 28 := INVISIBLE,
        29 := STRIKETHROUGH]

  lemma EffectTables(code: nat)
    ensures code in SETS ==> 1 <= code <= 9 && EffectOn(code) == SETS[code]
    ensures code in CLEARS ==> 22 <= code <= 29 && EffectOff(code) == CLEARS[code]
  {
  }

  lemma EffectChanges(p: Pen, code: nat)
    requires code != 38 && code != 48
    ensures 1 <= code <= 9 ==> Simple(p, code) == p.(effect := p.effect | EffectOn(code))
    ensures 22 <= code <= 29 ==> Simple(p, code) == p.(effect := p.effect & !EffectOff(code))
  {
    hide EffectOn, EffectOff;
  }

  /** Effects that are set; the other ones stay. */
  lemma SetsEffect(t: Terminal, code: nat)
    requires Inv(t) && CanStart(t) && code in SETS
    ensures Selects(t, [code], t.pen.(effect := t.pen.effect | SETS[code]))
  {
    hide Inv, Selects, Simple, EffectOn, EffectOff;
    EffectTables(code);
    EffectChanges(t.pen, code);
    SelectsSimple(t, code);
  }

  /** Effects that are cleared; the other ones stay. */
  lemma ClearsEffect(t: Terminal, code: nat)
    requires Inv(t) && CanStart(t) && code in CLEARS
    ensures Selects(t, [code], t.pen.(effect := t.pen.effect & !CLEARS[code]))
  {
    hide Inv, Selects, Simple, EffectOn, EffectOff;
    EffectTables(code);
    EffectChanges(t.pen, code);
    SelectsSimple(t, code);
  }

  /** All other codes do nothing. */
  lemma OtherCodesSelectNothing(t: Terminal, code: nat)
    requires Inv(t) && CanStart(t) && code !in SETS && code !in CLEARS && code !in {0, 39, 49}
    requires !(30 <= code < 38) && !(40 <= code < 48) && !(90 <= code < 98) && !(100 <= code < 108)
    ensures Selects(t, [code], t.pen)
  {
    hide Inv, Selects;
    SelectsSimple(t, code);
    if code in {6, 26} {
      NoEffect(t.pen, code);
    }
  }

  lemma NoEffect(p: Pen, code: nat)
    requires code in {6, 26}
    ensures Simple(p, code) == p
  {
  }

  // ----- Extended colours -----

  lemma GivenValues(codes: seq<nat>)
    requires |codes| <= MAX_ESCAPE_PARAMETERS
    ensures |Meaning(Given(codes)).values| == MAX_ESCAPE_PARAMETERS
    ensures forall i :: 0 <= i < |codes| ==> Meaning(Given(codes)).values[i] == codes[i]
    ensures codes != [] ==> ArgsOk(Meaning(Given(codes))) && LastArg(Meaning(Given(codes))) == |codes| - 1
  {
    MeaningIsOk(Given(codes));
  }

  /** 38 and 48 with 5 and a number below 259 set the one colour to the entry of that number; other numbers are
      ignored. */
  lemma SelectsIndexed(t: Terminal, k: nat)
    requires Inv(t) && CanStart(t)
    ensures k < NUM_INDEXED_COLORS ==>
      Selects(t, [38, 5, k], t.pen.(fore := k as bv32)) && Selects(t, [48, 5, k], t.pen.(back := k as bv32))
    ensures NUM_INDEXED_COLORS <= k ==> Selects(t, [38, 5, k], t.pen) && Selects(t, [48, 5, k], t.pen)
  {
    hide Inv, Yields, ControlSequence, Meaning, PenAfter;
    SelectsPen(t, Given([38, 5, k]));
    SelectsPen(t, Given([48, 5, k]));
    IndexedPen(t.pen, k, 38);
    IndexedPen(t.pen, k, 48);
  }

  lemma IndexedPen(p: Pen, k: nat, code: nat)
    requires code in {38, 48}
    ensures PenAfter(p, Given([code, 5, k])) ==
      if NUM_INDEXED_COLORS <= k then p else if code == 38 then p.(fore := k as bv32) else p.(back := k as bv32)
  {
    GivenValues([code, 5, k]);
    hide Meaning;
    var v := Meaning(Given([code, 5, k])).values;
    assert Select(One(p, v, 2, 0).0, v, 2, 3) == One(p, v, 2, 0).0;
  }

  /** 38 and 48 with 2 and three numbers below 256 set the one colour; larger numbers are ignored. */
  lemma SelectsRgb(t: Terminal, red: nat, green: nat, blue: nat)
    requires Inv(t) && CanStart(t)
    ensures red < 256 && green < 256 && blue < 256 ==>
      var color: bv32 := 0xff00_0000 | (red as bv32 << 16) | (green as bv32 << 8) | blue as bv32;
      && Selects(t, [38, 2, red, green, blue], t.pen.(fore := color))
      && Selects(t, [48, 2, red, green, blue], t.pen.(back := color))
    ensures red > 255 || green > 255 || blue > 255 ==>
      Selects(t, [38, 2, red, green, blue], t.pen) && Selects(t, [48, 2, red, green, blue], t.pen)
  {
    hide Inv, Yields, ControlSequence, Meaning, PenAfter;
    SelectsPen(t, Given([38, 2, red, green, blue]));
    SelectsPen(t, Given([48, 2, red, green, blue]));
    RgbPen(t.pen, red, green, blue, 38);
    RgbPen(t.pen, red, green, blue, 48);
  }

  lemma RgbPen(p: Pen, red: nat, green: nat, blue: nat, code: nat)
    requires code in {38, 48}
    ensures PenAfter(p, Given([code, 2, red, green, blue])) ==
      if red > 255 || green > 255 || blue > 255 then p
      else if code == 38 then p.(fore := Rgb(red, green, blue)) else p.(back := Rgb(red, green, blue))
  {
    GivenValues([code, 2, red, green, blue]);
    hide Meaning, Rgb;
    var v := Meaning(Given([code, 2, red, green, blue])).values;
    assert Select(One(p, v, 4, 0).0, v, 4, 5) == One(p, v, 4, 0).0;
  }

  // ----- Lists -----

  /** Codes that belong together: none, or a simple code, or an extended colour, and then more of them. */
  predicate Complete(codes: seq<nat>)
    decreases |codes|
  {
    codes == [] || (Length(codes) <= |codes| && Complete(codes[Length(codes)..]))
  }

  /** How many parameters the first code takes, if they are all there. */
  function Length(codes: seq<nat>): (n: nat)
    requires codes != []
    ensures 0 < n
  {
    if codes[0] !in {38, 48} then 1
    else if |codes| < 2 then 2
    else if codes[1] == 5 then 3 else if codes[1] == 2 then 5 else 1
  }

  lemma SelectStep(p: Pen, v: seq<int>, last: nat, i: nat)
    requires last < |v|
    ensures i > last ==> Select(p, v, last, i) == p
    ensures i <= last ==>
      Select(p, v, last, i) == Select(One(p, v, last, i).0, v, last, i + One(p, v, last, i).1)
  {
    hide One;
  }

  lemma SlicesAgree(x: seq<int>, endX: nat, i: nat, y: seq<int>, endY: nat, j: nat, n: nat)
    requires i + n <= endX <= |x| && j + n <= endY <= |y| && x[i..endX] == y[j..endY]
    ensures x[i + n..endX] == y[j + n..endY]
  {
    assert x[i + n..endX] == x[i..endX][n..];
    assert y[j + n..endY] == y[j..endY][n..];
  }

  /** Selecting depends only on the codes that are left. */
  lemma {:induction false} SelectShift(p: Pen, x: seq<int>, lastX: nat, i: nat, y: seq<int>, lastY: nat, j: nat)
    requires lastX < |x| && lastY < |y| && i <= lastX + 1 && j <= lastY + 1 && lastX - i == lastY - j
    requires x[i..lastX + 1] == y[j..lastY + 1] && forall k :: i <= k <= lastX ==> 0 <= x[k]
    ensures Select(p, x, lastX, i) == Select(p, y, lastY, j)
    decreases lastX + 1 - i
  {
    hide Select, One;
    SelectStep(p, x, lastX, i);
    SelectStep(p, y, lastY, j);
    if i <= lastX {
      SameOne(p, x, lastX, i, y, lastY, j);
      var (p', n) := One(p, x, lastX, i);
      if i + n <= lastX + 1 {
        SlicesAgree(x, lastX + 1, i, y, lastY + 1, j, n);
        SelectShift(p', x, lastX, i + n, y, lastY, j + n);
      } else {
        SelectStep(p', x, lastX, i + n);
        SelectStep(p', y, lastY, j + n);
      }
    }
  }

  lemma SameOne(p: Pen, x: seq<int>, lastX: nat, i: nat, y: seq<int>, lastY: nat, j: nat)
    requires i <= lastX < |x| && j <= lastY < |y| && lastX - i == lastY - j
    requires x[i..lastX + 1] == y[j..lastY + 1] && 0 <= x[i]
    ensures One(p, x, lastX, i) == One(p, y, lastY, j)
  {
    hide Simple, Rgb, Index;
    var a, b := x[i..lastX + 1], y[j..lastY + 1];
    assert forall k :: 0 <= k <= lastX - i ==> x[i + k] == a[k] == b[k] == y[j + k];
  }

  lemma CompleteRest(codes: seq<nat>)
    requires codes != [] && Complete(codes)
    ensures Length(codes) <= |codes| && Complete(codes[Length(codes)..])
  {
  }

  /** The codes in front are selected as if they were alone. */
  lemma {:induction false} SelectFront(p: Pen, v: seq<int>, last: nat, i: nat, n: nat, codes: seq<nat>)
    requires i + |codes| == n <= last < |v| && 0 < n && Complete(codes)
    requires forall k :: 0 <= k < |codes| ==> v[i + k] == codes[k]
    ensures Select(p, v, last, i) == Select(Select(p, v, n - 1, i), v, last, n)
    decreases |codes|
  {
    hide Select, One, Length, Complete;
    SelectStep(p, v, n - 1, i);
    if codes != [] {
      var k := Length(codes);
      CompleteRest(codes);
      SameFront(p, v, last, i, n, codes);
      SelectStep(p, v, last, i);
      var rest := codes[k..];
      assert forall m :: 0 <= m < |rest| ==> v[(i + k) + m] == v[i + (k + m)] == codes[k + m] == rest[m];
      SelectFront(One(p, v, last, i).0, v, last, i + k, n, rest);
    }
  }

  lemma SameFront(p: Pen, v: seq<int>, last: nat, i: nat, n: nat, codes: seq<nat>)
    requires i + |codes| == n <= last < |v| && codes != [] && Complete(codes)
    requires forall k :: 0 <= k < |codes| ==> v[i + k] == codes[k]
    ensures One(p, v, last, i) == One(p, v, n - 1, i) && One(p, v, last, i).1 == Length(codes)
  {
    hide Simple, Rgb, Index;
    assert v[i] == codes[0];
    if |codes| >= 2 {
      assert v[i + 1] == codes[1];
    }
  }

  function Values(codes: seq<nat>): (v: seq<int>)
    ensures |v| == MAX_ESCAPE_PARAMETERS
  {
    MeaningIsOk(Given(codes));
    Meaning(Given(codes)).values
  }

  lemma PenOfValues(p: Pen, codes: seq<nat>)
    requires 0 < |codes| <= MAX_ESCAPE_PARAMETERS
    ensures PenAfter(p, Given(codes)) == Select(p, Values(codes), |codes| - 1, 0)
    ensures forall i :: 0 <= i < |codes| ==> Values(codes)[i] == codes[i]
  {
    GivenValues(codes);
    hide Meaning, Select;
  }

  lemma FrontAlone(p: Pen, a: seq<nat>, b: seq<nat>)
    requires a != [] && b != [] && |a| + |b| <= MAX_ESCAPE_PARAMETERS
    ensures Select(p, Values(a + b), |a| - 1, 0) == PenAfter(p, Given(a))
  {
    hide Values, Select, PenAfter;
    PenOfValues(p, a);
    PenOfValues(p, a + b);
    assert forall i :: 0 <= i < |a| ==> (a + b)[i] == a[i];
    assert Values(a + b)[0..|a|] == Values(a)[0..|a|];
    SelectShift(p, Values(a + b), |a| - 1, 0, Values(a), |a| - 1, 0);
  }

  lemma BackAlone(p: Pen, a: seq<nat>, b: seq<nat>)
    requires b != [] && |a| + |b| <= MAX_ESCAPE_PARAMETERS
    ensures Select(p, Values(a + b), |a| + |b| - 1, |a|) == PenAfter(p, Given(b))
  {
    hide Values, Select, PenAfter;
    PenOfValues(p, b);
    PenOfValues(p, a + b);
    assert forall i :: 0 <= i < |b| ==> (a + b)[|a| + i] == b[i];
    assert Values(a + b)[|a|..|a| + |b|] == Values(b)[0..|b|];
    SelectShift(p, Values(a + b), |a| + |b| - 1, |a|, Values(b), |b| - 1, 0);
  }

  /** A list selects what its parts select one after the other. */
  lemma ListComposes(p: Pen, a: seq<nat>, b: seq<nat>)
    requires Complete(a) && b != [] && |a| + |b| <= MAX_ESCAPE_PARAMETERS
    ensures PenAfter(p, Given(a + b)) == PenAfter(if a == [] then p else PenAfter(p, Given(a)), Given(b))
  {
    hide Values, Select, PenAfter, Complete;
    var v := Values(a + b);
    PenOfValues(p, a + b);
    assert forall k :: 0 <= k < |a| ==> v[0 + k] == a[k];
    if a != [] {
      SelectFront(p, v, |a| + |b| - 1, 0, |a|, a);
      FrontAlone(p, a, b);
    }
    BackAlone(if a == [] then p else PenAfter(p, Given(a)), a, b);
  }

  lemma OverKeeps(t: Terminal, params: seq<Param>, p: Pen)
    requires Inv(t) && CanStart(t) && p == PenAfter(t.pen, params)
    ensures Inv(Over(t, params).(pen := p))
  {
    hide Inv, Feed, CanFeed, ControlSequence, Meaning, PenAfter;
    SelectsPen(t, params);
  }

  /** So one sequence with a list of codes does what one sequence with its front and then one with the rest of it do. */
  lemma ListSelects(t: Terminal, a: seq<nat>, b: seq<nat>)
    requires Inv(t) && CanStart(t) && Complete(a) && a != [] && b != [] && |a| + |b| <= MAX_ESCAPE_PARAMETERS
    ensures var p := PenAfter(t.pen, Given(a));
      var q := PenAfter(p, Given(b));
      && Selects(t, a, p) && Selects(Over(t, Given(a)).(pen := p), b, q) && Selects(t, a + b, q)
  {
    hide Inv, Yields, ControlSequence, Meaning, PenAfter, Complete;
    SelectsPen(t, Given(a));
    SelectsPen(t, Given(a + b));
    var p := PenAfter(t.pen, Given(a));
    OverKeeps(t, Given(a), p);
    SelectsPen(Over(t, Given(a)).(pen := p), Given(b));
    ListComposes(t.pen, a, b);
  }
}
