/** Select Graphic Rendition: the colours and effects that new characters are written with. */
module Sgr {
  import opened TextStyle

  /** The current colours and effect of the terminal. */
  datatype Pen = Pen(fore: bv32, back: bv32, effect: bv32)

  const DEFAULT_PEN := Pen(COLOR_INDEX_FOREGROUND, COLOR_INDEX_BACKGROUND, 0)


  /** Colours that survive encoding, and no effect beyond the nine bits. */
  predicate PenOk(p: Pen) {
    Encodable(p.fore) && Encodable(p.back) && Low(p.effect) == p.effect
  }

  /** The style of what is written with a pen. */
  function PenStyle(p: Pen): (st: Style)
    ensures PenOk(p) ==> IsEncoded(st)
  {
    Encode(p.fore, p.back, p.effect)
  }

  function Rgb(red: int, green: int, blue: int): bv32
    requires 0 <= red <= 255 && 0 <= green <= 255 && 0 <= blue <= 255
  {
    0xff00_0000 | ((red as bv32) << 16) | ((green as bv32) << 8) | (blue as bv32)
  }

  function Index(color: int): bv32
    requires 0 <= color < 512
  {
    color as bv32
  }

  function Add(effect: bv32, bits: bv32): bv32 {
    effect | bits
  }

  function Remove(effect: bv32, bits: bv32): bv32 {
    effect & !bits
  }

  /** Effects switched on by the codes 1 to 9. */
  function EffectOn(code: int): bv32 {
    match code
    case 1 => BOLD
    case 2 => DIM
    case 3 => ITALIC
    case 4 => UNDERLINE
    case 5 => BLINK
    case 7 => INVERSE
    case 8 => INVISIBLE
    case 9 => STRIKETHROUGH
    case _ => 0
  }

  /** Effects switched off by the codes 22 to 29. */
  function EffectOff(code: int): bv32 {
    match code
    case 22 => BOLD | DIM
    case 23 => ITALIC
    case 24 => UNDERLINE
    case 25 => BLINK
    case 27 => INVERSE
    case 28 => INVISIBLE
    case 29 => STRIKETHROUGH
    case _ => 0
  }

  /** A code that stands for itself; unknown ones do nothing. */
  function Simple(p: Pen, code: int): Pen {
    if code == 0 then DEFAULT_PEN
    else if 1 <= code <= 9 then p.(effect := Add(p.effect, EffectOn(code)))
    else if 22 <= code <= 29 then p.(effect := Remove(p.effect, EffectOff(code)))
    else if 30 <= code <= 37 then p.(fore := Index(code - 30))
    else if code == 39 then p.(fore := COLOR_INDEX_FOREGROUND)
    else if 40 <= code <= 47 then p.(back := Index(code - 40))
    else if code == 49 then p.(back := COLOR_INDEX_BACKGROUND)
    else if 90 <= code <= 97 then p.(fore := Index(code - 90 + 8))
    else if 100 <= code <= 107 then p.(back := Index(code - 100 + 8))
    else p
  }

  function SetColor(p: Pen, foreground: bool, color: bv32): Pen {
    if foreground then p.(fore := color) else p.(back := color)
  }

  /** The codes 38 and 48 take a colour from the arguments that follow; also says how many arguments that took. */
  function Extended(p: Pen, args: seq<int>, last: nat, i: nat): (r: (Pen, nat))
    requires i <= last < |args|
    ensures 1 <= r.1
  {
    var foreground := args[i] == 38;
    if i + 2 > last then (p, 1)
    else if args[i + 1] == 2 then
      if i + 4 > last then (p, 1)
      else
        var red, green, blue := args[i + 2], args[i + 3], args[i + 4];
        if red < 0 || green < 0 || blue < 0 || red > 255 || green > 255 || blue > 255 then (p, 5)
        else (SetColor(p, foreground, Rgb(red, green, blue)), 5)
    else if args[i + 1] == 5 then
      var color := args[i + 2];
      if 0 <= color < NUM_INDEXED_COLORS then (SetColor(p, foreground, Index(color)), 3) else (p, 3)
    else (p, 1)
  }

  /** The argument at `i`: a missing one is skipped, unless it is the only one, which means 0. */
  function One(p: Pen, args: seq<int>, last: nat, i: nat): (r: (Pen, nat))
    requires i <= last < |args|
    ensures 1 <= r.1
  {
    var code := if args[i] < 0 && last == 0 then 0 else args[i];
    if code < 0 then (p, 1)
    else if code == 38 || code == 48 then Extended(p, args, last, i)
    else (Simple(p, code), 1)
  }

  /** All arguments from `i` to `last`. */
  function Select(p: Pen, args: seq<int>, last: nat, i: nat): Pen
    requires last < |args|
    decreases last + 1 - i
  {
    if i > last then p
    else
      var (p', n) := One(p, args, last, i);
      Select(p', args, last, i + n)
  }

  lemma RgbIsTrueColor(red: int, green: int, blue: int)
    requires 0 <= red <= 255 && 0 <= green <= 255 && 0 <= blue <= 255
    ensures Encodable(Rgb(red, green, blue))
  {
    TrueColorBits((red as bv32) << 16, (green as bv32) << 8, blue as bv32);
  }

  lemma TrueColorBits(a: bv32, b: bv32, c: bv32)
    ensures IsTrueColor(0xff00_0000 | a | b | c)
  {
  }

  lemma IndexIsEncodable(color: int)
    requires 0 <= color < 512
    ensures Encodable(Index(color))
  {
  }

  lemma EffectKeeps(effect: bv32, code: int)
    requires Low(effect) == effect
    ensures Low(Add(effect, EffectOn(code))) == Add(effect, EffectOn(code))
    ensures Low(Remove(effect, EffectOff(code))) == Remove(effect, EffectOff(code))
  {
    LowAdd(effect, EffectOn(code));
    LowRemove(effect, EffectOff(code));
  }

  lemma LowAdd(effect: bv32, bits: bv32)
    requires Low(effect) == effect && Low(bits) == bits
    ensures Low(Add(effect, bits)) == Add(effect, bits)
  {
  }

  lemma LowRemove(effect: bv32, bits: bv32)
    requires Low(effect) == effect
    ensures Low(Remove(effect, bits)) == Remove(effect, bits)
  {
  }

  lemma DefaultPenIsOk()
    ensures PenOk(DEFAULT_PEN)
  {
  }

  lemma OneKeeps(p: Pen, args: seq<int>, last: nat, i: nat)
    requires PenOk(p) && i <= last < |args|
    ensures PenOk(One(p, args, last, i).0)
  {
    hide Encodable, Low, EffectOn, EffectOff, Rgb, Index, Simple, PenOk, SetColor;
    DefaultPenIsOk();
    var code := if args[i] < 0 && last == 0 then 0 else args[i];
    if code == 38 || code == 48 {
      if i + 4 <= last && args[i + 1] == 2 {
        var red, green, blue := args[i + 2], args[i + 3], args[i + 4];
        if 0 <= red <= 255 && 0 <= green <= 255 && 0 <= blue <= 255 {
          RgbIsTrueColor(red, green, blue);
          ColorKeeps(p, args[i] == 38, Rgb(red, green, blue));
        }
      } else if i + 2 <= last && 0 <= args[i + 2] < NUM_INDEXED_COLORS {
        IndexIsEncodable(args[i + 2]);
        ColorKeeps(p, args[i] == 38, Index(args[i + 2]));
      }
    } else if code >= 0 {
      SimpleKeeps(p, code);
    }
  }

  lemma ColorKeeps(p: Pen, foreground: bool, color: bv32)
    requires PenOk(p) && Encodable(color)
    ensures PenOk(SetColor(p, foreground, color))
  {
  }

  lemma SimpleKeeps(p: Pen, code: int)
    requires PenOk(p)
    ensures PenOk(Simple(p, code))
  {
    DefaultPenIsOk();
    DefaultColors();
    hide Encodable, Low, EffectOn, EffectOff, Index, Add, Remove;
    EffectKeeps(p.effect, code);
    if 30 <= code <= 37 {
      IndexIsEncodable(code - 30);
    } else if 40 <= code <= 47 {
      IndexIsEncodable(code - 40);
    } else if 90 <= code <= 97 {
      IndexIsEncodable(code - 90 + 8);
    } else if 100 <= code <= 107 {
      IndexIsEncodable(code - 100 + 8);
    }
  }

  lemma DefaultColors()
    ensures Encodable(COLOR_INDEX_FOREGROUND) && Encodable(COLOR_INDEX_BACKGROUND)
  {
  }

  /** Whatever the arguments, the pen stays in the domain in which styles are encoded without loss. */
  lemma {:induction false} SelectKeeps(p: Pen, args: seq<int>, last: nat, i: nat)
    requires PenOk(p) && last < |args|
    ensures PenOk(Select(p, args, last, i))
    decreases last + 1 - i
  {
    hide PenOk, One;
    if i <= last {
      OneKeeps(p, args, last, i);
      var (p', n) := One(p, args, last, i);
      SelectKeeps(p', args, last, i + n);
    }
  }

  /** Style fidelity: what is stored in a cell after any list of arguments decodes to exactly the pen. */
  lemma SelectedStyleIsExact(p: Pen, args: seq<int>, last: nat)
    requires PenOk(p) && last < |args|
    ensures var q := Select(p, args, last, 0);
      && DecodeForeColor(PenStyle(q)) == q.fore
      && DecodeBackColor(PenStyle(q)) == q.back
      && Low(DecodeEffect(PenStyle(q))) == q.effect
  {
    SelectKeeps(p, args, last, 0);
    var q := Select(p, args, last, 0);
    hide Select, Encode, DecodeForeColor, DecodeBackColor, DecodeEffect, Low, Encodable;
    RoundTrip(q.fore, q.back, q.effect);
  }
}
