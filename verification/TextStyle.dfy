/** TextStyle.java: effects and two colours packed into 64 bits. */
module TextStyle {

  type Style = bv64

  const BOLD: bv32 := 1
  const ITALIC: bv32 := 2
  const UNDERLINE: bv32 := 4
  const BLINK: bv32 := 8
  const INVERSE: bv32 := 16
  const INVISIBLE: bv32 := 32
  const STRIKETHROUGH: bv32 := 64
  const PROTECTED: bv32 := 128
  const DIM: bv32 := 256
  const TRUECOLOR_FOREGROUND: bv64 := 0x200
  const TRUECOLOR_BACKGROUND: bv64 := 0x400

  const COLOR_INDEX_FOREGROUND: bv32 := 256
  const COLOR_INDEX_BACKGROUND: bv32 := 257
  const NUM_INDEXED_COLORS := 259

  const NORMAL: Style := Encode(COLOR_INDEX_FOREGROUND, COLOR_INDEX_BACKGROUND, 0)

  predicate IsTrueColor(color: bv32) {
    color & 0xff00_0000 == 0xff00_0000
  }

  /** The colours that survive encoding: 24-bit ones and 9-bit indices. */
  predicate Encodable(color: bv32) {
    IsTrueColor(color) || color <= 0x1ff
  }

  function ColorBits(color: bv32): bv64 {
    if IsTrueColor(color) then (color & 0x00ff_ffff) as bv64 else (color & 0x1ff) as bv64
  }

  function ForeFlag(foreColor: bv32): bv64 {
    if IsTrueColor(foreColor) then TRUECOLOR_FOREGROUND else 0
  }

  function BackFlag(backColor: bv32): bv64 {
    if IsTrueColor(backColor) then TRUECOLOR_BACKGROUND else 0
  }

  /** Effects, then the foreground's flag and bits, then the background's. */
  function Layout(effect: bv64, fg: bv64, fore: bv64, bg: bv64, back: bv64): Style {
    var result := effect;
    var result := result | fg | (fore << 40);
    result | bg | (back << 16)
  }

  function Encode(foreColor: bv32, backColor: bv32, effect: bv32): Style {
    Layout((effect & 0x1ff) as bv64,
           ForeFlag(foreColor), ColorBits(foreColor),
           BackFlag(backColor), ColorBits(backColor))
  }

  function DecodeForeColor(style: Style): bv32 {
    if style & TRUECOLOR_FOREGROUND == 0 then ((style >> 40) & 0x1ff) as bv32
    else 0xff00_0000 | (((style >> 40) & 0x00ff_ffff) as bv32)
  }

  function DecodeBackColor(style: Style): bv32 {
    if style & TRUECOLOR_BACKGROUND == 0 then ((style >> 16) & 0x1ff) as bv32
    else 0xff00_0000 | (((style >> 16) & 0x00ff_ffff) as bv32)
  }

  /** The nine effect bits. */
  function Low(effect: bv32): bv32 {
    effect & 0x1ff
  }

  function DecodeEffect(style: Style): bv32 {
    (style & 0x7ff) as bv32
  }

  // ----- The bit layout -----

  function ForeField(s: Style): bv64 {
    (s >> 40) & 0x00ff_ffff
  }

  function BackField(s: Style): bv64 {
    (s >> 16) & 0x00ff_ffff
  }

  function FlagField(s: Style): bv64 {
    s & 0x600
  }

  function EffectField(s: Style): bv64 {
    s & 0x1ff
  }

  function Flags(foreColor: bv32, backColor: bv32): bv64 {
    ForeFlag(foreColor) | BackFlag(backColor)
  }

  /** The fields of a style do not overlap. */
  lemma FieldsOfLayout(effect: bv64, fg: bv64, fore: bv64, bg: bv64, back: bv64)
    requires effect <= 0x1ff && fore <= 0x00ff_ffff && back <= 0x00ff_ffff
    requires fg & TRUECOLOR_FOREGROUND == fg && bg & TRUECOLOR_BACKGROUND == bg
    ensures var s := Layout(effect, fg, fore, bg, back);
      ForeField(s) == fore && BackField(s) == back && FlagField(s) == fg | bg && EffectField(s) == effect
  {
  }

  lemma PartsFit(foreColor: bv32, backColor: bv32, effect: bv32)
    ensures (effect & 0x1ff) as bv64 <= 0x1ff
    ensures ColorBits(foreColor) <= 0x00ff_ffff && ColorBits(backColor) <= 0x00ff_ffff
    ensures ForeFlag(foreColor) & TRUECOLOR_FOREGROUND == ForeFlag(foreColor)
    ensures BackFlag(backColor) & TRUECOLOR_BACKGROUND == BackFlag(backColor)
  {
  }

  lemma EncodeFields(foreColor: bv32, backColor: bv32, effect: bv32)
    ensures var s := Encode(foreColor, backColor, effect);
      && ForeField(s) == ColorBits(foreColor)
      && BackField(s) == ColorBits(backColor)
      && FlagField(s) == Flags(foreColor, backColor)
      && EffectField(s) == (effect & 0x1ff) as bv64
  {
    PartsFit(foreColor, backColor, effect);
    FieldsOfLayout((effect & 0x1ff) as bv64, ForeFlag(foreColor), ColorBits(foreColor), BackFlag(backColor),
        ColorBits(backColor));
    hide Layout, ForeField, BackField, FlagField, EffectField, ColorBits, ForeFlag, BackFlag;
  }

  // ----- What decoding finds -----

  /** The colour that `bits` stand for. */
  function Unpack(trueColor: bool, bits: bv64): bv32 {
    if trueColor then 0xff00_0000 | ((bits & 0x00ff_ffff) as bv32) else (bits & 0x1ff) as bv32
  }

  predicate HasForeFlag(flags: bv64) {
    flags & TRUECOLOR_FOREGROUND != 0
  }

  predicate HasBackFlag(flags: bv64) {
    flags & TRUECOLOR_BACKGROUND != 0
  }

  lemma DecodeFields(s: Style)
    ensures DecodeForeColor(s) == Unpack(HasForeFlag(FlagField(s)), ForeField(s))
    ensures DecodeBackColor(s) == Unpack(HasBackFlag(FlagField(s)), BackField(s))
    ensures DecodeEffect(s) & 0x1ff == EffectField(s) as bv32
  {
  }

  lemma FlagBits(foreColor: bv32, backColor: bv32)
    ensures HasForeFlag(Flags(foreColor, backColor)) <==> IsTrueColor(foreColor)
    ensures HasBackFlag(Flags(foreColor, backColor)) <==> IsTrueColor(backColor)
  {
  }

  lemma ColorRoundTrip(color: bv32)
    requires Encodable(color)
    ensures Unpack(IsTrueColor(color), ColorBits(color)) == color
  {
  }

  lemma Widen(effect: bv32)
    ensures ((effect & 0x1ff) as bv64) as bv32 == effect & 0x1ff
  {
  }

  lemma ForeRoundTrip(foreColor: bv32, backColor: bv32, effect: bv32)
    requires Encodable(foreColor)
    ensures DecodeForeColor(Encode(foreColor, backColor, effect)) == foreColor
  {
    hide *;
    EncodeFields(foreColor, backColor, effect);
    DecodeFields(Encode(foreColor, backColor, effect));
    FlagBits(foreColor, backColor);
    ColorRoundTrip(foreColor);
  }

  lemma BackRoundTrip(foreColor: bv32, backColor: bv32, effect: bv32)
    requires Encodable(backColor)
    ensures DecodeBackColor(Encode(foreColor, backColor, effect)) == backColor
  {
    hide *;
    EncodeFields(foreColor, backColor, effect);
    DecodeFields(Encode(foreColor, backColor, effect));
    FlagBits(foreColor, backColor);
    ColorRoundTrip(backColor);
  }

  /** Encodable colours and the nine effect bits survive the packing. */
  lemma RoundTrip(foreColor: bv32, backColor: bv32, effect: bv32)
    requires Encodable(foreColor) && Encodable(backColor)
    ensures DecodeForeColor(Encode(foreColor, backColor, effect)) == foreColor
    ensures DecodeBackColor(Encode(foreColor, backColor, effect)) == backColor
    ensures Low(DecodeEffect(Encode(foreColor, backColor, effect))) == Low(effect)
  {
    ForeRoundTrip(foreColor, backColor, effect);
    BackRoundTrip(foreColor, backColor, effect);
    PartsFit(foreColor, backColor, effect);
    EncodeFields(foreColor, backColor, effect);
    DecodeFields(Encode(foreColor, backColor, effect));
    Widen(effect);
    hide DecodeEffect, Encode, EffectField;
  }

  // ----- Changing the effect of a cell -----

  /** TerminalBuffer.setOrClearEffect on the style of one cell. */
  function ChangeEffect(style: Style, bits: bv32, setOrClear: bool, reverse: bool): Style {
    var effect := DecodeEffect(style);
    Encode(DecodeForeColor(style), DecodeBackColor(style), NewEffect(effect, bits, setOrClear, reverse))
  }

  function NewEffect(effect: bv32, bits: bv32, setOrClear: bool, reverse: bool): bv32 {
    if reverse then (effect & !bits) | (bits & !effect)
    else if setOrClear then effect | bits
    else effect & !bits
  }

  /** The styles that encoding can produce from the colours in use. */
  ghost predicate IsEncoded(style: Style) {
    exists f, b, e :: Encodable(f) && Encodable(b) && style == Encode(f, b, e)
  }

  /** Encoding looks at nine effect bits only. */
  lemma EncodeMasks(foreColor: bv32, backColor: bv32, e1: bv32, e2: bv32)
    requires Low(e1) == Low(e2)
    ensures Encode(foreColor, backColor, e1) == Encode(foreColor, backColor, e2)
  {
    hide Layout, ForeFlag, BackFlag, ColorBits;
  }

  /** Changing the effect leaves the colours alone and does to the nine bits what is asked for. */
  lemma ChangeKeepsColors(style: Style, bits: bv32, setOrClear: bool, reverse: bool)
    requires IsEncoded(style)
    ensures var s := ChangeEffect(style, bits, setOrClear, reverse);
      && DecodeForeColor(s) == DecodeForeColor(style) && DecodeBackColor(s) == DecodeBackColor(style)
      && Low(DecodeEffect(s)) == Low(NewEffect(DecodeEffect(style), bits, setOrClear, reverse))
      && IsEncoded(s)
  {
    hide Encode, DecodeForeColor, DecodeBackColor, DecodeEffect, NewEffect, Encodable, Low;
    var f, b, e :| Encodable(f) && Encodable(b) && style == Encode(f, b, e);
    RoundTrip(f, b, e);
    RoundTrip(f, b, NewEffect(DecodeEffect(style), bits, setOrClear, reverse));
  }

  lemma ReverseTwiceMask(e: bv32, d1: bv32, d2: bv32, bits: bv32)
    requires Low(d1) == Low(e)
    requires Low(d2) == Low(NewEffect(d1, bits, true, true))
    ensures Low(NewEffect(d2, bits, true, true)) == Low(e)
  {
  }

  /** Reversing an effect twice restores the style exactly. */
  lemma ReverseTwice(style: Style, bits: bv32, setOrClear: bool)
    requires IsEncoded(style)
    ensures ChangeEffect(ChangeEffect(style, bits, setOrClear, true), bits, setOrClear, true) == style
  {
    hide Encode, DecodeForeColor, DecodeBackColor, DecodeEffect, Encodable, NewEffect, Low;
    var f, b, e :| Encodable(f) && Encodable(b) && style == Encode(f, b, e);
    var s := ChangeEffect(style, bits, setOrClear, true);
    ChangeKeepsColors(style, bits, setOrClear, true);
    RoundTrip(f, b, e);
    ReverseIgnoresSet(DecodeEffect(style), bits, setOrClear);
    ReverseIgnoresSet(DecodeEffect(s), bits, setOrClear);
    ReverseTwiceMask(e, DecodeEffect(style), DecodeEffect(s), bits);
    EncodeMasks(f, b, NewEffect(DecodeEffect(s), bits, setOrClear, true), e);
  }

  lemma ReverseIgnoresSet(effect: bv32, bits: bv32, setOrClear: bool)
    ensures NewEffect(effect, bits, setOrClear, true) == NewEffect(effect, bits, true, true)
  {
  }

  lemma NormalIsEncoded()
    ensures IsEncoded(NORMAL) && IsEncoded(0)
  {
    assert Encodable(COLOR_INDEX_FOREGROUND) && Encodable(COLOR_INDEX_BACKGROUND) && Encodable(0);
    assert Encode(0, 0, 0) == 0;
  }
}
