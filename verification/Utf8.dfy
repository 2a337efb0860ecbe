/** UTF-8 as the terminal speaks it: TerminalSession.writeCodePoint encodes, TerminalEmulator.processByte decodes.
    Shifts and masks of bytes are written as divisions and remainders. */
module Utf8 {
  import opened Bytes
  import opened WcWidth
  import opened Utf16

  const REPLACEMENT: CodePoint := 0xFFFD

  // ----- Encoding -----

  predicate Valid(c: int) {
    !(c > 1114111 || 0xD800 <= c <= 0xDFFF)
  }

  function Continuation(bits: int): Byte {
    128 + bits % 64
  }

  function Encode(c: CodePoint): (s: seq<Byte>)
    ensures 1 <= |s| <= 4
  {
    if c <= 0x7F then [c]
    else if c <= 0x7FF then [192 + c / 64, Continuation(c)]
    else if c <= 0xFFFF then [224 + c / 4096, Continuation(c / 64), Continuation(c)]
    else [240 + c / 262144, Continuation(c / 4096), Continuation(c / 64), Continuation(c)]
  }

  datatype Written = Written(count: nat) | InvalidCodePoint

  /** Encodes into `buffer`; a code point that is no Unicode scalar value is rejected. */
  method WriteCodePoint(buffer: array<Byte>, prependEscape: bool, codePoint: nat) returns (r: Written)
    requires buffer.Length == 5
    modifies buffer
    ensures r.InvalidCodePoint? <==> !Valid(codePoint)
    ensures r.Written? ==>
      r.count <= 5 && buffer[..r.count] == (if prependEscape then [27] else []) + Encode(codePoint)
  {
    if codePoint > 1114111 || (codePoint >= 0xD800 && codePoint <= 0xDFFF) {
      return InvalidCodePoint;
    }
    var position := 0;
    if prependEscape {
      buffer[position] := 27;
      position := position + 1;
    }
    if codePoint <= 0x7F {
      buffer[position] := codePoint;
      position := position + 1;
    } else if codePoint <= 0x7FF {
      buffer[position], buffer[position + 1] := 192 + codePoint / 64, Continuation(codePoint);
      position := position + 2;
    } else if codePoint <= 0xFFFF {
      buffer[position], buffer[position + 1] := 224 + codePoint / 4096, Continuation(codePoint / 64);
      buffer[position + 2] := Continuation(codePoint);
      position := position + 3;
    } else {
      buffer[position], buffer[position + 1] := 240 + codePoint / 262144, Continuation(codePoint / 4096);
      buffer[position + 2], buffer[position + 3] := Continuation(codePoint / 64), Continuation(codePoint);
      position := position + 4;
    }
    r := Written(position);
  }

  // ----- Decoding -----

  /** The bytes of a sequence read so far, and how many are to follow. */
  datatype Decoder = Decoder(toFollow: nat, input: seq<Byte>)

  const GROUND := Decoder(0, [])

  predicate Reachable(d: Decoder) {
    || d == GROUND
    || (0 < d.toFollow && 0 < |d.input| && |d.input| + d.toFollow <= 4)
  }

  /** What decoding hands on: a code point to process, or one to put on the screen whatever the escape state. */
  datatype Output = Process(c: CodePoint) | Emit(c: CodePoint)

  /** Code points that Character.getType() says are unassigned or surrogates. */
  predicate Unassigned(c: int) {
    InTable(TABLES.unassigned, c) || 0xD800 <= c < 0xE000 || c >= 0x11_0000
  }

  function LeadBits(lead: Byte, length: nat): nat {
    lead % (if length == 2 then 32 else if length == 3 then 16 else 8)
  }

  function Collect(bits: nat, rest: seq<Byte>): nat
    decreases rest
  {
    if rest == [] then bits else Collect(bits * 64 + rest[0] % 64, rest[1..])
  }

  /** The checks for overlong encodings; they let U+07FF through in three bytes and U+FFFF in four. */
  predicate Overlong(c: int, length: nat) {
    (c <= 0x7F && length > 1) || (c < 0x7FF && length > 2) || (c < 0xFFFF && length > 3)
  }

  function Decoded(c: int): (r: seq<Output>)
    requires 0 <= c
  {
    if 0x80 <= c <= 0x9F then [] else [Process(if Unassigned(c) then REPLACEMENT else c)]
  }

  /** What a complete sequence stands for. */
  function Finish(input: seq<Byte>): seq<Output>
    requires input != []
  {
    var c := Collect(LeadBits(input[0], |input|), input[1..]);
    Decoded(if Overlong(c, |input|) then REPLACEMENT else c)
  }

  predicate IsContinuation(b: Byte) {
    128 <= b < 192
  }

  /** A byte that starts a sequence. */
  function Lead(b: Byte): (r: (Decoder, seq<Output>))
    ensures Reachable(r.0)
  {
    if b < 128 then (GROUND, [Process(b)])
    else if 192 <= b < 224 then (Decoder(1, [b]), [])
    else if 224 <= b < 240 then (Decoder(2, [b]), [])
    else if 240 <= b < 248 then (Decoder(3, [b]), [])
    else (GROUND, [Process(REPLACEMENT)])
  }

  function Step(d: Decoder, b: Byte): (r: (Decoder, seq<Output>))
    requires Reachable(d)
    ensures Reachable(r.0)
  {
    if d.toFollow == 0 then Lead(b)
    else if IsContinuation(b) then
      var input := d.input + [b];
      if d.toFollow == 1 then (GROUND, Finish(input)) else (Decoder(d.toFollow - 1, input), [])
    else (Lead(b).0, [Emit(REPLACEMENT)] + Lead(b).1)
  }

  function Run(d: Decoder, bytes: seq<Byte>): (r: (Decoder, seq<Output>))
    requires Reachable(d)
    ensures Reachable(r.0)
    decreases bytes
  {
    if bytes == [] then (d, [])
    else
      var (d1, out1) := Step(d, bytes[0]);
      var (d2, out2) := Run(d1, bytes[1..]);
      (d2, out1 + out2)
  }

  lemma {:induction false} RunConcat(d: Decoder, a: seq<Byte>, b: seq<Byte>)
    requires Reachable(d)
    ensures var (d1, out1) := Run(d, a); var (d2, out2) := Run(d1, b); Run(d, a + b) == (d2, out1 + out2)
    decreases a
  {
    hide Step, Reachable;
    if a == [] {
      assert a + b == b;
      assert [] + Run(d, b).1 == Run(d, b).1;
    } else {
      assert (a + b)[1..] == a[1..] + b;
      var (d0, out0) := Step(d, a[0]);
      RunConcat(d0, a[1..], b);
      var (d1, out1) := Run(d0, a[1..]);
      var (d2, out2) := Run(d1, b);
      assert (out0 + out1) + out2 == out0 + (out1 + out2);
    }
  }

  // ----- Round trip -----

  /** What the decoder passes on unchanged: assigned, and no C1 control. */
  predicate Encodable(c: CodePoint) {
    !(0x80 <= c <= 0x9F) && (c <= 0x7F || !Unassigned(c))
  }

  function EncodeAll(s: seq<CodePoint>): seq<Byte> {
    if s == [] then [] else Encode(s[0]) + EncodeAll(s[1..])
  }

  function Processed(s: seq<CodePoint>): seq<Output> {
    seq(|s|, i requires 0 <= i < |s| => Process(s[i]))
  }

  /** The bits of a code point come together again. */
  lemma CollectEncoded(c: CodePoint)
    requires c > 0x7F
    ensures var e := Encode(c);
      && Collect(LeadBits(e[0], |e|), e[1..]) == c && !Overlong(c, |e|)
      && forall i :: 1 <= i < |e| ==> IsContinuation(e[i])
  {
    if c <= 0x7FF {
      CollectEncodedTwo(c);
    } else if c <= 0xFFFF {
      CollectEncodedThree(c);
    } else {
      CollectEncodedFour(c);
    }
  }

  lemma CollectEncodedTwo(c: CodePoint)
    requires 0x7F < c <= 0x7FF
    ensures var e := Encode(c); Collect(LeadBits(e[0], |e|), e[1..]) == c
    ensures IsContinuation(Encode(c)[1])
  {
    ContinuationBits(c);
    LeadBitsOf(c / 64);
    hide Continuation, Collect, LeadBits;
    var e := Encode(c);
    assert e[1..] == [Continuation(c)];
    CollectOne(LeadBits(e[0], 2), Continuation(c));
  }

  lemma CollectEncodedThree(c: CodePoint)
    requires 0x7FF < c <= 0xFFFF
    ensures var e := Encode(c); Collect(LeadBits(e[0], |e|), e[1..]) == c
    ensures IsContinuation(Encode(c)[1]) && IsContinuation(Encode(c)[2])
  {
    Digits(c);
    ContinuationBits(c);
    ContinuationBits(c / 64);
    LeadBitsOf(c / 4096);
    hide Continuation, Collect, LeadBits;
    var e := Encode(c);
    assert e[1..] == [Continuation(c / 64), Continuation(c)];
    CollectTwo(LeadBits(e[0], 3), Continuation(c / 64), Continuation(c));
  }

  lemma CollectEncodedFour(c: CodePoint)
    requires 0xFFFF < c
    ensures var e := Encode(c); Collect(LeadBits(e[0], |e|), e[1..]) == c
    ensures IsContinuation(Encode(c)[1]) && IsContinuation(Encode(c)[2]) && IsContinuation(Encode(c)[3])
  {
    Digits(c);
    ContinuationBits(c);
    ContinuationBits(c / 64);
    ContinuationBits(c / 4096);
    LeadBitsOf(c / 262144);
    hide Continuation, Collect, LeadBits;
    var e := Encode(c);
    assert e[1..] == [Continuation(c / 4096), Continuation(c / 64), Continuation(c)];
    CollectThree(LeadBits(e[0], 4), Continuation(c / 4096), Continuation(c / 64), Continuation(c));
  }

  lemma LeadBitsOf(bits: nat)
    ensures bits < 32 ==> LeadBits(192 + bits, 2) == bits
    ensures bits < 16 ==> LeadBits(224 + bits, 3) == bits
    ensures bits < 8 ==> LeadBits(240 + bits, 4) == bits
  {
  }

  lemma ContinuationBits(bits: nat)
    ensures Continuation(bits) % 64 == bits % 64 && IsContinuation(Continuation(bits))
  {
  }

  lemma CollectOne(bits: nat, a: Byte)
    ensures Collect(bits, [a]) == bits * 64 + a % 64
  {
    assert [a][1..] == [];
  }

  lemma CollectTwo(bits: nat, a: Byte, b: Byte)
    ensures Collect(bits, [a, b]) == (bits * 64 + a % 64) * 64 + b % 64
  {
    assert [a, b][1..] == [b];
    CollectOne(bits * 64 + a % 64, b);
  }

  lemma CollectThree(bits: nat, a: Byte, b: Byte, c: Byte)
    ensures Collect(bits, [a, b, c]) == ((bits * 64 + a % 64) * 64 + b % 64) * 64 + c % 64
  {
    assert [a, b, c][1..] == [b, c];
    CollectTwo(bits * 64 + a % 64, b, c);
  }

  lemma Digits(c: nat)
    ensures c == (c / 64) * 64 + c % 64
    ensures c / 64 == (c / 4096) * 64 + (c / 64) % 64
    ensures c / 4096 == (c / 262144) * 64 + (c / 4096) % 64
  {
  }

  lemma EncodedRoundTrip(c: CodePoint)
    requires Encodable(c)
    ensures Run(GROUND, Encode(c)) == (GROUND, [Process(c)])
  {
    var e := Encode(c);
    if c <= 0x7F {
      assert e == [e[0]];
      RunOne(GROUND, e[0]);
    } else {
      CollectEncoded(c);
      hide Collect, LeadBits, Overlong, Unassigned, Run, Encode;
      LeadOf(c);
      assert e == [e[0]] + e[1..];
      RunConcat(GROUND, [e[0]], e[1..]);
      RunOne(GROUND, e[0]);
      Follow(Decoder(|e| - 1, [e[0]]), e[1..]);
      assert Finish(e) == [Process(c)];
      assert [] + Finish(e) == Finish(e);
    }
  }

  lemma RunOne(d: Decoder, b: Byte)
    requires Reachable(d)
    ensures Run(d, [b]) == Step(d, b)
  {
    hide Step, Reachable;
    var (d1, out1) := Step(d, b);
    assert [b][1..] == [];
    assert Run(d1, []) == (d1, []);
    assert out1 + [] == out1;
  }

  lemma LeadOf(c: CodePoint)
    requires c > 0x7F
    ensures Lead(Encode(c)[0]) == (Decoder(|Encode(c)| - 1, [Encode(c)[0]]), [])
  {
  }

  /** The continuation bytes of a sequence. */
  lemma {:induction false} Follow(d: Decoder, rest: seq<Byte>)
    requires Reachable(d) && 0 < d.toFollow == |rest| && forall i :: 0 <= i < |rest| ==> IsContinuation(rest[i])
    ensures Run(d, rest) == (GROUND, Finish(d.input + rest))
    decreases rest
  {
    hide Finish;
    var input := d.input + [rest[0]];
    if |rest| == 1 {
      assert rest == [rest[0]];
      RunOne(d, rest[0]);
    } else {
      assert input + rest[1..] == d.input + rest;
      var next := Decoder(d.toFollow - 1, input);
      Follow(next, rest[1..]);
      assert [] + Run(next, rest[1..]).1 == Run(next, rest[1..]).1;
    }
  }

  /** Decoding undoes encoding. */
  lemma {:induction false} RoundTrip(s: seq<CodePoint>)
    requires forall i :: 0 <= i < |s| ==> Encodable(s[i])
    ensures Run(GROUND, EncodeAll(s)) == (GROUND, Processed(s))
  {
    if s != [] {
      hide Encode, Encodable, Run;
      EncodedRoundTrip(s[0]);
      RoundTrip(s[1..]);
      RunConcat(GROUND, Encode(s[0]), EncodeAll(s[1..]));
      assert Processed(s) == [Process(s[0])] + Processed(s[1..]);
    }
  }

  /** What a sequence left incomplete costs. */
  function Gap(d: Decoder): seq<Output> {
    if d == GROUND then [] else [Emit(REPLACEMENT)]
  }

  /** Self-synchronisation: whatever bytes come before, they cost the text after them at most one replacement
      character, which stands for a sequence they leave incomplete. */
  lemma SelfSynchronisation(p: seq<Byte>, s: seq<CodePoint>)
    requires s != [] && forall i :: 0 <= i < |s| ==> Encodable(s[i])
    ensures var (d, out) := Run(GROUND, p);
      Run(GROUND, p + EncodeAll(s)) == (GROUND, out + (Gap(d) + Processed(s)))
  {
    var d := Run(GROUND, p).0;
    AfterAnything(d, s);
    hide *;
    RunConcat(GROUND, p, EncodeAll(s));
  }

  lemma AfterAnything(d: Decoder, s: seq<CodePoint>)
    requires Reachable(d) && s != [] && forall i :: 0 <= i < |s| ==> Encodable(s[i])
    ensures Run(d, EncodeAll(s)) == (GROUND, Gap(d) + Processed(s))
  {
    hide Run, Encodable, EncodeAll, Processed, Step;
    RoundTrip(s);
    if d == GROUND {
      assert [] + Processed(s) == Processed(s);
    } else {
      StartsSequence(s);
      Resynchronise(d, EncodeAll(s));
    }
  }

  lemma StartsSequence(s: seq<CodePoint>)
    requires s != []
    ensures EncodeAll(s) != [] && !IsContinuation(EncodeAll(s)[0])
  {
  }

  lemma Resynchronise(d: Decoder, bytes: seq<Byte>)
    requires Reachable(d) && d != GROUND && bytes != [] && !IsContinuation(bytes[0])
    ensures Run(d, bytes) == (Run(GROUND, bytes).0, [Emit(REPLACEMENT)] + Run(GROUND, bytes).1)
  {
    var (d1, out1) := Lead(bytes[0]);
    var (d2, out2) := Run(d1, bytes[1..]);
    assert ([Emit(REPLACEMENT)] + out1) + out2 == [Emit(REPLACEMENT)] + (out1 + out2);
  }

  // ----- Overlong sequences -----

  /** A lead byte and all the continuation bytes it asks for. */
  predicate Complete(bytes: seq<Byte>) {
    && 2 <= |bytes| <= 4 && Lead(bytes[0]) == (Decoder(|bytes| - 1, [bytes[0]]), [])
    && forall i :: 1 <= i < |bytes| ==> IsContinuation(bytes[i])
  }

  function Value(bytes: seq<Byte>): nat
    requires bytes != []
  {
    Collect(LeadBits(bytes[0], |bytes|), bytes[1..])
  }

  /** The smallest code point that needs `length` bytes. */
  function Smallest(length: nat): nat {
    if length == 2 then 0x80 else if length == 3 then 0x800 else 0x10000
  }

  lemma CompleteRuns(bytes: seq<Byte>)
    requires Complete(bytes)
    ensures Run(GROUND, bytes) == (GROUND, Finish(bytes))
  {
    hide Run, Finish, IsContinuation;
    assert bytes == [bytes[0]] + bytes[1..];
    RunConcat(GROUND, [bytes[0]], bytes[1..]);
    RunOne(GROUND, bytes[0]);
    Follow(Decoder(|bytes| - 1, [bytes[0]]), bytes[1..]);
    assert [] + Finish(bytes) == Finish(bytes);
  }

  /** The one sequence of three bytes with the value U+07FF. */
  lemma OnlySequence(bytes: seq<Byte>)
    requires Complete(bytes) && |bytes| == 3
    ensures Value(bytes) == 0x7FF <==> bytes == [0xE0, 0x9F, 0xBF]
  {
    assert bytes == [bytes[0], bytes[1], bytes[2]] && bytes[1..] == [bytes[1], bytes[2]];
    CollectTwo(LeadBits(bytes[0], 3), bytes[1], bytes[2]);
    assert 224 <= bytes[0] < 240;
    hide Collect, Lead;
  }

  /** Overlong sequences are replaced, but for one: E0 9F BF is decoded to U+07FF, if that is assigned. The source's
      other slip, F0 8F BF BF, ends as a replacement too, because U+FFFF is unassigned. */
  lemma OverlongReplaced(bytes: seq<Byte>)
    requires Complete(bytes) && Value(bytes) < Smallest(|bytes|)
    ensures var passes := bytes == [0xE0, 0x9F, 0xBF] && !Unassigned(0x7FF);
      Run(GROUND, bytes) == (GROUND, [Process(if passes then 0x7FF else REPLACEMENT)])
  {
    CompleteRuns(bytes);
    if |bytes| == 3 {
      OnlySequence(bytes);
    }
    hide Run, Collect, LeadBits, Lead;
  }

  /** The overlong sequences that the checks let through. */
  const THREE_BYTES: seq<Byte> := [0xE0, 0x9F, 0xBF]
  const FOUR_BYTES: seq<Byte> := [0xF0, 0x8F, 0xBF, 0xBF]

  lemma ThreeBytesPass()
    ensures Complete(THREE_BYTES) && Value(THREE_BYTES) == 0x7FF
  {
    hide Run, Step, Overlong, Unassigned, Finish, Collect;
    assert THREE_BYTES[1..] == [0x9F, 0xBF];
    CollectTwo(LeadBits(0xE0, 3), 0x9F, 0xBF);
  }

  lemma FourBytesPass()
    ensures Complete(FOUR_BYTES) && Value(FOUR_BYTES) == 0xFFFF
  {
    hide Run, Step, Overlong, Unassigned, Finish, Collect;
    assert FOUR_BYTES[1..] == [0x8F, 0xBF, 0xBF];
    CollectThree(LeadBits(0xF0, 4), 0x8F, 0xBF, 0xBF);
  }

  /** The checks let both through; the first is decoded to U+07FF if that is assigned, the second to a replacement. */
  lemma OverlongAccepted()
    ensures Complete(THREE_BYTES) && Value(THREE_BYTES) < Smallest(|THREE_BYTES|) && !Overlong(Value(THREE_BYTES), 3)
    ensures Complete(FOUR_BYTES) && Value(FOUR_BYTES) < Smallest(|FOUR_BYTES|) && !Overlong(Value(FOUR_BYTES), 4)
    ensures Run(GROUND, THREE_BYTES) == (GROUND, [Process(if Unassigned(0x7FF) then REPLACEMENT else 0x7FF)])
    ensures Run(GROUND, FOUR_BYTES) == (GROUND, [Process(REPLACEMENT)])
  {
    hide Run, Step, Unassigned, Finish, Collect, Complete, Value;
    ThreeBytesPass();
    FourBytesPass();
    OverlongReplaced(THREE_BYTES);
    OverlongReplaced(FOUR_BYTES);
  }
}
