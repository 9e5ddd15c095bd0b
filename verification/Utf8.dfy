/** Well-formed UTF-8 (Unicode Table 3-7), the validity that `core::str::from_utf8`
    decides and that every Rust `String` carries. */
module Utf8 {
  import opened Bytes

  predicate Continuation(b: byte) { 0x80 <= b <= 0xBF }

  predicate SecondOfThree(first: byte, second: byte) {
    || (first == 0xE0 && 0xA0 <= second <= 0xBF)
    || (0xE1 <= first <= 0xEC && Continuation(second))
    || (first == 0xED && 0x80 <= second <= 0x9F)
    || (0xEE <= first <= 0xEF && Continuation(second))
  }

  predicate SecondOfFour(first: byte, second: byte) {
    || (first == 0xF0 && 0x90 <= second <= 0xBF)
    || (0xF1 <= first <= 0xF3 && Continuation(second))
    || (first == 0xF4 && 0x80 <= second <= 0x8F)
  }

  /** Width of the scalar value `s` starts with, 0 when it starts with none. */
  function ScalarWidth(s: bytes): (w: nat)
    ensures w <= 4 && w <= |s|
  {
    if |s| >= 1 && s[0] <= 0x7F then 1
    else if |s| >= 2 && 0xC2 <= s[0] <= 0xDF && Continuation(s[1]) then 2
    else if |s| >= 3 && SecondOfThree(s[0], s[1]) && Continuation(s[2]) then 3
    else if |s| >= 4 && SecondOfFour(s[0], s[1]) && Continuation(s[2]) && Continuation(s[3]) then 4
    else 0
  }

  predicate ValidUtf8(s: bytes)
    decreases |s|
  {
    s == [] || (ScalarWidth(s) > 0 && ValidUtf8(s[ScalarWidth(s)..]))
  }

  /** Exactly one scalar value. */
  predicate OneScalar(s: bytes) {
    |s| > 0 && ScalarWidth(s) == |s|
  }

  /** A scalar at the front is complete on its own, and validity is decided after it. */
  lemma FirstScalar(s: bytes)
    requires ScalarWidth(s) > 0
    ensures OneScalar(s[..ScalarWidth(s)])
    ensures ValidUtf8(s) <==> ValidUtf8(s[ScalarWidth(s)..])
  {
  }

  lemma {:induction false} AsciiIsUtf8(s: bytes)
    requires forall i :: 0 <= i < |s| ==> s[i] < 128
    ensures ValidUtf8(s)
    decreases |s|
  {
    if s != [] { AsciiIsUtf8(s[1..]); }
  }

  // ------------------------------------------------------------ scalars as code points

  predicate IsScalar(c: int) { 0 <= c < 0xD800 || 0xE000 <= c < 0x11_0000 }

  function TwoBytes(c: int): (s: bytes)
    requires 0x80 <= c < 0x800
    ensures OneScalar(s)
  {
    [0xC0 + c / 64, 0x80 + c % 64]
  }

  function ThreeBytes(c: int): (s: bytes)
    requires 0x800 <= c < 0x1_0000 && IsScalar(c)
    ensures OneScalar(s)
  {
    [0xE0 + c / 4096, 0x80 + c / 64 % 64, 0x80 + c % 64]
  }

  function FourBytes(c: int): (s: bytes)
    requires 0x1_0000 <= c && IsScalar(c)
    ensures OneScalar(s)
  {
    [0xF0 + c / 262144, 0x80 + c / 4096 % 64, 0x80 + c / 64 % 64, 0x80 + c % 64]
  }

  /** `String::push` of one `char`. */
  function EncodeScalar(c: int): (s: bytes)
    requires IsScalar(c)
    ensures OneScalar(s)
  {
    if c < 0x80 then [c]
    else if c < 0x800 then TwoBytes(c)
    else if c < 0x1_0000 then ThreeBytes(c)
    else FourBytes(c)
  }

  /** Six more payload bits. */
  function Append6(high: int, b: byte): (c: int) { high * 64 + (b as int - 0x80) }

  /** The scalar value a one-scalar byte string spells, from its payload bits. */
  function CodePoint(s: bytes): (c: int)
    requires OneScalar(s)
  {
    if |s| == 1 then s[0]
    else if |s| == 2 then Append6(s[0] as int - 0xC0, s[1])
    else if |s| == 3 then Append6(Append6(s[0] as int - 0xE0, s[1]), s[2])
    else Append6(Append6(Append6(s[0] as int - 0xF0, s[1]), s[2]), s[3])
  }

  lemma Split6(c: int)
    requires c >= 0
    ensures c == c / 64 * 64 + c % 64 && c / 4096 == c / 64 / 64 && c / 262144 == c / 64 / 64 / 64
    ensures c / 4096 % 64 == c / 64 / 64 % 64
  {
  }

  lemma Join6(high: int, b: byte)
    requires high >= 0 && Continuation(b)
    ensures Append6(high, b) / 64 == high && Append6(high, b) % 64 == b as int - 0x80
  {
  }

  /** Every scalar is spelled by its own encoding. */
  lemma {:induction false} CodePointOfEncode(c: int)
    requires IsScalar(c)
    ensures CodePoint(EncodeScalar(c)) == c
  {
    var d := c / 64;
    var e := d / 64;
    Split6(c);
    Split6(d);
    Split6(e);
    assert 0x80 <= c < 0x800 ==> Append6(d, 0x80 + c % 64) == c;
    assert Append6(d, 0x80 + c % 64) == c && Append6(e, 0x80 + d % 64) == d && Append6(e / 64, 0x80 + e % 64) == e;
  }

  /** Every well-formed scalar spells a scalar value, and is that value's encoding. */
  lemma {:induction false} EncodeOfCodePoint(s: bytes)
    requires OneScalar(s)
    ensures IsScalar(CodePoint(s)) && EncodeScalar(CodePoint(s)) == s
  {
    if |s| == 2 { SpelledInTwo(s); }
    if |s| == 3 { SpelledInThree(s); }
    if |s| == 4 { SpelledInFour(s); }
  }

  lemma {:induction false} SpelledInTwo(s: bytes)
    requires OneScalar(s) && |s| == 2
    ensures var c := CodePoint(s); 0x80 <= c < 0x800 && TwoBytes(c) == s
  {
    Join6(s[0] as int - 0xC0, s[1]);
  }

  lemma {:induction false} SpelledInThree(s: bytes)
    requires OneScalar(s) && |s| == 3
    ensures var c := CodePoint(s); 0x800 <= c < 0x1_0000 && IsScalar(c) && ThreeBytes(c) == s
  {
    var high := Append6(s[0] as int - 0xE0, s[1]);
    Join6(s[0] as int - 0xE0, s[1]);
    Join6(high, s[2]);
    Split6(Append6(high, s[2]));
  }

  lemma {:induction false} SpelledInFour(s: bytes)
    requires OneScalar(s) && |s| == 4
    ensures var c := CodePoint(s); 0x1_0000 <= c && IsScalar(c) && FourBytes(c) == s
  {
    var top := Append6(s[0] as int - 0xF0, s[1]);
    var high := Append6(top, s[2]);
    Join6(s[0] as int - 0xF0, s[1]);
    Join6(top, s[2]);
    Join6(high, s[3]);
    Split6(Append6(high, s[3]));
  }

  predicate AllScalars(cs: seq<int>) { forall i :: 0 <= i < |cs| ==> IsScalar(cs[i]) }

  function EncodeAll(cs: seq<int>): (s: bytes)
    requires AllScalars(cs)
  {
    if cs == [] then [] else EncodeScalar(cs[0]) + EncodeAll(cs[1..])
  }

  /** The scalar values of a valid byte string. */
  function ScalarsOf(s: bytes): (cs: seq<int>)
    requires ValidUtf8(s)
    decreases |s|
  {
    if s == [] then []
    else
      var w := ScalarWidth(s);
      FirstScalar(s);
      [CodePoint(s[..w])] + ScalarsOf(s[w..])
  }

  lemma {:induction false} ScalarsEncode(s: bytes)
    requires ValidUtf8(s)
    ensures AllScalars(ScalarsOf(s)) && EncodeAll(ScalarsOf(s)) == s
    decreases |s|
  {
    hide CodePoint, EncodeScalar, ScalarWidth, IsScalar, AllScalars, EncodeAll;
    if s == [] {
      NoScalars();
    } else {
      var w := ScalarWidth(s);
      FirstScalar(s);
      ScalarsEncode(s[w..]);
      EncodeOfCodePoint(s[..w]);
      OneMore(CodePoint(s[..w]), ScalarsOf(s[w..]));
      assert s == s[..w] + s[w..];
    }
  }

  lemma NoScalars()
    ensures AllScalars([]) && EncodeAll([]) == []
  {
  }

  lemma OneMore(c: int, cs: seq<int>)
    requires IsScalar(c) && AllScalars(cs)
    ensures AllScalars([c] + cs) && EncodeAll([c] + cs) == EncodeScalar(c) + EncodeAll(cs)
  {
    hide EncodeScalar, IsScalar;
    assert ([c] + cs)[1..] == cs;
  }

  lemma {:induction false} EncodedScalars(cs: seq<int>)
    requires AllScalars(cs)
    ensures ValidUtf8(EncodeAll(cs)) && ScalarsOf(EncodeAll(cs)) == cs
  {
    hide CodePoint, EncodeScalar, ScalarWidth;
    if cs != [] {
      var x, rest := EncodeScalar(cs[0]), EncodeAll(cs[1..]);
      EncodedScalars(cs[1..]);
      FrontWidth(x, rest);
      CodePointOfEncode(cs[0]);
      assert (x + rest)[..|x|] == x && (x + rest)[|x|..] == rest;
      assert cs == [cs[0]] + cs[1..];
    }
  }

  lemma FrontWidth(x: bytes, rest: bytes)
    requires OneScalar(x)
    ensures ScalarWidth(x + rest) == |x|
  {
    assert forall i :: 0 <= i < |x| ==> (x + rest)[i] == x[i];
  }

  /** Valid byte strings are exactly the encodings of scalar sequences, each of one sequence. */
  lemma {:induction false} Utf8Exact(s: bytes, cs: seq<int>)
    ensures AllScalars(cs) && s == EncodeAll(cs) <==> ValidUtf8(s) && cs == ScalarsOf(s)
  {
    if AllScalars(cs) { EncodedScalars(cs); }
    if ValidUtf8(s) { ScalarsEncode(s); }
  }
}
