/** What the characters of a JSON string mean (RFC 8259 section 7), independently of how they are
    decoded, and the lexical tables as RFC 8259 prints them. */
module JsonMeaning {
  import opened Bytes
  import opened Utf8
  import opened JsonGrammar

  // ------------------------------------------------------------ tables

  function Lower(): (s: string) { "0123456789abcdef" }
  function Upper(): (s: string) { "0123456789ABCDEF" }

  lemma {:induction false} HexDigitExact(b: byte, n: nat)
    ensures HexDigit(b) == Some(n) <==>
      n < 16 && (b == Lower()[n] as int || b == Upper()[n] as int)
  {
  }

  /** A quad of hex digits is the number with those base-16 digits. */
  lemma {:induction false} HexValueExact(h: bytes)
    requires IsHexQuad(h)
    ensures var n := HexValue(h);
      && HexDigit(h[0]).value == n / 4096 && HexDigit(h[1]).value == n / 256 % 16
      && HexDigit(h[2]).value == n / 16 % 16 && HexDigit(h[3]).value == n % 16
  {
    hide HexDigit;
    var a, b, c, d := HexDigit(h[0]).value, HexDigit(h[1]).value, HexDigit(h[2]).value, HexDigit(h[3]).value;
    assert HexDigit(h[0]).Some? && HexDigit(h[1]).Some? && HexDigit(h[2]).Some? && HexDigit(h[3]).Some?;
    Base16(a, b, c, d);
  }

  lemma Base16(a: nat, b: nat, c: nat, d: nat)
    requires a < 16 && b < 16 && c < 16 && d < 16
    ensures var n := ((a * 16 + b) * 16 + c) * 16 + d;
      n / 4096 == a && n / 256 % 16 == b && n / 16 % 16 == c && n % 16 == d
  {
    var n := ((a * 16 + b) * 16 + c) * 16 + d;
    assert n / 16 == (a * 16 + b) * 16 + c;
    assert n / 256 == a * 16 + b;
  }

  /** The two-character escapes and what they stand for: quotation mark, reverse solidus, solidus,
      backspace, form feed, line feed, carriage return, tab. */
  lemma {:induction false} ShortEscapeExact(letter: byte, b: byte)
    ensures ShortEscape(letter) == Some(b) <==>
      || (letter == '"' as int && b == '"' as int)
      || (letter == '\\' as int && b == '\\' as int)
      || (letter == '/' as int && b == '/' as int)
      || (letter == 'b' as int && b == 8)
      || (letter == 'f' as int && b == 12)
      || (letter == 'n' as int && b == '\n' as int)
      || (letter == 'r' as int && b == '\r' as int)
      || (letter == 't' as int && b == '\t' as int)
  {
  }

  /** White space, digits, structural characters and literal names. */
  lemma {:induction false} LexicalTables(b: byte)
    ensures IsWs(b) <==> b == ' ' as int || b == '\n' as int || b == '\r' as int || b == '\t' as int
    ensures IsDigit(b) <==> '0' as int <= b <= '9' as int
    ensures QUOTE == '"' as int && BACKSLASH == '\\' as int && LETTER_U == 'u' as int
    ensures COLON == ':' as int && COMMA == ',' as int
    ensures OPEN_BRACE == '{' as int && CLOSE_BRACE == '}' as int
    ensures OPEN_BRACKET == '[' as int && CLOSE_BRACKET == ']' as int
    ensures MINUS == '-' as int && PLUS == '+' as int && DOT == '.' as int && ZERO == '0' as int
  {
  }

  lemma {:induction false} WordExact()
    ensures WordBytes(True) == Ascii("true") && WordBytes(False) == Ascii("false") && WordBytes(Null) == Ascii("null")
  {
  }

  /** Surrogates carry ten bits each, and a pair is the UTF-16 form of exactly one scalar. */
  lemma {:induction false} SurrogateExact(high: nat, low: nat, c: int)
    ensures IsHigh(high) <==> high / 1024 == 54
    ensures IsLow(low) <==> low / 1024 == 55
    ensures IsHigh(high) && IsLow(low) ==>
      (SurrogateScalar(high, low) == c <==>
        && 0x1_0000 <= c < 0x11_0000
        && high == 0xD800 + (c - 0x1_0000) / 1024 && low == 0xDC00 + (c - 0x1_0000) % 1024)
  {
  }

  // ------------------------------------------------------------ characters

  /** The scalar value a character stands for. */
  function Meaning(c: Char): (n: int)
    requires CharOk(c)
  {
    match c
    case Plain(s) => CodePoint(s)
    case Short(l) => ShortEscape(l).value
    case Unit(h) => HexValue(h)
    case Pair(h, l) => 0x1_0000 + (HexValue(h) % 1024) * 1024 + HexValue(l) % 1024
  }

  function Meanings(cs: seq<Char>): (ns: seq<int>)
    requires CharsOk(cs)
    ensures |ns| == |cs|
  {
    if cs == [] then [] else [Meaning(cs[0])] + Meanings(cs[1..])
  }

  lemma {:induction false} CharMeaning(c: Char)
    requires CharOk(c)
    ensures IsScalar(Meaning(c)) && DecodeChar(c) == EncodeScalar(Meaning(c))
  {
    hide HexDigit;
    match c
    case Plain(s) => EncodeOfCodePoint(s);
    case Short(l) =>
    case Unit(h) =>
    case Pair(h, l) => assert HexValue(h) % 1024 == HexValue(h) - 0xD800 && HexValue(l) % 1024 == HexValue(l) - 0xDC00;
  }

  /** A decoded string is the UTF-8 of the scalars its characters stand for. */
  lemma {:induction false} StringMeaning(cs: seq<Char>)
    requires CharsOk(cs)
    ensures AllScalars(Meanings(cs)) && DecodeChars(cs) == EncodeAll(Meanings(cs))
  {
    hide CharOk, Meaning, DecodeChar, EncodeScalar, IsScalar;
    if cs != [] {
      CharMeaning(cs[0]);
      StringMeaning(cs[1..]);
      assert Meanings(cs)[1..] == Meanings(cs[1..]);
    }
  }

  /** Two names decode alike exactly when they spell the same scalars, however each is written. */
  lemma {:induction false} SameNameIff(cs: seq<Char>, ds: seq<Char>)
    requires CharsOk(cs) && CharsOk(ds)
    ensures DecodeChars(cs) == DecodeChars(ds) <==> Meanings(cs) == Meanings(ds)
  {
    hide CharsOk, DecodeChars, Meanings, EncodeAll, ScalarsOf;
    StringMeaning(cs);
    StringMeaning(ds);
    EncodedScalars(Meanings(cs));
    EncodedScalars(Meanings(ds));
  }

  /** So an object's names are distinct exactly when no two members spell the same scalars. */
  lemma {:induction false} DistinctNamesIff(ms: seq<Member>)
    requires NamesOk(ms)
    ensures NoDuplicates(Names(ms)) <==>
      forall i, j :: 0 <= i < j < |ms| ==> Meanings(ms[i].name) != Meanings(ms[j].name)
  {
    hide CharsOk, DecodeChars, Meanings;
    forall i, j | 0 <= i < j < |ms|
      ensures Names(ms)[i] == Names(ms)[j] <==> Meanings(ms[i].name) == Meanings(ms[j].name)
    {
      SameNameIff(ms[i].name, ms[j].name);
    }
  }
}
