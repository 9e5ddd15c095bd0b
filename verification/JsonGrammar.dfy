/** JSON text (RFC 8259 sections 2 to 7) as concrete syntax trees, the text a tree stands for,
    and the limits the wallet puts on it. Nothing here scans: this is what is to be recognised. */
module JsonGrammar {
  import opened Bytes
  import opened Utf8

  const QUOTE: byte := 0x22
  const BACKSLASH: byte := 0x5C
  const LETTER_U: byte := 0x75
  const COLON: byte := 0x3A
  const COMMA: byte := 0x2C
  const OPEN_BRACE: byte := 0x7B
  const CLOSE_BRACE: byte := 0x7D
  const OPEN_BRACKET: byte := 0x5B
  const CLOSE_BRACKET: byte := 0x5D
  const MINUS: byte := 0x2D
  const PLUS: byte := 0x2B
  const DOT: byte := 0x2E
  const ZERO: byte := 0x30

  datatype Limits = Limits(maxBytes: nat, maxDepth: nat, maxEntries: nat, maxString: nat)

  // ------------------------------------------------------------ lexical classes

  predicate IsWs(b: byte) { b == 0x20 || b == 0x0A || b == 0x0D || b == 0x09 }
  predicate AllWs(s: bytes) { forall i :: 0 <= i < |s| ==> IsWs(s[i]) }

  predicate IsDigit(b: byte) { 0x30 <= b <= 0x39 }
  predicate AllDigits(s: bytes) { forall i :: 0 <= i < |s| ==> IsDigit(s[i]) }

  function HexDigit(b: byte): (r: Option<nat>)
    ensures r.Some? ==> r.value < 16
  {
    if 0x30 <= b <= 0x39 then Some(b - 0x30)
    else if 0x61 <= b <= 0x66 then Some(b - 0x61 + 10)
    else if 0x41 <= b <= 0x46 then Some(b - 0x41 + 10)
    else None
  }

  predicate IsHexQuad(h: bytes) { |h| == 4 && forall i :: 0 <= i < 4 ==> HexDigit(h[i]).Some? }

  function HexValue(h: bytes): (n: nat)
    requires IsHexQuad(h)
    ensures n < 0x1_0000
  {
    ((HexDigit(h[0]).value * 16 + HexDigit(h[1]).value) * 16 + HexDigit(h[2]).value) * 16 + HexDigit(h[3]).value
  }

  predicate IsHigh(n: nat) { 0xD800 <= n <= 0xDBFF }
  predicate IsLow(n: nat) { 0xDC00 <= n <= 0xDFFF }

  // ------------------------------------------------------------ strings

  /** One character of a string as written. */
  datatype Char =
    | Plain(scalar: bytes)
    | Short(letter: byte)
    | Unit(hex: bytes)
    | Pair(high: bytes, low: bytes)

  /** What a two-character escape stands for. */
  function ShortEscape(letter: byte): (r: Option<byte>)
    ensures r.Some? ==> r.value < 0x80
  {
    if letter == 0x22 || letter == 0x5C || letter == 0x2F then Some(letter)
    else if letter == 0x62 then Some(0x08)
    else if letter == 0x66 then Some(0x0C)
    else if letter == 0x6E then Some(0x0A)
    else if letter == 0x72 then Some(0x0D)
    else if letter == 0x74 then Some(0x09)
    else None
  }

  predicate CharOk(c: Char) {
    match c
    case Plain(s) => OneScalar(s) && s[0] >= 0x20 && s[0] != QUOTE && s[0] != BACKSLASH
    case Short(l) => ShortEscape(l).Some?
    case Unit(h) => IsHexQuad(h) && !IsHigh(HexValue(h)) && !IsLow(HexValue(h))
    case Pair(h, l) => IsHexQuad(h) && IsHexQuad(l) && IsHigh(HexValue(h)) && IsLow(HexValue(l))
  }

  function RenderChar(c: Char): (s: bytes) {
    match c
    case Plain(s) => s
    case Short(l) => [BACKSLASH, l]
    case Unit(h) => [BACKSLASH, LETTER_U] + h
    case Pair(h, l) => [BACKSLASH, LETTER_U] + h + ([BACKSLASH, LETTER_U] + l)
  }

  function SurrogateScalar(high: nat, low: nat): (c: int)
    requires IsHigh(high) && IsLow(low)
    ensures IsScalar(c) && 0x1_0000 <= c
  {
    0x1_0000 + (high - 0xD800) * 1024 + (low - 0xDC00)
  }

  /** The UTF-8 a character contributes to the decoded string. */
  function DecodeChar(c: Char): (s: bytes)
    requires CharOk(c)
  {
    match c
    case Plain(s) => s
    case Short(l) => [ShortEscape(l).value]
    case Unit(h) => EncodeScalar(HexValue(h))
    case Pair(h, l) => EncodeScalar(SurrogateScalar(HexValue(h), HexValue(l)))
  }

  predicate CharsOk(cs: seq<Char>) { forall i :: 0 <= i < |cs| ==> CharOk(cs[i]) }

  function DecodeChars(cs: seq<Char>): (s: bytes)
    requires CharsOk(cs)
  {
    if cs == [] then [] else DecodeChar(cs[0]) + DecodeChars(cs[1..])
  }

  function RenderChars(cs: seq<Char>): (s: bytes) {
    if cs == [] then [] else RenderChar(cs[0]) + RenderChars(cs[1..])
  }

  /** A string literal: its characters between quotation marks. */
  function RenderString(cs: seq<Char>): (s: bytes) {
    [QUOTE] + (RenderChars(cs) + [QUOTE])
  }

  predicate StringOk(cs: seq<Char>, lim: Limits) {
    CharsOk(cs) && |DecodeChars(cs)| <= lim.maxString
  }

  // ------------------------------------------------------------ numbers

  datatype Exponent = Exponent(letter: byte, sign: bytes, digits: bytes)
  datatype Number = Number(minus: bool, whole: bytes, fraction: Option<bytes>, exponent: Option<Exponent>)

  predicate NonEmptyDigits(s: bytes) { s != [] && AllDigits(s) }

  predicate ExponentOk(e: Exponent) {
    && (e.letter == 0x65 || e.letter == 0x45)
    && (e.sign == [] || e.sign == [PLUS] || e.sign == [MINUS])
    && NonEmptyDigits(e.digits)
  }

  predicate NumberOk(n: Number) {
    && NonEmptyDigits(n.whole)
    && (n.whole[0] == ZERO ==> |n.whole| == 1)
    && (n.fraction.Some? ==> NonEmptyDigits(n.fraction.value))
    && (n.exponent.Some? ==> ExponentOk(n.exponent.value))
  }

  function RenderFraction(f: Option<bytes>): (s: bytes) {
    if f.None? then [] else [DOT] + f.value
  }

  function RenderExponent(e: Option<Exponent>): (s: bytes) {
    if e.None? then [] else [e.value.letter] + (e.value.sign + e.value.digits)
  }

  function RenderNumber(n: Number): (s: bytes) {
    (if n.minus then [MINUS] else []) + (n.whole + (RenderFraction(n.fraction) + RenderExponent(n.exponent)))
  }

  // ------------------------------------------------------------ values

  datatype Word = True | False | Null

  /** `blank` is the white space of an empty container; non-empty ones keep theirs inside. */
  datatype Json =
    | Object(blank: bytes, members: seq<Member>)
    | Array(blank: bytes, elements: seq<Element>)
    | Str(chars: seq<Char>)
    | Num(number: Number)
    | Literal(word: Word)

  datatype Member = Member(before: bytes, name: seq<Char>, gap: bytes, lead: bytes, value: Json, after: bytes)
  datatype Element = Element(lead: bytes, value: Json, after: bytes)

  function WordBytes(w: Word): (s: bytes)
    ensures |s| >= 4
  {
    match w
    case True => [0x74, 0x72, 0x75, 0x65]
    case False => [0x66, 0x61, 0x6C, 0x73, 0x65]
    case Null => [0x6E, 0x75, 0x6C, 0x6C]
  }

  function Render(j: Json): (s: bytes) {
    match j
    case Object(blank, ms) =>
      if ms == [] then [OPEN_BRACE] + (blank + [CLOSE_BRACE]) else [OPEN_BRACE] + RenderMembers(ms)
    case Array(blank, es) =>
      if es == [] then [OPEN_BRACKET] + (blank + [CLOSE_BRACKET]) else [OPEN_BRACKET] + RenderElements(es)
    case Str(cs) => RenderString(cs)
    case Num(n) => RenderNumber(n)
    case Literal(w) => WordBytes(w)
  }

  /** Members separated by commas, up to and including the closing brace. */
  function RenderMembers(ms: seq<Member>): (s: bytes)
    requires ms != []
  {
    var m := ms[0];
    assert m.value < m;
    MemberText(m, Render(m.value), if |ms| == 1 then [CLOSE_BRACE] else [COMMA] + RenderMembers(ms[1..]))
  }

  /** One member whose value reads `value`, followed by `tail`. */
  function MemberText(m: Member, value: bytes, tail: bytes): (s: bytes) {
    m.before + (RenderString(m.name) + (m.gap + ([COLON] + (m.lead + (value + (m.after + tail))))))
  }

  /** Elements separated by commas, up to and including the closing bracket. */
  function RenderElements(es: seq<Element>): (s: bytes)
    requires es != []
  {
    var e := es[0];
    assert e.value < e;
    ElementText(e, Render(e.value), if |es| == 1 then [CLOSE_BRACKET] else [COMMA] + RenderElements(es[1..]))
  }

  function ElementText(e: Element, value: bytes, tail: bytes): (s: bytes) {
    e.lead + (value + (e.after + tail))
  }

  // ------------------------------------------------------------ what is accepted

  predicate NoDuplicates(names: seq<bytes>) {
    forall i, j :: 0 <= i < j < |names| ==> names[i] != names[j]
  }

  predicate NamesOk(ms: seq<Member>) { forall i :: 0 <= i < |ms| ==> CharsOk(ms[i].name) }

  /** Member names after escape decoding. */
  function Names(ms: seq<Member>): (r: seq<bytes>)
    requires NamesOk(ms)
    ensures |r| == |ms|
    ensures forall i :: 0 <= i < |ms| ==> r[i] == DecodeChars(ms[i].name)
  {
    seq(|ms|, i requires 0 <= i < |ms| => DecodeChars(ms[i].name))
  }

  /** Well formed under RFC 8259 with paired surrogates, and within every limit: nesting
      depth (the value sits below `parent` open containers), entries of each container,
      decoded length of each string, distinct decoded names in each object. */
  predicate Admissible(j: Json, parent: nat, lim: Limits) {
    match j
    case Object(blank, ms) =>
      && parent + 1 <= lim.maxDepth
      && AllWs(blank) && (ms != [] ==> blank == [])
      && |ms| <= lim.maxEntries
      && (forall i :: 0 <= i < |ms| ==> MemberSyntax(ms[i], lim) && Admissible(ms[i].value, parent + 1, lim))
      && NoDuplicates(Names(ms))
    case Array(blank, es) =>
      && parent + 1 <= lim.maxDepth
      && AllWs(blank) && (es != [] ==> blank == [])
      && |es| <= lim.maxEntries
      && (forall i :: 0 <= i < |es| ==> ElementSyntax(es[i]) && Admissible(es[i].value, parent + 1, lim))
    case Str(cs) => StringOk(cs, lim)
    case Num(n) => NumberOk(n)
    case Literal(_) => true
  }

  predicate MemberSyntax(m: Member, lim: Limits) {
    AllWs(m.before) && StringOk(m.name, lim) && AllWs(m.gap) && AllWs(m.lead) && AllWs(m.after)
  }

  predicate ElementSyntax(e: Element) { AllWs(e.lead) && AllWs(e.after) }

  /** The input is one object, padded with white space, that is admissible. */
  ghost predicate IsBoundedObject(input: bytes, lim: Limits) {
    exists pre, j: Json, post ::
      && AllWs(pre) && AllWs(post)
      && j.Object? && Admissible(j, 0, lim)
      && input == pre + (Render(j) + post)
  }
}
