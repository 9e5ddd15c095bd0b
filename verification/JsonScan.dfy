/** The recursive-descent scan of the bounded JSON boundary, as functions from the unread input
    to the syntax tree recognised and the input left, or the error reported. */
module JsonScan {
  import opened Bytes
  import opened Utf8
  import opened JsonGrammar

  datatype JsonError =
    | LimitsExceedHardMaximum
    | InputTooLarge
    | DepthExceeded
    | ContainerEntriesExceeded
    | StringTooLong
    | DuplicateMember
    | InvalidJson
    | NonObjectRoot

  const ABSOLUTE_MAX_JSON_BYTES: nat := 262144
  const ABSOLUTE_MAX_JSON_DEPTH: nat := 16
  const ABSOLUTE_MAX_CONTAINER_ENTRIES: nat := 128
  const ABSOLUTE_MAX_STRING_BYTES: nat := ABSOLUTE_MAX_JSON_BYTES

  type Scan<T> = Result<(T, bytes), JsonError>

  predicate Starts(s: bytes, b: byte) { s != [] && s[0] == b }

  /** Length of the white space at the front. */
  function WsLen(s: bytes): (n: nat)
    ensures n <= |s|
  {
    if s != [] && IsWs(s[0]) then 1 + WsLen(s[1..]) else 0
  }

  /** Length of the digit run at the front. */
  function DigitLen(s: bytes): (n: nat)
    ensures n <= |s|
  {
    if s != [] && IsDigit(s[0]) then 1 + DigitLen(s[1..]) else 0
  }

  // ------------------------------------------------------------ strings

  /** Width announced by the first byte of a multi-byte scalar. */
  function Utf8Width(first: byte): (r: Option<nat>)
    ensures r.Some? ==> 2 <= r.value <= 4
  {
    if 0xC2 <= first <= 0xDF then Some(2)
    else if 0xE0 <= first <= 0xEF then Some(3)
    else if 0xF0 <= first <= 0xF4 then Some(4)
    else None
  }

  function ScanMultiByte(s: bytes): (r: Scan<Char>)
    requires s != [] && s[0] >= 0x80
    ensures r.Ok? ==> |r.value.1| < |s|
  {
    match Utf8Width(s[0])
    case None => Err(InvalidJson)
    case Some(w) =>
      if w > |s| then Err(InvalidJson)
      else if !ValidUtf8(s[..w]) then Err(InvalidJson)
      else Ok((Plain(s[..w]), s[w..]))
  }

  function ScanHexQuad(s: bytes): (r: Scan<bytes>)
    ensures r.Ok? ==> IsHexQuad(r.value.0) && s == r.value.0 + r.value.1
  {
    if |s| >= 4 && IsHexQuad(s[..4]) then Ok((s[..4], s[4..])) else Err(InvalidJson)
  }

  /** After the `u` of an escape: one unit, or a surrogate pair. */
  function ScanUnicode(s: bytes): (r: Scan<Char>)
    ensures r.Ok? ==> |r.value.1| < |s|
  {
    match ScanHexQuad(s)
    case Err(e) => Err(e)
    case Ok(first) =>
      if IsHigh(HexValue(first.0)) then
        if !Starts(first.1, BACKSLASH) then Err(InvalidJson)
        else if !Starts(first.1[1..], LETTER_U) then Err(InvalidJson)
        else
          match ScanHexQuad(first.1[2..])
          case Err(e) => Err(e)
          case Ok(second) =>
            if !IsLow(HexValue(second.0)) then Err(InvalidJson)
            else Ok((Pair(first.0, second.0), second.1))
      else if IsLow(HexValue(first.0)) then Err(InvalidJson)
      else Ok((Unit(first.0), first.1))
  }

  /** One character of a string, not its closing quotation mark. */
  function ScanChar(s: bytes): (r: Scan<Char>)
    requires s != [] && s[0] != QUOTE
    ensures r.Ok? ==> |r.value.1| < |s|
  {
    if s[0] == BACKSLASH then
      if |s| == 1 then Err(InvalidJson)
      else if s[1] == LETTER_U then ScanUnicode(s[2..])
      else if ShortEscape(s[1]).None? then Err(InvalidJson)
      else Ok((Short(s[1]), s[2..]))
    else if s[0] < 0x20 then Err(InvalidJson)
    else if s[0] < 0x80 then Ok((Plain(s[..1]), s[1..]))
    else ScanMultiByte(s)
  }

  lemma ScanCharOk(s: bytes)
    requires s != [] && s[0] != QUOTE && ScanChar(s).Ok?
    ensures CharOk(ScanChar(s).value.0)
  {
    if s[0] >= 0x80 {
      var w := Utf8Width(s[0]).value;
      assert s[..w][0] == s[0];
    }
  }

  /** Characters up to and including the closing quotation mark; `used` decoded bytes so far. */
  function ScanChars(s: bytes, lim: Limits, used: nat): (r: Scan<seq<Char>>)
    ensures r.Ok? ==> |r.value.1| < |s| && CharsOk(r.value.0)
    decreases |s|
  {
    if s == [] then Err(InvalidJson)
    else if s[0] == QUOTE then Ok(([], s[1..]))
    else
      match ScanChar(s)
      case Err(e) => Err(e)
      case Ok(c) =>
        ScanCharOk(s);
        var total := used + |DecodeChar(c.0)|;
        if total > lim.maxString then Err(StringTooLong)
        else
          match ScanChars(c.1, lim, total)
          case Err(e) => Err(e)
          case Ok(cs) => Ok(([c.0] + cs.0, cs.1))
  }

  function ScanString(s: bytes, lim: Limits): (r: Scan<seq<Char>>)
    ensures r.Ok? ==> |r.value.1| < |s| && CharsOk(r.value.0)
  {
    if !Starts(s, QUOTE) then Err(InvalidJson) else ScanChars(s[1..], lim, 0)
  }

  // ------------------------------------------------------------ numbers

  function ScanWhole(s: bytes): (r: Scan<bytes>)
    ensures r.Ok? ==> |r.value.1| < |s|
  {
    if s == [] || !IsDigit(s[0]) then Err(InvalidJson)
    else if s[0] == ZERO then
      if |s| > 1 && IsDigit(s[1]) then Err(InvalidJson) else Ok((s[..1], s[1..]))
    else Ok((s[..DigitLen(s)], s[DigitLen(s)..]))
  }

  function ScanFraction(s: bytes): (r: Scan<Option<bytes>>)
    ensures r.Ok? ==> |r.value.1| <= |s|
  {
    if !Starts(s, DOT) then Ok((None, s))
    else
      var n := DigitLen(s[1..]);
      if n == 0 then Err(InvalidJson) else Ok((Some(s[1..][..n]), s[1..][n..]))
  }

  function SignLen(s: bytes): (n: nat)
    ensures n <= |s|
  {
    if s != [] && (s[0] == PLUS || s[0] == MINUS) then 1 else 0
  }

  function ScanExponent(s: bytes): (r: Scan<Option<Exponent>>)
    ensures r.Ok? ==> |r.value.1| <= |s|
  {
    if s == [] || (s[0] != 0x65 && s[0] != 0x45) then Ok((None, s))
    else
      var g := SignLen(s[1..]);
      var t := s[1..][g..];
      var n := DigitLen(t);
      if n == 0 then Err(InvalidJson) else Ok((Some(Exponent(s[0], s[1..][..g], t[..n])), t[n..]))
  }

  function ScanNumber(s: bytes): (r: Scan<Number>)
    ensures r.Ok? ==> |r.value.1| < |s|
  {
    var minus := Starts(s, MINUS);
    match ScanWhole(if minus then s[1..] else s)
    case Err(e) => Err(e)
    case Ok(w) =>
      match ScanFraction(w.1)
      case Err(e) => Err(e)
      case Ok(f) =>
        match ScanExponent(f.1)
        case Err(e) => Err(e)
        case Ok(x) => Ok((Number(minus, w.0, f.0, x.0), x.1))
  }

  // ------------------------------------------------------------ values

  function ScanWord(s: bytes, w: Word): (r: Scan<Json>)
    ensures r.Ok? ==> |r.value.1| < |s| && r.value.0 == Literal(w)
  {
    var n := |WordBytes(w)|;
    if |s| >= n && s[..n] == WordBytes(w) then Ok((Literal(w), s[n..])) else Err(InvalidJson)
  }

  /** A value whose first byte is at the front of `s`, below `parent` open containers. */
  function ScanValue(s: bytes, parent: nat, lim: Limits): (r: Scan<Json>)
    ensures r.Ok? ==> |r.value.1| < |s|
    decreases |s|, 1
  {
    if Starts(s, OPEN_BRACE) then ScanObject(s, parent + 1, lim)
    else if Starts(s, OPEN_BRACKET) then ScanArray(s, parent + 1, lim)
    else if Starts(s, QUOTE) then
      match ScanString(s, lim)
      case Err(e) => Err(e)
      case Ok(x) => Ok((Str(x.0), x.1))
    else if s != [] && (s[0] == MINUS || IsDigit(s[0])) then
      match ScanNumber(s)
      case Err(e) => Err(e)
      case Ok(x) => Ok((Num(x.0), x.1))
    else if Starts(s, 0x74) then ScanWord(s, True)
    else if Starts(s, 0x66) then ScanWord(s, False)
    else if Starts(s, 0x6E) then ScanWord(s, Null)
    else Err(InvalidJson)
  }

  function ScanObject(s: bytes, depth: nat, lim: Limits): (r: Scan<Json>)
    requires Starts(s, OPEN_BRACE)
    ensures r.Ok? ==> |r.value.1| < |s|
    decreases |s|, 0
  {
    if depth > lim.maxDepth then Err(DepthExceeded)
    else
      var n := WsLen(s[1..]);
      var t := s[1..][n..];
      if Starts(t, CLOSE_BRACE) then Ok((Object(s[1..][..n], []), t[1..]))
      else
        match ScanMembers(s[1..], depth, lim, [])
        case Err(e) => Err(e)
        case Ok(x) => Ok((Object([], x.0), x.1))
  }

  /** One member and the white space after it; `seen` holds the names already read. */
  function ScanMember(s: bytes, depth: nat, lim: Limits, seen: seq<bytes>): (r: Scan<Member>)
    ensures r.Ok? ==> |r.value.1| < |s| && CharsOk(r.value.0.name)
    decreases |s|, 2
  {
    var n := WsLen(s);
    match ScanString(s[n..], lim)
    case Err(e) => Err(e)
    case Ok(name) =>
      if DecodeChars(name.0) in seen then Err(DuplicateMember)
      else if |seen| + 1 > lim.maxEntries then Err(ContainerEntriesExceeded)
      else
        var g := WsLen(name.1);
        var colon := name.1[g..];
        if !Starts(colon, COLON) then Err(InvalidJson)
        else
          var l := WsLen(colon[1..]);
          match ScanValue(colon[1..][l..], depth, lim)
          case Err(e) => Err(e)
          case Ok(v) =>
            var a := WsLen(v.1);
            Ok((Member(s[..n], name.0, name.1[..g], colon[1..][..l], v.0, v.1[..a]), v.1[a..]))
  }

  /** Members up to and including the closing brace. */
  function ScanMembers(s: bytes, depth: nat, lim: Limits, seen: seq<bytes>): (r: Scan<seq<Member>>)
    ensures r.Ok? ==> |r.value.1| <= |s|
    decreases |s|, 3
  {
    match ScanMember(s, depth, lim, seen)
    case Err(e) => Err(e)
    case Ok(m) =>
      if Starts(m.1, CLOSE_BRACE) then Ok(([m.0], m.1[1..]))
      else if !Starts(m.1, COMMA) then Err(InvalidJson)
      else
        match ScanMembers(m.1[1..], depth, lim, seen + [DecodeChars(m.0.name)])
        case Err(e) => Err(e)
        case Ok(ms) => Ok(([m.0] + ms.0, ms.1))
  }

  function ScanArray(s: bytes, depth: nat, lim: Limits): (r: Scan<Json>)
    requires Starts(s, OPEN_BRACKET)
    ensures r.Ok? ==> |r.value.1| < |s|
    decreases |s|, 0
  {
    if depth > lim.maxDepth then Err(DepthExceeded)
    else
      var n := WsLen(s[1..]);
      var t := s[1..][n..];
      if Starts(t, CLOSE_BRACKET) then Ok((Array(s[1..][..n], []), t[1..]))
      else
        match ScanElements(s[1..], depth, lim, 0)
        case Err(e) => Err(e)
        case Ok(x) => Ok((Array([], x.0), x.1))
  }

  /** Elements up to and including the closing bracket; `entries` were already read. */
  function ScanElements(s: bytes, depth: nat, lim: Limits, entries: nat): (r: Scan<seq<Element>>)
    ensures r.Ok? ==> |r.value.1| <= |s|
    decreases |s|, 2
  {
    if entries + 1 > lim.maxEntries then Err(ContainerEntriesExceeded)
    else
      var n := WsLen(s);
      match ScanValue(s[n..], depth, lim)
      case Err(e) => Err(e)
      case Ok(v) =>
        var a := WsLen(v.1);
        var after := v.1[a..];
        var e := Element(s[..n], v.0, v.1[..a]);
        if Starts(after, CLOSE_BRACKET) then Ok(([e], after[1..]))
        else if !Starts(after, COMMA) then Err(InvalidJson)
        else
          match ScanElements(after[1..], depth, lim, entries + 1)
          case Err(x) => Err(x)
          case Ok(es) => Ok(([e] + es.0, es.1))
  }

  // ------------------------------------------------------------ the boundary

  predicate LimitsOk(lim: Limits) {
    && lim.maxBytes <= ABSOLUTE_MAX_JSON_BYTES
    && lim.maxDepth <= ABSOLUTE_MAX_JSON_DEPTH
    && lim.maxEntries <= ABSOLUTE_MAX_CONTAINER_ENTRIES
    && lim.maxString <= ABSOLUTE_MAX_STRING_BYTES
  }

  /** The whole scanner phase; the tree is what was recognised. */
  function ScanDocument(input: bytes, lim: Limits): (r: Result<Json, JsonError>) {
    if !LimitsOk(lim) then Err(LimitsExceedHardMaximum)
    else if |input| > lim.maxBytes then Err(InputTooLarge)
    else if !ValidUtf8(input) then Err(InvalidJson)
    else
      match ScanValue(input[WsLen(input)..], 0, lim)
      case Err(e) => Err(e)
      case Ok(x) =>
        if WsLen(x.1) != |x.1| then Err(InvalidJson)
        else if !x.0.Object? then Err(NonObjectRoot)
        else Ok(x.0)
  }
}
