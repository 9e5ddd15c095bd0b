/** The scanner as it runs: a cursor over the input that every method advances. On success each
    method leaves the cursor where the functions of `JsonScan` end; on any outcome it reports the
    same error. On valid UTF-8 the cursor rests on scalar boundaries between tokens. */
module JsonScanner {
  import opened Bytes
  import opened Utf8
  import opened JsonGrammar
  import opened JsonScan
  import JsonComplete

  datatype ValueKind = ObjectKind | OtherKind

  /** What a scan decides, without the tree: the input left over, or the error. */
  function Verdict<T>(x: Scan<T>): (r: Result<bytes, JsonError>) {
    match x
    case Err(e) => Err(e)
    case Ok(v) => Ok(v.1)
  }

  lemma {:induction false} WsTwice(s: bytes)
    ensures WsLen(s[WsLen(s)..]) == 0
  {
    if s != [] && IsWs(s[0]) {
      WsTwice(s[1..]);
      assert s[WsLen(s)..] == s[1..][WsLen(s[1..])..];
    }
  }

  lemma {:induction false} WsStep(s: bytes)
    ensures s != [] && IsWs(s[0]) ==> s[WsLen(s)..] == s[1..][WsLen(s[1..])..]
    ensures s == [] || !IsWs(s[0]) ==> s[WsLen(s)..] == s
  {
  }

  /** White space before a member decides nothing. */
  lemma {:induction false} MemberSkipWs(s: bytes, depth: nat, lim: Limits, seen: seq<bytes>)
    ensures var x, y := ScanMember(s, depth, lim, seen), ScanMember(s[WsLen(s)..], depth, lim, seen);
      Verdict(x) == Verdict(y) && (x.Ok? ==> x.value.0.name == y.value.0.name)
  {
    hide ScanString, ScanValue, DecodeChars;
    WsTwice(s);
    var t := s[WsLen(s)..];
    assert t[0..] == t;
  }

  lemma {:induction false} MembersSkipWs(s: bytes, depth: nat, lim: Limits, seen: seq<bytes>)
    ensures Verdict(ScanMembers(s, depth, lim, seen)) == Verdict(ScanMembers(s[WsLen(s)..], depth, lim, seen))
  {
    hide ScanMember, WsLen;
    MemberSkipWs(s, depth, lim, seen);
  }

  lemma {:induction false} ElementsSkipWs(s: bytes, depth: nat, lim: Limits, entries: nat)
    ensures Verdict(ScanElements(s, depth, lim, entries)) == Verdict(ScanElements(s[WsLen(s)..], depth, lim, entries))
  {
    hide ScanValue;
    WsTwice(s);
    var t := s[WsLen(s)..];
    assert t[0..] == t;
  }

  lemma AsciiBoundary(s: bytes)
    requires ValidUtf8(s) && s != [] && s[0] < 0x80
    ensures ValidUtf8(s[1..])
  {
  }

  /** On valid UTF-8 every multi-byte scalar is complete: its announced width is its width, it
      is inside the input and well formed. None of the three failure branches can be taken. */
  lemma MultiByteAlways(s: bytes)
    requires ValidUtf8(s) && s != [] && s[0] >= 0x80
    ensures Utf8Width(s[0]) == Some(ScalarWidth(s))
    ensures ValidUtf8(s[..ScalarWidth(s)]) && ValidUtf8(s[ScalarWidth(s)..])
    ensures ScanMultiByte(s) == Ok((Plain(s[..ScalarWidth(s)]), s[ScalarWidth(s)..]))
  {
    var w := ScalarWidth(s);
    FirstScalar(s);
    assert s[..w][w..] == [];
  }

  /** Decoded text and input left of a string body. */
  function Decoded(x: Scan<seq<Char>>): (r: Result<(bytes, bytes), JsonError>)
    requires x.Ok? ==> CharsOk(x.value.0)
  {
    match x
    case Err(e) => Err(e)
    case Ok(v) => Ok((DecodeChars(v.0), v.1))
  }

  function Prepend(done: bytes, x: Result<(bytes, bytes), JsonError>): (r: Result<(bytes, bytes), JsonError>) {
    match x
    case Err(e) => Err(e)
    case Ok(v) => Ok((done + v.0, v.1))
  }

  /** One more character of a string body, read and decoded. */
  lemma {:induction false} DecodedStep(s: bytes, lim: Limits, done: bytes)
    requires s != [] && s[0] != QUOTE && ScanChar(s).Ok? && CharOk(ScanChar(s).value.0)
    ensures var c := ScanChar(s).value; var now := done + DecodeChar(c.0);
      Prepend(done, Decoded(ScanChars(s, lim, |done|)))
      == if |now| > lim.maxString then Err(StringTooLong) else Prepend(now, Decoded(ScanChars(c.1, lim, |now|)))
  {
    hide ScanChar, CharOk, DecodeChar;
    var c := ScanChar(s).value;
    var now := done + DecodeChar(c.0);
    var more := ScanChars(c.1, lim, |now|);
    if |now| <= lim.maxString && more.Ok? {
      var all := [c.0] + more.value.0;
      assert all[1..] == more.value.0;
      assert done + (DecodeChar(c.0) + DecodeChars(more.value.0)) == now + DecodeChars(more.value.0);
    }
  }

  class Scanner {
    const input: bytes
    const limits: Limits
    var position: nat

    constructor (input: bytes, limits: Limits)
      ensures this.input == input && this.limits == limits && position == 0
    {
      this.input := input;
      this.limits := limits;
      position := 0;
    }

    /** The cursor is inside the input and on a scalar boundary. */
    ghost predicate Valid()
      reads this
    {
      position <= |input| && ValidUtf8(input[position..])
    }

    /** What is still to be read. */
    ghost function Rest(): (s: bytes)
      reads this
      requires position <= |input|
    {
      input[position..]
    }

    function Peek(): (r: Option<byte>)
      reads this
      ensures r.Some? <==> position < |input|
      ensures r.Some? ==> r.value == input[position]
    {
      if position < |input| then Some(input[position]) else None
    }

    method SkipWhitespace()
      requires Valid()
      modifies this`position
      ensures Valid()
      ensures Rest() == old(Rest())[WsLen(old(Rest()))..]
    {
      hide WsLen, ValidUtf8;
      ghost var start := Rest();
      while position < |input| && IsWs(input[position])
        invariant Valid()
        invariant start[WsLen(start)..] == Rest()[WsLen(Rest())..]
        decreases |input| - position
      {
        ghost var here := Rest();
        AsciiBoundary(here);
        WsStep(here);
        assert here[1..] == input[position + 1..];
        position := position + 1;
      }
      WsStep(Rest());
    }

    /** One byte, whatever it is. */
    method Next() returns (r: Option<byte>)
      requires position <= |input|
      modifies this`position
      ensures r == if old(position) < |input| then Some(input[old(position)]) else None
      ensures position == if r.Some? then old(position) + 1 else old(position)
    {
      r := Peek();
      if r.Some? { position := position + 1; }
    }

    method ConsumeIf(expected: byte) returns (found: bool)
      requires Valid()
      modifies this`position
      ensures position <= |input| && (expected < 0x80 ==> Valid())
      ensures found == Starts(old(Rest()), expected)
      ensures found ==> position == old(position) + 1 && Rest() == old(Rest())[1..]
      ensures !found ==> position == old(position)
    {
      found := Peek() == Some(expected);
      if found {
        if expected < 0x80 { AsciiBoundary(Rest()); }
        assert Rest()[1..] == input[position + 1..];
        position := position + 1;
      }
    }

    // ---------------------------------------------------------- strings

    /** Four hexadecimal digits; the 16-bit accumulator never overflows. */
    method ParseHexQuad() returns (r: Result<nat, JsonError>)
      requires Valid()
      modifies this`position
      ensures var scan := ScanHexQuad(old(Rest()));
        && (r.Err? ==> scan == Err(r.error))
        && (r.Ok? ==> scan.Ok? && Valid() && Rest() == scan.value.1 && r.value == HexValue(scan.value.0))
    {
      ghost var s := Rest();
      var value: nat := 0;
      for i := 0 to 4
        invariant Valid() && position == old(position) + i && i <= |s|
        invariant forall k :: 0 <= k < i ==> HexDigit(s[k]).Some?
        invariant i == 1 ==> value == HexDigit(s[0]).value
        invariant i == 2 ==> value == HexDigit(s[0]).value * 16 + HexDigit(s[1]).value
        invariant i == 3 ==> value == (HexDigit(s[0]).value * 16 + HexDigit(s[1]).value) * 16 + HexDigit(s[2]).value
        invariant i == 4 ==> value == ((HexDigit(s[0]).value * 16 + HexDigit(s[1]).value) * 16
                                       + HexDigit(s[2]).value) * 16 + HexDigit(s[3]).value
        invariant i == 0 ==> value == 0
      {
        var digit := Peek();
        if digit.None? { return Err(InvalidJson); }
        assert digit.value == s[i];
        var d := HexDigit(digit.value);
        if d.None? {
          assert |s| >= 4 ==> s[..4][i] == s[i];
          return Err(InvalidJson);
        }
        AsciiBoundary(Rest());
        assert Rest()[1..] == input[position + 1..];
        position := position + 1;
        value := value * 16 + d.value;
        assert value < 0x1_0000;
      }
      assert s[..4][0] == s[0] && s[..4][1] == s[1] && s[..4][2] == s[2] && s[..4][3] == s[3];
      assert Rest() == s[4..];
      return Ok(value);
    }

    /** After the `u` of an escape, appending the scalar it denotes. */
    method ParseUnicodeEscape(decoded: bytes) returns (r: Result<bytes, JsonError>)
      requires Valid()
      modifies this`position
      ensures var scan := ScanUnicode(old(Rest()));
        && (r.Err? ==> scan == Err(r.error))
        && (r.Ok? ==> scan.Ok? && Valid() && Rest() == scan.value.1
                      && CharOk(scan.value.0) && r.value == decoded + DecodeChar(scan.value.0))
    {
      hide ScanHexQuad, ValidUtf8, HexValue, IsHexQuad, EncodeScalar;
      var first := ParseHexQuad();
      if first.Err? { return Err(first.error); }
      if IsHigh(first.value) {
        var slash := ConsumeIf(BACKSLASH);
        if !slash { return Err(InvalidJson); }
        var u := ConsumeIf(LETTER_U);
        if !u { return Err(InvalidJson); }
        ghost var afterFirst := ScanHexQuad(old(Rest())).value.1;
        assert Rest() == afterFirst[2..];
        var second := ParseHexQuad();
        if second.Err? { return Err(second.error); }
        if !IsLow(second.value) { return Err(InvalidJson); }
        return Ok(decoded + EncodeScalar(SurrogateScalar(first.value, second.value)));
      } else if IsLow(first.value) {
        return Err(InvalidJson);
      } else {
        return Ok(decoded + EncodeScalar(first.value));
      }
    }

    /** One character of a string, appended to what was decoded before it. */
    method ParseChar(decoded: bytes) returns (r: Result<bytes, JsonError>)
      requires Valid() && Rest() != [] && Rest()[0] != QUOTE
      modifies this`position
      ensures var scan := ScanChar(old(Rest()));
        && (r.Err? ==> scan == Err(r.error))
        && (r.Ok? ==> scan.Ok? && Valid() && Rest() == scan.value.1
                      && CharOk(scan.value.0) && r.value == decoded + DecodeChar(scan.value.0))
    {
      ghost var s := Rest();
      ScanCharIsOk(s);
      hide ScanUnicode, ScanMultiByte, HexValue, IsHexQuad, EncodeScalar, ShortEscape;
      var b := Next();
      if b.value == BACKSLASH {
        AsciiBoundary(s);
        assert Rest() == s[1..];
        var escaped := Next();
        if escaped.None? { return Err(InvalidJson); }
        assert escaped.value == s[1];
        if escaped.value == LETTER_U {
          AsciiBoundary(s[1..]);
          assert Rest() == s[2..];
          assert s[1..][1..] == s[2..];
          r := ParseUnicodeEscape(decoded);
        } else {
          var letter := ShortEscape(escaped.value);
          if letter.None? { return Err(InvalidJson); }
          ShortIsAscii(escaped.value);
          AsciiBoundary(s[1..]);
          assert Rest() == s[2..];
          assert s[1..][1..] == s[2..];
          return Ok(decoded + [letter.value]);
        }
      } else if b.value < 0x20 {
        return Err(InvalidJson);
      } else if b.value < 0x80 {
        AsciiBoundary(s);
        assert Rest() == s[1..];
        assert s[..1] == [b.value];
        return Ok(decoded + [b.value]);
      } else {
        MultiByteAlways(s);
        var start := position - 1;
        var end := start + Utf8Width(b.value).value;
        assert input[start..end] == s[..end - start];
        position := end;
        assert Rest() == s[end - start..];
        return Ok(decoded + input[start..end]);
      }
    }

    /** A string literal; the result is its decoded UTF-8. */
    method ParseString() returns (r: Result<bytes, JsonError>)
      requires Valid()
      modifies this`position
      ensures var scan := ScanString(old(Rest()), limits);
        && (r.Err? ==> scan == Err(r.error))
        && (r.Ok? ==> scan.Ok? && Valid() && Rest() == scan.value.1 && r.value == DecodeChars(scan.value.0)
                      && position > old(position))
    {
      hide ScanChar, ValidUtf8, CharOk, DecodeChar;
      var open := ConsumeIf(QUOTE);
      if !open { return Err(InvalidJson); }
      ghost var body := Rest();
      var decoded: bytes := [];
      PrependNothing(Decoded(ScanChars(body, limits, 0)));
      while true
        invariant Valid() && position > old(position)
        invariant Decoded(ScanChars(body, limits, 0)) == Prepend(decoded, Decoded(ScanChars(Rest(), limits, |decoded|)))
        decreases |input| - position
      {
        ghost var here := Rest();
        var b := Peek();
        if b.None? { return Err(InvalidJson); }
        assert b.value == here[0];
        if b.value == QUOTE {
          var close := ConsumeIf(QUOTE);
          assert Decoded(ScanChars(here, limits, |decoded|)) == Ok(([], here[1..]));
          assert decoded + [] == decoded;
          return Ok(decoded);
        }
        var step := ParseChar(decoded);
        if step.Err? { return Err(step.error); }
        DecodedStep(here, limits, decoded);
        decoded := step.value;
        if |decoded| > limits.maxString { return Err(StringTooLong); }
      }
    }

    // ---------------------------------------------------------- numbers and literals

    method SkipDigits()
      requires Valid()
      modifies this`position
      ensures Valid()
      ensures position == old(position) + DigitLen(old(Rest()))
      ensures Rest() == old(Rest())[DigitLen(old(Rest()))..]
    {
      ghost var start := Rest();
      while position < |input| && IsDigit(input[position])
        invariant Valid()
        invariant position >= old(position)
        invariant position + DigitLen(Rest()) == old(position) + DigitLen(start)
        decreases |input| - position
      {
        ghost var here := Rest();
        AsciiBoundary(here);
        assert here[1..] == input[position + 1..];
        position := position + 1;
      }
    }

    method ParseNumber() returns (r: Result<(), JsonError>)
      requires Valid()
      modifies this`position
      ensures var scan := ScanNumber(old(Rest()));
        && (r.Err? ==> scan == Err(r.error))
        && (r.Ok? ==> scan.Ok? && Valid() && Rest() == scan.value.1)
    {
      hide ScanWhole, ScanFraction, ScanExponent, ValidUtf8;
      var minus := ConsumeIf(MINUS);
      var whole := ParseWhole();
      if whole.Err? { return whole; }
      var fraction := ParseFraction();
      if fraction.Err? { return fraction; }
      r := ParseExponent();
    }

    method ParseWhole() returns (r: Result<(), JsonError>)
      requires Valid()
      modifies this`position
      ensures var scan := ScanWhole(old(Rest()));
        && (r.Err? ==> scan == Err(r.error))
        && (r.Ok? ==> scan.Ok? && Valid() && Rest() == scan.value.1)
    {
      hide ValidUtf8;
      ghost var s := Rest();
      var zero := ConsumeIf(ZERO);
      if zero {
        var next := Peek();
        assert next.Some? ==> next.value == s[1];
        if next.Some? && IsDigit(next.value) { return Err(InvalidJson); }
        return Ok(());
      }
      var first := Peek();
      assert first.Some? ==> first.value == s[0];
      if first.None? || !IsDigit(first.value) { return Err(InvalidJson); }
      SkipDigits();
      return Ok(());
    }

    method ParseFraction() returns (r: Result<(), JsonError>)
      requires Valid()
      modifies this`position
      ensures var scan := ScanFraction(old(Rest()));
        && (r.Err? ==> scan == Err(r.error))
        && (r.Ok? ==> scan.Ok? && Valid() && Rest() == scan.value.1)
    {
      hide ValidUtf8;
      var dot := ConsumeIf(DOT);
      if dot {
        ghost var s := Rest();
        var first := Peek();
        assert first.Some? ==> first.value == s[0];
        if first.None? || !IsDigit(first.value) { return Err(InvalidJson); }
        SkipDigits();
      }
      return Ok(());
    }

    method ParseExponent() returns (r: Result<(), JsonError>)
      requires Valid()
      modifies this`position
      ensures var scan := ScanExponent(old(Rest()));
        && (r.Err? ==> scan == Err(r.error))
        && (r.Ok? ==> scan.Ok? && Valid() && Rest() == scan.value.1)
    {
      hide ValidUtf8;
      var lower := ConsumeIf(0x65);
      var upper := false;
      if !lower { upper := ConsumeIf(0x45); }
      if lower || upper {
        var plus := ConsumeIf(PLUS);
        if !plus { var minus := ConsumeIf(MINUS); }
        ghost var s := Rest();
        var first := Peek();
        assert first.Some? ==> first.value == s[0];
        if first.None? || !IsDigit(first.value) { return Err(InvalidJson); }
        SkipDigits();
      }
      return Ok(());
    }

    method ConsumeLiteral(w: Word) returns (r: Result<(), JsonError>)
      requires Valid()
      modifies this`position
      ensures var scan := ScanWord(old(Rest()), w);
        && (r.Err? ==> scan == Err(r.error))
        && (r.Ok? ==> scan.Ok? && Valid() && Rest() == scan.value.1)
    {
      ghost var s := Rest();
      var expected := WordBytes(w);
      var end := position + |expected|;
      if end > |input| { return Err(InvalidJson); }
      assert input[position..end] == s[..|expected|];
      if input[position..end] != expected { return Err(InvalidJson); }
      WordBoundary(s, w);
      position := end;
      assert Rest() == s[|expected|..];
      return Ok(());
    }

    // ---------------------------------------------------------- values

    method ParseValue(parentDepth: nat) returns (r: Result<ValueKind, JsonError>)
      requires Valid()
      modifies this`position
      ensures var s := old(Rest()); var scan := ScanValue(s[WsLen(s)..], parentDepth, limits);
        && (r.Err? ==> scan == Err(r.error))
        && (r.Ok? ==> scan.Ok? && Valid() && Rest() == scan.value.1 && position > old(position)
                      && (r.value == ObjectKind <==> scan.value.0.Object?))
      decreases |input| - position, 1
    {
      hide ScanString, ScanNumber, ScanWord, ScanObject, ScanArray, ValidUtf8, WsLen;
      SkipWhitespace();
      ghost var s := Rest();
      var b := Peek();
      if b.None? { return Err(InvalidJson); }
      assert b.value == s[0];
      if b.value == OPEN_BRACE {
        var x := ParseObject(parentDepth + 1);
        ObjectIsObject(s, parentDepth + 1, limits);
        r := if x.Err? then Err(x.error) else Ok(ObjectKind);
      } else if b.value == OPEN_BRACKET {
        var x := ParseArray(parentDepth + 1);
        ArrayIsArray(s, parentDepth + 1, limits);
        r := if x.Err? then Err(x.error) else Ok(OtherKind);
      } else if b.value == QUOTE {
        var x := ParseString();
        r := if x.Err? then Err(x.error) else Ok(OtherKind);
      } else if b.value == MINUS || IsDigit(b.value) {
        var x := ParseNumber();
        r := if x.Err? then Err(x.error) else Ok(OtherKind);
      } else if b.value == 0x74 || b.value == 0x66 || b.value == 0x6E {
        var x := ConsumeLiteral(if b.value == 0x74 then True else if b.value == 0x66 then False else Null);
        r := if x.Err? then Err(x.error) else Ok(OtherKind);
      } else {
        r := Err(InvalidJson);
      }
    }

    method ParseObject(depth: nat) returns (r: Result<(), JsonError>)
      requires Valid() && Starts(Rest(), OPEN_BRACE)
      modifies this`position
      ensures var scan := ScanObject(old(Rest()), depth, limits);
        && (r.Err? ==> scan == Err(r.error))
        && (r.Ok? ==> scan.Ok? && Valid() && Rest() == scan.value.1)
      decreases |input| - position, 0
    {
      hide ScanMembers, ValidUtf8, WsLen;
      if depth > limits.maxDepth { return Err(DepthExceeded); }
      var open := ConsumeIf(OPEN_BRACE);
      ghost var body := Rest();
      SkipWhitespace();
      var close := ConsumeIf(CLOSE_BRACE);
      if close { return Ok(()); }
      MembersSkipWs(body, depth, limits, []);
      r := ParseMembers(depth);
    }

    /** One member: name, colon, value and the white space after it. */
    method ParseMember(depth: nat, names: seq<bytes>) returns (r: Result<bytes, JsonError>)
      requires Valid()
      modifies this`position
      ensures var scan := ScanMember(old(Rest()), depth, limits, names);
        && (r.Err? ==> scan == Err(r.error))
        && (r.Ok? ==> scan.Ok? && Valid() && Rest() == scan.value.1 && position > old(position)
                      && r.value == DecodeChars(scan.value.0.name))
      decreases |input| - position, 2
    {
      hide ScanString, ScanValue, ValidUtf8, WsLen, DecodeChars;
      SkipWhitespace();
      var name := ParseString();
      if name.Err? { return Err(name.error); }
      if name.value in names { return Err(DuplicateMember); }
      if |names| + 1 > limits.maxEntries { return Err(ContainerEntriesExceeded); }
      SkipWhitespace();
      var colon := ConsumeIf(COLON);
      if !colon { return Err(InvalidJson); }
      var v := ParseValue(depth);
      if v.Err? { return Err(v.error); }
      SkipWhitespace();
      return Ok(name.value);
    }

    /** The member loop. */
    method ParseMembers(depth: nat) returns (r: Result<(), JsonError>)
      requires Valid()
      modifies this`position
      ensures var scan := ScanMembers(old(Rest()), depth, limits, []);
        && (r.Err? ==> scan == Err(r.error))
        && (r.Ok? ==> scan.Ok? && Valid() && Rest() == scan.value.1)
      decreases |input| - position, 3
    {
      hide ScanMember, ValidUtf8, WsLen, DecodeChars;
      var names: seq<bytes> := [];
      ghost var goal := Verdict(ScanMembers(Rest(), depth, limits, []));
      while true
        invariant Valid() && position >= old(position)
        invariant goal == Verdict(ScanMembers(Rest(), depth, limits, names))
        decreases |input| - position
      {
        var name := ParseMember(depth, names);
        if name.Err? { return Err(name.error); }
        names := names + [name.value];
        var close := ConsumeIf(CLOSE_BRACE);
        if close { return Ok(()); }
        var comma := ConsumeIf(COMMA);
        if !comma { return Err(InvalidJson); }
        ghost var s := Rest();
        MembersSkipWs(s, depth, limits, names);
        SkipWhitespace();
      }
    }

    method ParseArray(depth: nat) returns (r: Result<(), JsonError>)
      requires Valid() && Starts(Rest(), OPEN_BRACKET)
      modifies this`position
      ensures var scan := ScanArray(old(Rest()), depth, limits);
        && (r.Err? ==> scan == Err(r.error))
        && (r.Ok? ==> scan.Ok? && Valid() && Rest() == scan.value.1)
      decreases |input| - position, 0
    {
      hide ScanElements, ValidUtf8, WsLen;
      if depth > limits.maxDepth { return Err(DepthExceeded); }
      var open := ConsumeIf(OPEN_BRACKET);
      ghost var body := Rest();
      SkipWhitespace();
      var close := ConsumeIf(CLOSE_BRACKET);
      if close { return Ok(()); }
      ElementsSkipWs(body, depth, limits, 0);
      r := ParseElements(depth);
    }

    /** The element loop. */
    method ParseElements(depth: nat) returns (r: Result<(), JsonError>)
      requires Valid()
      modifies this`position
      ensures var scan := ScanElements(old(Rest()), depth, limits, 0);
        && (r.Err? ==> scan == Err(r.error))
        && (r.Ok? ==> scan.Ok? && Valid() && Rest() == scan.value.1)
      decreases |input| - position, 2
    {
      hide ScanValue, ValidUtf8, WsLen;
      var entries: nat := 0;
      ghost var goal := Verdict(ScanElements(Rest(), depth, limits, 0));
      while true
        invariant Valid() && position >= old(position)
        invariant goal == Verdict(ScanElements(Rest(), depth, limits, entries))
        decreases |input| - position
      {
        entries := entries + 1;
        if entries > limits.maxEntries { return Err(ContainerEntriesExceeded); }
        var v := ParseValue(depth);
        if v.Err? { return Err(v.error); }
        SkipWhitespace();
        var close := ConsumeIf(CLOSE_BRACKET);
        if close { return Ok(()); }
        var comma := ConsumeIf(COMMA);
        if !comma { return Err(InvalidJson); }
        ghost var s := Rest();
        ElementsSkipWs(s, depth, limits, entries);
        SkipWhitespace();
      }
    }
  }

  lemma ScanCharIsOk(s: bytes)
    requires s != [] && s[0] != QUOTE
    ensures ScanChar(s).Ok? ==> CharOk(ScanChar(s).value.0)
  {
    hide ScanChar, CharOk;
    if ScanChar(s).Ok? { ScanCharOk(s); }
  }

  lemma WordBoundary(s: bytes, w: Word)
    requires ValidUtf8(s) && |s| >= |WordBytes(w)| && s[..|WordBytes(w)|] == WordBytes(w)
    ensures ValidUtf8(s[|WordBytes(w)|..])
  {
    var e := WordBytes(w);
    assert forall i :: 0 <= i < |e| ==> s[i] == e[i];
    AsciiPrefix(s, |e|);
  }

  lemma {:induction false} AsciiPrefix(s: bytes, n: nat)
    requires ValidUtf8(s) && n <= |s| && forall i :: 0 <= i < n ==> s[i] < 0x80
    ensures ValidUtf8(s[n..])
  {
    if n > 0 {
      AsciiBoundary(s);
      AsciiPrefix(s[1..], n - 1);
      assert s[1..][n - 1..] == s[n..];
    }
  }

  lemma ObjectIsObject(s: bytes, depth: nat, lim: Limits)
    requires Starts(s, OPEN_BRACE)
    ensures ScanObject(s, depth, lim).Ok? ==> ScanObject(s, depth, lim).value.0.Object?
  {
    hide ScanMembers, WsLen;
  }

  lemma ArrayIsArray(s: bytes, depth: nat, lim: Limits)
    requires Starts(s, OPEN_BRACKET)
    ensures ScanArray(s, depth, lim).Ok? ==> ScanArray(s, depth, lim).value.0.Array?
  {
    hide ScanElements, WsLen;
  }

  lemma ShortIsAscii(letter: byte)
    requires ShortEscape(letter).Some?
    ensures letter < 0x80 && letter != LETTER_U
  {
  }

  lemma PrependNothing(x: Result<(bytes, bytes), JsonError>)
    ensures Prepend([], x) == x
  {
    if x.Ok? { assert [] + x.value.0 == x.value.0; }
  }

  /** The scanner phase of `parse_object`: limits, size, UTF-8, one value, nothing after it,
      an object. Its verdict is that of `ScanDocument`, error for error. */
  method ScanInput(input: bytes, limits: Limits) returns (r: Result<(), JsonError>)
    ensures r.Ok? <==> LimitsOk(limits) && |input| <= limits.maxBytes && ValidUtf8(input)
                       && IsBoundedObject(input, limits)
    ensures r.Err? ==> ScanDocument(input, limits) == Err(r.error)
  {
    JsonComplete.ScannerExact(input, limits);
    hide ScanValue, ValidUtf8, WsLen, IsBoundedObject;
    if limits.maxBytes > ABSOLUTE_MAX_JSON_BYTES || limits.maxDepth > ABSOLUTE_MAX_JSON_DEPTH
       || limits.maxEntries > ABSOLUTE_MAX_CONTAINER_ENTRIES || limits.maxString > ABSOLUTE_MAX_STRING_BYTES {
      return Err(LimitsExceedHardMaximum);
    }
    if |input| > limits.maxBytes { return Err(InputTooLarge); }
    if !ValidUtf8(input) { return Err(InvalidJson); }
    var scanner := new Scanner(input, limits);
    assert input[0..] == input;
    scanner.SkipWhitespace();
    WsTwice(input);
    ghost var s := scanner.Rest();
    assert s[0..] == s;
    var root := scanner.ParseValue(0);
    if root.Err? { return Err(root.error); }
    ghost var rest := scanner.Rest();
    scanner.SkipWhitespace();
    assert scanner.Rest() == rest[WsLen(rest)..];
    if scanner.position != |input| { return Err(InvalidJson); }
    if root.value != ObjectKind { return Err(NonObjectRoot); }
    return Ok(());
  }
}
