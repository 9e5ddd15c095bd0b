/** Every admissible JSON text is accepted, and read back as the tree it was written from. */
module JsonComplete {
  import opened Bytes
  import opened Utf8
  import opened JsonGrammar
  import opened JsonScan
  import opened JsonSound

  predicate NotWs(t: bytes) { t == [] || !IsWs(t[0]) }
  predicate NotDigit(t: bytes) { t == [] || !IsDigit(t[0]) }

  lemma {:induction false} WsExact(w: bytes, t: bytes)
    requires AllWs(w) && NotWs(t)
    ensures WsLen(w + t) == |w|
    ensures (w + t)[..|w|] == w && (w + t)[|w|..] == t
  {
    if w == [] {
      assert w + t == t;
    } else {
      WsExact(w[1..], t);
      assert (w + t)[1..] == w[1..] + t;
    }
  }

  lemma {:induction false} DigitExact(d: bytes, t: bytes)
    requires AllDigits(d) && NotDigit(t)
    ensures DigitLen(d + t) == |d|
    ensures (d + t)[..|d|] == d && (d + t)[|d|..] == t
  {
    if d == [] {
      assert d + t == t;
    } else {
      DigitExact(d[1..], t);
      assert (d + t)[1..] == d[1..] + t;
    }
  }

  // ------------------------------------------------------------ strings

  lemma MultiByteComplete(s: bytes, t: bytes)
    requires OneScalar(s) && s[0] >= 0x80
    ensures ScanMultiByte(s + t) == Ok((Plain(s), t))
  {
    assert Utf8Width(s[0]) == Some(|s|);
    assert (s + t)[0] == s[0];
    assert (s + t)[..|s|] == s && (s + t)[|s|..] == t;
    assert ValidUtf8(s) by { assert s[|s|..] == []; }
  }

  lemma HexQuadComplete(h: bytes, t: bytes)
    requires IsHexQuad(h)
    ensures ScanHexQuad(h + t) == Ok((h, t))
  {
    assert (h + t)[..4] == h && (h + t)[4..] == t;
  }

  lemma UnitComplete(h: bytes, t: bytes)
    requires CharOk(Unit(h))
    ensures ScanUnicode(h + t) == Ok((Unit(h), t))
  {
    HexQuadComplete(h, t);
  }

  lemma PairComplete(h: bytes, l: bytes, t: bytes)
    requires CharOk(Pair(h, l))
    ensures ScanUnicode(h + ([BACKSLASH, LETTER_U] + (l + t))) == Ok((Pair(h, l), t))
  {
    hide ScanHexQuad, HexValue, IsHexQuad;
    var next := [BACKSLASH, LETTER_U] + (l + t);
    HexQuadComplete(h, next);
    HexQuadComplete(l, t);
    assert next[2..] == l + t;
    assert next[1..][0] == LETTER_U;
  }

  predicate CharScanned(c: Char, s: bytes, t: bytes) {
    s != [] && s[0] != QUOTE && ScanChar(s) == Ok((c, t))
  }

  lemma PlainScanned(p: bytes, t: bytes)
    requires CharOk(Plain(p))
    ensures CharScanned(Plain(p), p + t, t)
  {
    hide ScanMultiByte;
    var s := p + t;
    assert s[0] == p[0];
    if p[0] < 0x80 { assert s[..1] == p && s[1..] == t; } else { MultiByteComplete(p, t); }
  }

  lemma EscapeScanned(c: Char, t: bytes)
    requires CharOk(c) && (c.Short? || c.Unit?)
    ensures CharScanned(c, RenderChar(c) + t, t)
  {
    hide ScanUnicode, ScanMultiByte, IsHexQuad, HexValue;
    var s := RenderChar(c) + t;
    assert s[0] == BACKSLASH;
    if c.Short? {
      assert s[1] == c.letter && s[2..] == t;
    } else {
      UnitComplete(c.hex, t);
      assert s[1] == LETTER_U && s[2..] == c.hex + t;
    }
  }

  lemma PairScanned(h: bytes, l: bytes, t: bytes)
    requires CharOk(Pair(h, l))
    ensures CharScanned(Pair(h, l), RenderChar(Pair(h, l)) + t, t)
  {
    PairComplete(h, l, t);
    hide ScanUnicode, ScanMultiByte, IsHexQuad, HexValue, CharOk;
    var u := [BACKSLASH, LETTER_U];
    var body := h + (u + (l + t));
    var s := u + body;
    assert (u + h + (u + l)) + t == s;
    assert s[0] == BACKSLASH && s[1] == LETTER_U && s[2..] == body;
  }

  lemma CharComplete(c: Char, t: bytes)
    requires CharOk(c)
    ensures CharScanned(c, RenderChar(c) + t, t)
  {
    hide CharScanned;
    if c.Plain? { PlainScanned(c.scalar, t); }
    else if c.Pair? { PairScanned(c.high, c.low, t); }
    else { EscapeScanned(c, t); }
  }

  lemma {:induction false} CharsComplete(cs: seq<Char>, t: bytes, lim: Limits, used: nat)
    requires CharsOk(cs) && used + |DecodeChars(cs)| <= lim.maxString
    ensures ScanChars(RenderChars(cs) + ([QUOTE] + t), lim, used) == Ok((cs, t))
  {
    hide ScanChar, CharOk, RenderChar, DecodeChar;
    var s := RenderChars(cs) + ([QUOTE] + t);
    if cs == [] {
      assert s[0] == QUOTE && s[1..] == t;
    } else {
      var c, more := cs[0], RenderChars(cs[1..]) + ([QUOTE] + t);
      assert s == RenderChar(c) + more;
      CharComplete(c, more);
      CharsComplete(cs[1..], t, lim, used + |DecodeChar(c)|);
      assert cs == [c] + cs[1..];
    }
  }

  lemma {:induction false} StringComplete(cs: seq<Char>, t: bytes, lim: Limits)
    requires StringOk(cs, lim)
    ensures ScanString(RenderString(cs) + t, lim) == Ok((cs, t))
  {
    hide ScanChars, RenderChars, DecodeChars, CharOk;
    CharsComplete(cs, t, lim, 0);
    var s := RenderString(cs) + t;
    assert s == [QUOTE] + (RenderChars(cs) + ([QUOTE] + t));
  }

  // ------------------------------------------------------------ numbers

  /** What may follow a number without becoming part of it. */
  predicate NumberEnd(t: bytes) {
    t == [] || (!IsDigit(t[0]) && t[0] != DOT && t[0] != 0x65 && t[0] != 0x45)
  }

  lemma {:induction false} WholeComplete(w: bytes, t: bytes)
    requires NonEmptyDigits(w) && (w[0] == ZERO ==> |w| == 1) && NotDigit(t)
    ensures ScanWhole(w + t) == Ok((w, t))
  {
    DigitExact(w, t);
    assert (w + t)[0] == w[0];
    if w[0] == ZERO { assert (w + t)[..1] == w && (w + t)[1..] == t; }
  }

  lemma {:induction false} FractionComplete(f: Option<bytes>, t: bytes)
    requires f.Some? ==> NonEmptyDigits(f.value) && NotDigit(t)
    requires f.None? ==> !Starts(t, DOT)
    ensures ScanFraction(RenderFraction(f) + t) == Ok((f, t))
  {
    if f.Some? {
      DigitExact(f.value, t);
      assert (RenderFraction(f) + t)[1..] == f.value + t;
    } else {
      assert RenderFraction(f) + t == t;
    }
  }

  lemma {:induction false} SignExact(sign: bytes, t: bytes)
    requires sign == [] || sign == [PLUS] || sign == [MINUS]
    requires t != [] && IsDigit(t[0])
    ensures SignLen(sign + t) == |sign|
    ensures (sign + t)[..|sign|] == sign && (sign + t)[|sign|..] == t
  {
    if sign == [] { assert sign + t == t; }
  }

  lemma {:induction false} ExponentComplete(e: Option<Exponent>, t: bytes)
    requires e.Some? ==> ExponentOk(e.value) && NotDigit(t)
    requires e.None? ==> NumberEnd(t)
    ensures ScanExponent(RenderExponent(e) + t) == Ok((e, t))
  {
    if e.Some? {
      var x := e.value;
      DigitExact(x.digits, t);
      assert (x.digits + t)[0] == x.digits[0];
      SignExact(x.sign, x.digits + t);
      var s := RenderExponent(e) + t;
      assert s[0] == x.letter && s[1..] == x.sign + (x.digits + t);
      hide DigitLen, SignLen;
    } else {
      assert RenderExponent(e) + t == t;
    }
  }

  lemma {:induction false} NumberComplete(n: Number, t: bytes)
    requires NumberOk(n) && NumberEnd(t)
    ensures ScanNumber(RenderNumber(n) + t) == Ok((n, t))
  {
    var f, x := RenderFraction(n.fraction), RenderExponent(n.exponent);
    ExponentComplete(n.exponent, t);
    assert NotDigit(x + t) && !Starts(x + t, DOT);
    FractionComplete(n.fraction, x + t);
    assert NotDigit(f + (x + t));
    WholeComplete(n.whole, f + (x + t));
    hide ScanWhole, ScanFraction, ScanExponent, RenderFraction, RenderExponent;
    var s := RenderNumber(n) + t;
    var sign := if n.minus then [MINUS] else [];
    Assoc4(sign, n.whole, f, x, t);
    NumberBody(n, s, n.whole + (f + (x + t)));
  }

  lemma {:induction false} NumberBody(n: Number, s: bytes, body: bytes)
    requires NonEmptyDigits(n.whole) && n.whole <= body
    requires s == (if n.minus then [MINUS] else []) + body
    ensures Starts(s, MINUS) == n.minus
    ensures body == if n.minus then s[1..] else s
  {
    assert body[0] == n.whole[0];
  }

  // ------------------------------------------------------------ values

  /** First byte of a value, which decides how it is scanned. */
  lemma {:induction false} RenderHead(j: Json, parent: nat, lim: Limits)
    requires Admissible(j, parent, lim)
    ensures var s := Render(j);
      && s != [] && !IsWs(s[0]) && s[0] != CLOSE_BRACKET
      && (j.Object? <==> s[0] == OPEN_BRACE)
      && (j.Array? <==> s[0] == OPEN_BRACKET)
      && (j.Str? <==> s[0] == QUOTE)
      && (j.Num? <==> s[0] == MINUS || IsDigit(s[0]))
      && (j.Literal? ==> s[0] == WordBytes(j.word)[0])
  {
    hide RenderMembers, RenderElements, RenderChars;
    if j.Num? {
      assert Render(j)[0] == if j.number.minus then MINUS else j.number.whole[0];
    }
  }

  predicate Ends(j: Json, rest: bytes) { j.Num? ==> NumberEnd(rest) }

  lemma {:induction false} WordComplete(w: Word, rest: bytes, parent: nat, lim: Limits)
    ensures ScanValue(WordBytes(w) + rest, parent, lim) == Ok((Literal(w), rest))
  {
    var s, n := WordBytes(w) + rest, |WordBytes(w)|;
    assert s[0] == WordBytes(w)[0];
    assert s[..n] == WordBytes(w) && s[n..] == rest;
  }

  lemma {:induction false} ValueComplete(j: Json, rest: bytes, parent: nat, lim: Limits)
    requires Admissible(j, parent, lim) && Ends(j, rest)
    ensures ScanValue(Render(j) + rest, parent, lim) == Ok((j, rest))
    decreases j, 0
  {
    var s := Render(j) + rest;
    RenderHead(j, parent, lim);
    assert s[0] == Render(j)[0];
    hide ScanString, ScanNumber, ScanWord, ScanObject, ScanArray, RenderString, RenderNumber, WordBytes,
      StringOk, NumberOk, RenderMembers, RenderElements;
    match j
    case Object(blank, ms) => ObjectComplete(blank, ms, rest, parent, lim);
    case Array(blank, es) => ArrayComplete(blank, es, rest, parent, lim);
    case Str(cs) => StringComplete(cs, rest, lim);
    case Num(n) => NumberComplete(n, rest);
    case Literal(w) => WordComplete(w, rest, parent, lim);
  }

  lemma {:induction false} ObjectComplete(blank: bytes, ms: seq<Member>, rest: bytes, parent: nat, lim: Limits)
    requires Admissible(Object(blank, ms), parent, lim)
    ensures ScanObject(Render(Object(blank, ms)) + rest, parent + 1, lim) == Ok((Object(blank, ms), rest))
    decreases ms, 1
  {
    hide WsLen, ScanMembers, RenderMembers, AllWs, MemberSyntax, Admissible;
    if ms == [] {
      EmptyObjectComplete(blank, rest, parent, lim);
    } else {
      FullObjectParts(blank, ms, parent, lim);
      assert [] + Names(ms) == Names(ms);
      MembersComplete(ms, rest, parent + 1, lim, []);
      FullObjectComplete(ms, rest, parent, lim);
    }
  }

  lemma {:induction false} FullObjectParts(blank: bytes, ms: seq<Member>, parent: nat, lim: Limits)
    requires ms != [] && Admissible(Object(blank, ms), parent, lim)
    ensures blank == [] && parent + 1 <= lim.maxDepth && |ms| <= lim.maxEntries
    ensures MembersOk(ms, parent + 1, lim) && NamesOk(ms) && NoDuplicates(Names(ms))
    ensures AllWs(ms[0].before)
  {
  }

  lemma {:induction false} EmptyObjectComplete(blank: bytes, rest: bytes, parent: nat, lim: Limits)
    requires Admissible(Object(blank, []), parent, lim)
    ensures ScanObject(Render(Object(blank, [])) + rest, parent + 1, lim) == Ok((Object(blank, []), rest))
  {
    var s := Render(Object(blank, [])) + rest;
    Assoc3([OPEN_BRACE], blank, [CLOSE_BRACE], rest);
    WsExact(blank, [CLOSE_BRACE] + rest);
    hide WsLen;
    assert s[1..] == blank + ([CLOSE_BRACE] + rest);
    assert ([CLOSE_BRACE] + rest)[1..] == rest;
  }

  /** The text of a non-empty object does not look like an empty one. */
  lemma {:induction false} FullObjectComplete(ms: seq<Member>, rest: bytes, parent: nat, lim: Limits)
    requires ms != [] && AllWs(ms[0].before) && parent + 1 <= lim.maxDepth
    requires ScanMembers(RenderMembers(ms) + rest, parent + 1, lim, []) == Ok((ms, rest))
    ensures ScanObject(Render(Object([], ms)) + rest, parent + 1, lim) == Ok((Object([], ms), rest))
  {
    hide ScanMembers, WsLen, AllWs, RenderMembers;
    var s, body := Render(Object([], ms)) + rest, RenderMembers(ms) + rest;
    assert Render(Object([], ms)) == [OPEN_BRACE] + RenderMembers(ms);
    assert s == [OPEN_BRACE] + body;
    assert s[1..] == body;
    MembersHead(ms, rest);
  }

  lemma {:induction false} MembersHead(ms: seq<Member>, rest: bytes)
    requires ms != [] && AllWs(ms[0].before)
    ensures var body := RenderMembers(ms) + rest; Starts(body[WsLen(body)..], QUOTE)
  {
    hide WsLen, Render;
    var m := ms[0];
    var tail := if |ms| == 1 then [CLOSE_BRACE] else [COMMA] + RenderMembers(ms[1..]);
    MemberTextAppend(m, Render(m.value), tail, rest);
    var t := RenderString(m.name) + (m.gap + ([COLON] + (m.lead + (Render(m.value) + (m.after + (tail + rest))))));
    assert t[0] == QUOTE;
    WsExact(m.before, t);
  }

  /** Reading one member leaves what follows it. */
  lemma {:induction false} MemberScan(m: Member, tail: bytes, depth: nat, lim: Limits, seen: seq<bytes>)
    requires MemberSyntax(m, lim) && Admissible(m.value, depth, lim)
    requires tail != [] && (tail[0] == CLOSE_BRACE || tail[0] == COMMA)
    requires DecodeChars(m.name) !in seen && |seen| + 1 <= lim.maxEntries
    requires ScanValue(Render(m.value) + (m.after + tail), depth, lim) == Ok((m.value, m.after + tail))
    ensures ScanMember(MemberText(m, Render(m.value), tail), depth, lim, seen) == Ok((m, tail))
  {
    RenderHead(m.value, depth, lim);
    hide ScanString, ScanValue, Render, RenderString, StringOk, Admissible, DecodeChars, CharOk;
    var t5 := m.after + tail;
    WsExact(m.after, tail);
    var t4 := Render(m.value) + t5;
    assert t4[0] == Render(m.value)[0];
    WsExact(m.lead, t4);
    var t3 := [COLON] + (m.lead + t4);
    assert t3[1..] == m.lead + t4;
    WsExact(m.gap, t3);
    var t2 := m.gap + t3;
    StringComplete(m.name, t2, lim);
    var t1 := RenderString(m.name) + t2;
    StringHead(m.name, t2);
    WsExact(m.before, t1);
    hide WsLen;
  }

  lemma {:induction false} StringHead(cs: seq<Char>, t: bytes)
    ensures Starts(RenderString(cs) + t, QUOTE)
  {
  }

  lemma {:induction false} MembersComplete(ms: seq<Member>, rest: bytes, depth: nat, lim: Limits, seen: seq<bytes>)
    requires ms != [] && MembersOk(ms, depth, lim) && NamesOk(ms)
    requires NoDuplicates(seen + Names(ms)) && |seen| + |ms| <= lim.maxEntries
    ensures ScanMembers(RenderMembers(ms) + rest, depth, lim, seen) == Ok((ms, rest))
    decreases ms, 0
  {
    hide ScanMember, ScanValue, Render, Admissible, MemberSyntax, DecodeChars, CharOk, MemberText, AllWs;
    var m, more := ms[0], ms[1..];
    assert m.value < m;
    assert ms == [m] + more;
    NamesStep(m, more, seen);
    var tail := if more == [] then [CLOSE_BRACE] else [COMMA] + RenderMembers(more);
    MemberTextAppend(m, Render(m.value), tail, rest);
    assert RenderMembers(ms) == MemberText(m, Render(m.value), tail);
    AfterEnds(m.value, m.after, tail + rest, m, lim);
    ValueComplete(m.value, m.after + (tail + rest), depth, lim);
    FreshName(seen, DecodeChars(m.name), Names(more));
    MemberScan(m, tail + rest, depth, lim, seen);
    if more == [] {
      assert (tail + rest)[1..] == rest;
      assert ms == [m];
    } else {
      MembersComplete(more, rest, depth, lim, seen + [DecodeChars(m.name)]);
      assert (tail + rest)[1..] == RenderMembers(more) + rest;
    }
  }

  lemma {:induction false} FreshName(seen: seq<bytes>, name: bytes, more: seq<bytes>)
    requires NoDuplicates((seen + [name]) + more)
    ensures name !in seen
  {
    var all := (seen + [name]) + more;
    assert all[|seen|] == name;
    assert forall i :: 0 <= i < |seen| ==> all[i] == seen[i];
  }

  lemma {:induction false} AfterEnds(j: Json, after: bytes, tail: bytes, m: Member, lim: Limits)
    requires m.after == after && MemberSyntax(m, lim)
    requires tail != [] && (tail[0] == CLOSE_BRACE || tail[0] == COMMA)
    ensures Ends(j, after + tail)
  {
    WsEnds(j, after, tail);
  }

  lemma {:induction false} WsEnds(j: Json, after: bytes, tail: bytes)
    requires AllWs(after)
    requires tail != [] ==> tail[0] == CLOSE_BRACE || tail[0] == COMMA || tail[0] == CLOSE_BRACKET
    ensures Ends(j, after + tail)
  {
    if after != [] { assert (after + tail)[0] == after[0]; } else { assert after + tail == tail; }
  }

  lemma {:induction false} ArrayComplete(blank: bytes, es: seq<Element>, rest: bytes, parent: nat, lim: Limits)
    requires Admissible(Array(blank, es), parent, lim)
    ensures ScanArray(Render(Array(blank, es)) + rest, parent + 1, lim) == Ok((Array(blank, es), rest))
    decreases es, 1
  {
    hide WsLen, ScanElements, RenderElements, AllWs, ElementSyntax, Admissible;
    if es == [] {
      EmptyArrayComplete(blank, rest, parent, lim);
    } else {
      FullArrayParts(blank, es, parent, lim);
      ElementsComplete(es, rest, parent + 1, lim, 0);
      FullArrayComplete(es, rest, parent, lim);
    }
  }

  lemma {:induction false} FullArrayParts(blank: bytes, es: seq<Element>, parent: nat, lim: Limits)
    requires es != [] && Admissible(Array(blank, es), parent, lim)
    ensures blank == [] && parent + 1 <= lim.maxDepth && |es| <= lim.maxEntries
    ensures ElementsOk(es, parent + 1, lim)
    ensures AllWs(es[0].lead) && Admissible(es[0].value, parent + 1, lim)
  {
  }

  lemma {:induction false} EmptyArrayComplete(blank: bytes, rest: bytes, parent: nat, lim: Limits)
    requires Admissible(Array(blank, []), parent, lim)
    ensures ScanArray(Render(Array(blank, [])) + rest, parent + 1, lim) == Ok((Array(blank, []), rest))
  {
    var s := Render(Array(blank, [])) + rest;
    Assoc3([OPEN_BRACKET], blank, [CLOSE_BRACKET], rest);
    WsExact(blank, [CLOSE_BRACKET] + rest);
    hide WsLen;
    assert s[1..] == blank + ([CLOSE_BRACKET] + rest);
    assert ([CLOSE_BRACKET] + rest)[1..] == rest;
  }

  lemma {:induction false} FullArrayComplete(es: seq<Element>, rest: bytes, parent: nat, lim: Limits)
    requires es != [] && AllWs(es[0].lead) && parent + 1 <= lim.maxDepth
    requires Admissible(es[0].value, parent + 1, lim)
    requires ScanElements(RenderElements(es) + rest, parent + 1, lim, 0) == Ok((es, rest))
    ensures ScanArray(Render(Array([], es)) + rest, parent + 1, lim) == Ok((Array([], es), rest))
  {
    hide ScanElements, WsLen, AllWs, RenderElements, Admissible;
    var s, body := Render(Array([], es)) + rest, RenderElements(es) + rest;
    assert Render(Array([], es)) == [OPEN_BRACKET] + RenderElements(es);
    assert s == [OPEN_BRACKET] + body;
    assert s[1..] == body;
    ElementsHead(es, rest, parent + 1, lim);
  }

  lemma {:induction false} ElementsHead(es: seq<Element>, rest: bytes, depth: nat, lim: Limits)
    requires es != [] && AllWs(es[0].lead) && Admissible(es[0].value, depth, lim)
    ensures var body := RenderElements(es) + rest; !Starts(body[WsLen(body)..], CLOSE_BRACKET)
  {
    var e := es[0];
    RenderHead(e.value, depth, lim);
    hide WsLen, Render, Admissible;
    var tail := if |es| == 1 then [CLOSE_BRACKET] else [COMMA] + RenderElements(es[1..]);
    ElementTextAppend(e, Render(e.value), tail, rest);
    var t := Render(e.value) + (e.after + (tail + rest));
    assert t[0] == Render(e.value)[0];
    WsExact(e.lead, t);
  }

  function AfterElement(e: Element, tail: bytes, depth: nat, lim: Limits, entries: nat): (r: Scan<seq<Element>>)
    requires tail != []
  {
    if Starts(tail, CLOSE_BRACKET) then Ok(([e], tail[1..]))
    else
      match ScanElements(tail[1..], depth, lim, entries)
      case Err(x) => Err(x)
      case Ok(es) => Ok(([e] + es.0, es.1))
  }

  lemma {:induction false} ElementScan(e: Element, tail: bytes, depth: nat, lim: Limits, entries: nat)
    requires ElementSyntax(e) && Admissible(e.value, depth, lim) && entries + 1 <= lim.maxEntries
    requires tail != [] && (tail[0] == CLOSE_BRACKET || tail[0] == COMMA)
    requires ScanValue(Render(e.value) + (e.after + tail), depth, lim) == Ok((e.value, e.after + tail))
    ensures ScanElements(ElementText(e, Render(e.value), tail), depth, lim, entries)
         == AfterElement(e, tail, depth, lim, entries + 1)
  {
    RenderHead(e.value, depth, lim);
    hide ScanValue, Render, Admissible;
    WsExact(e.after, tail);
    var t := Render(e.value) + (e.after + tail);
    assert t[0] == Render(e.value)[0];
    WsExact(e.lead, t);
    hide WsLen;
  }

  lemma {:induction false} ElementsComplete(es: seq<Element>, rest: bytes, depth: nat, lim: Limits, entries: nat)
    requires es != [] && ElementsOk(es, depth, lim) && entries + |es| <= lim.maxEntries
    ensures ScanElements(RenderElements(es) + rest, depth, lim, entries) == Ok((es, rest))
    decreases es, 0
  {
    hide ScanElements, ScanValue, Render, Admissible, ElementText, AllWs;
    var e, more := es[0], es[1..];
    assert e.value < e;
    assert es == [e] + more;
    var tail := if more == [] then [CLOSE_BRACKET] else [COMMA] + RenderElements(more);
    ElementTextAppend(e, Render(e.value), tail, rest);
    assert RenderElements(es) == ElementText(e, Render(e.value), tail);
    WsEnds(e.value, e.after, tail + rest);
    ValueComplete(e.value, e.after + (tail + rest), depth, lim);
    ElementScan(e, tail + rest, depth, lim, entries);
    if more == [] {
      assert (tail + rest)[1..] == rest;
      assert es == [e];
    } else {
      ElementsComplete(more, rest, depth, lim, entries + 1);
      assert (tail + rest)[1..] == RenderElements(more) + rest;
    }
  }

  // ------------------------------------------------------------ the laws

  /** A padded admissible object is recognised as exactly its own tree: the grammar is
      unambiguous and the scan finds the one reading. */
  lemma {:induction false} DocumentComplete(pre: bytes, j: Json, post: bytes, lim: Limits)
    requires AllWs(pre) && AllWs(post) && Admissible(j, 0, lim)
    requires var input := pre + (Render(j) + post);
      LimitsOk(lim) && |input| <= lim.maxBytes && ValidUtf8(input)
    ensures ScanDocument(pre + (Render(j) + post), lim) == if j.Object? then Ok(j) else Err(NonObjectRoot)
  {
    var body := Render(j) + post;
    RenderHead(j, 0, lim);
    assert body[0] == Render(j)[0];
    WsExact(pre, body);
    WsExact(post, []);
    assert post + [] == post;
    WsEnds(j, post, []);
    hide ScanValue, Render, Admissible, ValidUtf8;
    ValueComplete(j, post, 0, lim);
  }

  /** The scanner phase succeeds exactly on valid UTF-8, within the size limits, that is one
      white-space-padded object admissible under the grammar and every limit. */
  lemma {:induction false} ScannerExact(input: bytes, lim: Limits)
    ensures ScanDocument(input, lim).Ok?
       <==> LimitsOk(lim) && |input| <= lim.maxBytes && ValidUtf8(input) && IsBoundedObject(input, lim)
  {
    hide ScanValue, Render, Admissible, ValidUtf8, WsLen, LimitsOk;
    if ScanDocument(input, lim).Ok? {
      WsSplit(input);
      var n := WsLen(input);
      ValueSound(input[n..], 0, lim);
      var x := ScanValue(input[n..], 0, lim).value;
      WsSplit(x.1);
      assert x.1[..WsLen(x.1)] == x.1;
      assert input == input[..n] + (Render(x.0) + x.1);
    }
    if IsBoundedObject(input, lim) && LimitsOk(lim) && |input| <= lim.maxBytes && ValidUtf8(input) {
      var pre, j: Json, post :|
        AllWs(pre) && AllWs(post) && j.Object? && Admissible(j, 0, lim) && input == pre + (Render(j) + post);
      DocumentComplete(pre, j, post, lim);
    }
  }

  /** Two readings of one text are the same reading. */
  lemma {:induction false} GrammarUnambiguous(pre: bytes, j: Json, post: bytes, pre': bytes, j': Json, post': bytes,
                                              lim: Limits)
    requires AllWs(pre) && AllWs(post) && Admissible(j, 0, lim)
    requires AllWs(pre') && AllWs(post') && Admissible(j', 0, lim)
    requires pre + (Render(j) + post) == pre' + (Render(j') + post')
    ensures pre == pre' && j == j' && post == post'
  {
    RenderHead(j, 0, lim);
    RenderHead(j', 0, lim);
    assert (Render(j) + post)[0] == Render(j)[0] && (Render(j') + post')[0] == Render(j')[0];
    WsExact(pre, Render(j) + post);
    WsExact(pre', Render(j') + post');
    assert post + [] == post && post' + [] == post';
    WsEnds(j, post, []);
    WsEnds(j', post', []);
    hide ScanValue, Render, Admissible;
    ValueComplete(j, post, 0, lim);
    ValueComplete(j', post', 0, lim);
  }
}
