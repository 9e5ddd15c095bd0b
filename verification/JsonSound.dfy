/** Whatever the scan accepts is admissible JSON text, read to its exact end. */
module JsonSound {
  import opened Bytes
  import opened JsonGrammar
  import opened JsonScan

  lemma {:induction false} WsSplit(s: bytes)
    ensures s == s[..WsLen(s)] + s[WsLen(s)..]
    ensures AllWs(s[..WsLen(s)])
    ensures WsLen(s) < |s| ==> !IsWs(s[WsLen(s)])
  {
    if s != [] && IsWs(s[0]) {
      WsSplit(s[1..]);
      var n := WsLen(s[1..]);
      assert s[..1 + n] == [s[0]] + s[1..][..n];
    }
  }

  lemma {:induction false} DigitSplit(s: bytes)
    ensures s == s[..DigitLen(s)] + s[DigitLen(s)..]
    ensures AllDigits(s[..DigitLen(s)])
  {
    if s != [] && IsDigit(s[0]) {
      DigitSplit(s[1..]);
      var n := DigitLen(s[1..]);
      assert s[..1 + n] == [s[0]] + s[1..][..n];
    }
  }

  // ------------------------------------------------------------ strings

  lemma MultiByteSound(s: bytes)
    requires s != [] && s[0] >= 0x80 && ScanMultiByte(s).Ok?
    ensures s == RenderChar(ScanMultiByte(s).value.0) + ScanMultiByte(s).value.1
  {
    var w := Utf8Width(s[0]).value;
    assert s == s[..w] + s[w..];
  }

  lemma UnicodeSound(s: bytes)
    requires ScanUnicode(s).Ok?
    ensures [BACKSLASH, LETTER_U] + s == RenderChar(ScanUnicode(s).value.0) + ScanUnicode(s).value.1
  {
    var first := ScanHexQuad(s).value;
    if IsHigh(HexValue(first.0)) {
      var second := ScanHexQuad(first.1[2..]).value;
      assert first.1 == [BACKSLASH, LETTER_U] + first.1[2..];
    }
  }

  lemma CharSound(s: bytes)
    requires s != [] && s[0] != QUOTE && ScanChar(s).Ok?
    ensures CharOk(ScanChar(s).value.0)
    ensures s == RenderChar(ScanChar(s).value.0) + ScanChar(s).value.1
  {
    ScanCharOk(s);
    hide CharOk, ScanUnicode, ScanMultiByte;
    if s[0] == BACKSLASH {
      assert s == s[..2] + s[2..];
      if s[1] == LETTER_U { UnicodeSound(s[2..]); }
    } else if s[0] < 0x80 {
      assert s == s[..1] + s[1..];
    } else {
      MultiByteSound(s);
    }
  }

  lemma {:induction false} CharsSound(s: bytes, lim: Limits, used: nat)
    requires used <= lim.maxString && ScanChars(s, lim, used).Ok?
    ensures var x := ScanChars(s, lim, used).value;
      s == RenderChars(x.0) + ([QUOTE] + x.1) && used + |DecodeChars(x.0)| <= lim.maxString
    decreases |s|
  {
    hide ScanChar, CharOk, RenderChar, DecodeChar;
    if s[0] == QUOTE {
      assert s == [] + ([QUOTE] + s[1..]);
    } else {
      CharSound(s);
      var c := ScanChar(s).value;
      var total := used + |DecodeChar(c.0)|;
      CharsSound(c.1, lim, total);
      var cs := ScanChars(c.1, lim, total).value;
      var all := [c.0] + cs.0;
      assert all[1..] == cs.0;
      assert RenderChars(all) + ([QUOTE] + cs.1) == RenderChar(c.0) + (RenderChars(cs.0) + ([QUOTE] + cs.1));
    }
  }

  lemma {:induction false} StringSound(s: bytes, lim: Limits)
    requires ScanString(s, lim).Ok?
    ensures var x := ScanString(s, lim).value;
      s == RenderString(x.0) + x.1 && StringOk(x.0, lim)
  {
    hide ScanChars, RenderChars, DecodeChars, CharOk;
    CharsSound(s[1..], lim, 0);
    var x := ScanString(s, lim).value;
    assert s == [QUOTE] + s[1..];
    assert [QUOTE] + (RenderChars(x.0) + ([QUOTE] + x.1)) == ([QUOTE] + (RenderChars(x.0) + [QUOTE])) + x.1;
  }

  // ------------------------------------------------------------ numbers

  lemma WholeSound(s: bytes)
    requires ScanWhole(s).Ok?
    ensures var x := ScanWhole(s).value;
      s == x.0 + x.1 && NonEmptyDigits(x.0) && (x.0[0] == ZERO ==> |x.0| == 1)
  {
    DigitSplit(s);
    assert s == s[..1] + s[1..];
  }

  lemma FractionSound(s: bytes)
    requires ScanFraction(s).Ok?
    ensures var x := ScanFraction(s).value;
      s == RenderFraction(x.0) + x.1 && (x.0.Some? ==> NonEmptyDigits(x.0.value))
  {
    if Starts(s, DOT) {
      DigitSplit(s[1..]);
      assert s == [DOT] + s[1..];
    }
  }

  lemma ExponentSound(s: bytes)
    requires ScanExponent(s).Ok?
    ensures var x := ScanExponent(s).value;
      s == RenderExponent(x.0) + x.1 && (x.0.Some? ==> ExponentOk(x.0.value))
  {
    if s != [] && (s[0] == 0x65 || s[0] == 0x45) {
      var g := SignLen(s[1..]);
      SignSplit(s[1..]);
      var t := s[1..][g..];
      DigitSplit(t);
      var n := DigitLen(t);
      hide DigitLen, SignLen;
      assert s == [s[0]] + s[1..];
      Assoc3([s[0]], s[1..][..g], t[..n], t[n..]);
    }
  }

  lemma SignSplit(s: bytes)
    ensures s == s[..SignLen(s)] + s[SignLen(s)..]
    ensures s[..SignLen(s)] == [] || s[..SignLen(s)] == [PLUS] || s[..SignLen(s)] == [MINUS]
  {
  }

  lemma NumberSound(s: bytes)
    requires ScanNumber(s).Ok?
    ensures var x := ScanNumber(s).value; s == RenderNumber(x.0) + x.1 && NumberOk(x.0)
  {
    hide ScanWhole, ScanFraction, ScanExponent, RenderFraction, RenderExponent, ExponentOk, NonEmptyDigits;
    var minus := Starts(s, MINUS);
    var body := if minus then s[1..] else s;
    WholeSound(body);
    var w := ScanWhole(body).value;
    FractionSound(w.1);
    var f := ScanFraction(w.1).value;
    ExponentSound(f.1);
    var x := ScanExponent(f.1).value;
    var sign := if minus then [MINUS] else [];
    assert s == sign + body;
    Assoc4(sign, w.0, RenderFraction(f.0), RenderExponent(x.0), x.1);
  }

  // ------------------------------------------------------------ values

  ghost predicate Read(s: bytes, j: Json, rest: bytes, parent: nat, lim: Limits) {
    s == Render(j) + rest && Admissible(j, parent, lim)
  }

  predicate MembersOk(ms: seq<Member>, depth: nat, lim: Limits) {
    forall i :: 0 <= i < |ms| ==> MemberSyntax(ms[i], lim) && Admissible(ms[i].value, depth, lim)
  }

  predicate ElementsOk(es: seq<Element>, depth: nat, lim: Limits) {
    forall i :: 0 <= i < |es| ==> ElementSyntax(es[i]) && Admissible(es[i].value, depth, lim)
  }

  ghost predicate MembersRead(s: bytes, ms: seq<Member>, rest: bytes, depth: nat, lim: Limits, seen: seq<bytes>) {
    && ms != []
    && s == RenderMembers(ms) + rest
    && MembersOk(ms, depth, lim)
    && NamesOk(ms)
    && NoDuplicates(seen + Names(ms))
    && |seen| + |ms| <= lim.maxEntries
  }

  ghost predicate ElementsRead(s: bytes, es: seq<Element>, rest: bytes, depth: nat, lim: Limits, entries: nat) {
    && es != []
    && s == RenderElements(es) + rest
    && ElementsOk(es, depth, lim)
    && entries + |es| <= lim.maxEntries
  }

  lemma {:induction false} WordSound(s: bytes, w: Word)
    requires ScanWord(s, w).Ok?
    ensures s == WordBytes(w) + ScanWord(s, w).value.1
  {
    var n := |WordBytes(w)|;
    assert s == s[..n] + s[n..];
  }

  lemma {:induction false} ValueSound(s: bytes, parent: nat, lim: Limits)
    requires ScanValue(s, parent, lim).Ok?
    ensures var x := ScanValue(s, parent, lim).value; Read(s, x.0, x.1, parent, lim)
    decreases |s|, 1
  {
    hide ScanString, ScanNumber, ScanWord, StringOk, NumberOk, RenderString, RenderNumber, WordBytes,
      ScanObject, ScanArray, RenderMembers, RenderElements, AllWs;
    if Starts(s, OPEN_BRACE) {
      ObjectSound(s, parent, lim);
    } else if Starts(s, OPEN_BRACKET) {
      ArraySound(s, parent, lim);
    } else if Starts(s, QUOTE) {
      StringSound(s, lim);
    } else if s[0] == MINUS || IsDigit(s[0]) {
      NumberSound(s);
    } else {
      WordSound(s, if s[0] == 0x74 then True else if s[0] == 0x66 then False else Null);
    }
  }

  lemma {:induction false} ObjectSound(s: bytes, parent: nat, lim: Limits)
    requires Starts(s, OPEN_BRACE) && ScanObject(s, parent + 1, lim).Ok?
    ensures var x := ScanObject(s, parent + 1, lim).value; Read(s, x.0, x.1, parent, lim)
    decreases |s|, 0
  {
    hide WsLen, ScanMembers, RenderMembers, MembersRead, AllWs, MemberSyntax;
    var n := WsLen(s[1..]);
    var t := s[1..][n..];
    WsSplit(s[1..]);
    assert s == [OPEN_BRACE] + s[1..];
    if Starts(t, CLOSE_BRACE) {
      EmptyObjectSound(s[1..][..n], t[1..], parent, lim);
      assert t == [CLOSE_BRACE] + t[1..];
      Assoc3([OPEN_BRACE], s[1..][..n], [CLOSE_BRACE], t[1..]);
    } else {
      MembersSound(s[1..], parent + 1, lim, []);
      var x := ScanMembers(s[1..], parent + 1, lim, []).value;
      FullObjectSound(s[1..], x.0, x.1, parent, lim);
    }
  }

  lemma {:induction false} EmptyObjectSound(blank: bytes, rest: bytes, parent: nat, lim: Limits)
    requires AllWs(blank) && parent + 1 <= lim.maxDepth
    ensures Read(([OPEN_BRACE] + (blank + [CLOSE_BRACE])) + rest, Object(blank, []), rest, parent, lim)
  {
  }

  lemma {:induction false} FullObjectSound(s: bytes, ms: seq<Member>, rest: bytes, parent: nat, lim: Limits)
    requires parent + 1 <= lim.maxDepth && MembersRead(s, ms, rest, parent + 1, lim, [])
    ensures Read([OPEN_BRACE] + s, Object([], ms), rest, parent, lim)
  {
    hide RenderMembers, MemberSyntax, CharOk;
    assert [] + Names(ms) == Names(ms);
    assert [OPEN_BRACE] + (RenderMembers(ms) + rest) == ([OPEN_BRACE] + RenderMembers(ms)) + rest;
  }

  lemma {:induction false} MembersSound(s: bytes, depth: nat, lim: Limits, seen: seq<bytes>)
    requires NoDuplicates(seen) && ScanMembers(s, depth, lim, seen).Ok?
    ensures var x := ScanMembers(s, depth, lim, seen).value; MembersRead(s, x.0, x.1, depth, lim, seen)
    decreases |s|, 3
  {
    hide ScanMember, Render, RenderMembers, Admissible, MemberSyntax, MembersRead, DecodeChars, CharOk, MemberText;
    var m := ScanMember(s, depth, lim, seen).value;
    MemberSound(s, depth, lim, seen);
    if Starts(m.1, CLOSE_BRACE) {
      LastMember(s, m.0, m.1, depth, lim, seen);
    } else {
      var seen' := seen + [DecodeChars(m.0.name)];
      MembersSound(m.1[1..], depth, lim, seen');
      var ms := ScanMembers(m.1[1..], depth, lim, seen').value;
      NextMember(s, m.0, m.1, ms.0, ms.1, depth, lim, seen);
    }
  }

  lemma {:induction false} MemberSound(s: bytes, depth: nat, lim: Limits, seen: seq<bytes>)
    requires ScanMember(s, depth, lim, seen).Ok?
    ensures var m := ScanMember(s, depth, lim, seen).value;
      && s == MemberText(m.0, Render(m.0.value), m.1)
      && MemberSyntax(m.0, lim) && Admissible(m.0.value, depth, lim)
      && DecodeChars(m.0.name) !in seen && |seen| + 1 <= lim.maxEntries
    decreases |s|, 2
  {
    hide WsLen, ScanString, ScanValue, RenderString, Render, Admissible, StringOk, AllWs, DecodeChars, CharOk,
      MemberText;
    var n := WsLen(s);
    WsSplit(s);
    var name := ScanString(s[n..], lim).value;
    StringSound(s[n..], lim);
    var g := WsLen(name.1);
    WsSplit(name.1);
    var colon := name.1[g..];
    var l := WsLen(colon[1..]);
    WsSplit(colon[1..]);
    var v := ScanValue(colon[1..][l..], depth, lim).value;
    ValueSound(colon[1..][l..], depth, lim);
    WsSplit(v.1);
    var m := ScanMember(s, depth, lim, seen).value;
    assert colon == [COLON] + colon[1..];
    MemberLayout(s, m.0, m.1, s[n..], name.1, colon, colon[1..][l..], v.1);
  }

  /** The pieces of one member, put back together. */
  lemma {:induction false} MemberLayout(s: bytes, m: Member, after: bytes,
                                        s1: bytes, s2: bytes, s3: bytes, s4: bytes, s5: bytes)
    requires s == m.before + s1 && s1 == RenderString(m.name) + s2 && s2 == m.gap + s3
    requires s3 == [COLON] + (m.lead + s4) && s4 == Render(m.value) + s5 && s5 == m.after + after
    ensures s == MemberText(m, Render(m.value), after)
  {
  }

  lemma {:induction false} MemberTextAppend(m: Member, value: bytes, x: bytes, y: bytes)
    ensures MemberText(m, value, x) + y == MemberText(m, value, x + y)
  {
    hide RenderString;
    var s4 := value + (m.after + x);
    assert s4 + y == value + (m.after + (x + y));
    var s2 := m.gap + ([COLON] + (m.lead + s4));
    assert s2 + y == m.gap + ([COLON] + (m.lead + (s4 + y)));
    var r := RenderString(m.name);
    assert (m.before + (r + s2)) + y == m.before + (r + (s2 + y));
  }

  lemma {:induction false} LastMember(s: bytes, m: Member, after: bytes, depth: nat, lim: Limits, seen: seq<bytes>)
    requires s == MemberText(m, Render(m.value), after) && Starts(after, CLOSE_BRACE)
    requires MemberSyntax(m, lim) && Admissible(m.value, depth, lim)
    requires NoDuplicates(seen) && DecodeChars(m.name) !in seen && |seen| + 1 <= lim.maxEntries
    ensures MembersRead(s, [m], after[1..], depth, lim, seen)
  {
    hide MemberText, Render, Admissible, DecodeChars, CharOk;
    MemberTextAppend(m, Render(m.value), [CLOSE_BRACE], after[1..]);
    assert after == [CLOSE_BRACE] + after[1..];
    assert Names([m]) == [DecodeChars(m.name)];
    assert RenderMembers([m]) == MemberText(m, Render(m.value), [CLOSE_BRACE]);
  }

  lemma {:induction false} NextMember(s: bytes, m: Member, after: bytes, ms: seq<Member>, rest: bytes,
                                      depth: nat, lim: Limits, seen: seq<bytes>)
    requires s == MemberText(m, Render(m.value), after) && Starts(after, COMMA)
    requires MemberSyntax(m, lim) && Admissible(m.value, depth, lim)
    requires MembersRead(after[1..], ms, rest, depth, lim, seen + [DecodeChars(m.name)])
    ensures MembersRead(s, [m] + ms, rest, depth, lim, seen)
  {
    hide MemberText, Render, Admissible, DecodeChars, CharOk, AllWs;
    var all := [m] + ms;
    assert all[1..] == ms;
    var tail := [COMMA] + RenderMembers(ms);
    assert RenderMembers(all) == MemberText(m, Render(m.value), tail);
    MemberTextAppend(m, Render(m.value), tail, rest);
    assert after == [COMMA] + after[1..] == tail + rest;
    NamesStep(m, ms, seen);
  }

  lemma {:induction false} NamesStep(m: Member, ms: seq<Member>, seen: seq<bytes>)
    requires CharsOk(m.name) && NamesOk(ms)
    ensures NamesOk([m] + ms)
    ensures seen + Names([m] + ms) == (seen + [DecodeChars(m.name)]) + Names(ms)
  {
    hide CharOk, DecodeChars;
    assert Names([m] + ms) == [DecodeChars(m.name)] + Names(ms);
  }

  lemma {:induction false} ArraySound(s: bytes, parent: nat, lim: Limits)
    requires Starts(s, OPEN_BRACKET) && ScanArray(s, parent + 1, lim).Ok?
    ensures var x := ScanArray(s, parent + 1, lim).value; Read(s, x.0, x.1, parent, lim)
    decreases |s|, 0
  {
    hide WsLen, ScanElements, RenderElements, ElementsRead, AllWs, ElementSyntax;
    var n := WsLen(s[1..]);
    var t := s[1..][n..];
    WsSplit(s[1..]);
    assert s == [OPEN_BRACKET] + s[1..];
    if Starts(t, CLOSE_BRACKET) {
      EmptyArraySound(s[1..][..n], t[1..], parent, lim);
      assert t == [CLOSE_BRACKET] + t[1..];
      Assoc3([OPEN_BRACKET], s[1..][..n], [CLOSE_BRACKET], t[1..]);
    } else {
      ElementsSound(s[1..], parent + 1, lim, 0);
      var x := ScanElements(s[1..], parent + 1, lim, 0).value;
      FullArraySound(s[1..], x.0, x.1, parent, lim);
    }
  }

  lemma {:induction false} EmptyArraySound(blank: bytes, rest: bytes, parent: nat, lim: Limits)
    requires AllWs(blank) && parent + 1 <= lim.maxDepth
    ensures Read(([OPEN_BRACKET] + (blank + [CLOSE_BRACKET])) + rest, Array(blank, []), rest, parent, lim)
  {
  }

  lemma {:induction false} FullArraySound(s: bytes, es: seq<Element>, rest: bytes, parent: nat, lim: Limits)
    requires parent + 1 <= lim.maxDepth && ElementsRead(s, es, rest, parent + 1, lim, 0)
    ensures Read([OPEN_BRACKET] + s, Array([], es), rest, parent, lim)
  {
    hide RenderElements, ElementSyntax;
    assert [OPEN_BRACKET] + (RenderElements(es) + rest) == ([OPEN_BRACKET] + RenderElements(es)) + rest;
  }

  lemma {:induction false} ElementsSound(s: bytes, depth: nat, lim: Limits, entries: nat)
    requires ScanElements(s, depth, lim, entries).Ok?
    ensures var x := ScanElements(s, depth, lim, entries).value; ElementsRead(s, x.0, x.1, depth, lim, entries)
    decreases |s|, 2
  {
    hide WsLen, ScanValue, Render, RenderElements, Admissible, AllWs, ElementsRead;
    var n := WsLen(s);
    WsSplit(s);
    var v := ScanValue(s[n..], depth, lim).value;
    ValueSound(s[n..], depth, lim);
    var a := WsLen(v.1);
    WsSplit(v.1);
    var after := v.1[a..];
    var e := Element(s[..n], v.0, v.1[..a]);
    assert s == ElementText(e, Render(e.value), after);
    if Starts(after, CLOSE_BRACKET) {
      LastElement(s, e, after, depth, lim, entries);
    } else {
      ElementsSound(after[1..], depth, lim, entries + 1);
      var es := ScanElements(after[1..], depth, lim, entries + 1).value;
      NextElement(s, e, after, es.0, es.1, depth, lim, entries);
    }
  }

  lemma {:induction false} ElementTextAppend(e: Element, value: bytes, x: bytes, y: bytes)
    ensures ElementText(e, value, x) + y == ElementText(e, value, x + y)
  {
    assert (e.lead + (value + (e.after + x))) + y == e.lead + (value + (e.after + (x + y)));
  }

  lemma {:induction false} LastElement(s: bytes, e: Element, after: bytes, depth: nat, lim: Limits, entries: nat)
    requires s == ElementText(e, Render(e.value), after) && Starts(after, CLOSE_BRACKET)
    requires ElementSyntax(e) && Admissible(e.value, depth, lim) && entries + 1 <= lim.maxEntries
    ensures ElementsRead(s, [e], after[1..], depth, lim, entries)
  {
    hide ElementText, Render, Admissible;
    ElementTextAppend(e, Render(e.value), [CLOSE_BRACKET], after[1..]);
    assert after == [CLOSE_BRACKET] + after[1..];
    assert RenderElements([e]) == ElementText(e, Render(e.value), [CLOSE_BRACKET]);
  }

  lemma {:induction false} NextElement(s: bytes, e: Element, after: bytes, es: seq<Element>, rest: bytes,
                                       depth: nat, lim: Limits, entries: nat)
    requires s == ElementText(e, Render(e.value), after) && Starts(after, COMMA)
    requires ElementSyntax(e) && Admissible(e.value, depth, lim)
    requires ElementsRead(after[1..], es, rest, depth, lim, entries + 1)
    ensures ElementsRead(s, [e] + es, rest, depth, lim, entries)
  {
    hide ElementText, Render, Admissible;
    var all := [e] + es;
    assert all[1..] == es;
    var tail := [COMMA] + RenderElements(es);
    assert RenderElements(all) == ElementText(e, Render(e.value), tail);
    ElementTextAppend(e, Render(e.value), tail, rest);
    assert after == [COMMA] + after[1..] == tail + rest;
  }
}
