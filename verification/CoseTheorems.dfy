/** COSE_Sign1 messages survive the wire, and what is signed verifies. */
module CoseTheorems {
  import opened Bytes
  import opened Utf8
  import opened Cbor
  import opened CborTheorems
  import opened KeyedSort
  import opened Cose

  // ------------------------------------------------------------ what the signature covers

  lemma {:induction false} SigValueNormal(protected: bytes, aad: bytes, payload: bytes)
    requires |protected| < U64_LIMIT && |aad| < U64_LIMIT && |payload| < U64_LIMIT
    ensures Valid(SigValue(protected, aad, payload)) && IsNormal(SigValue(protected, aad, payload))
  {
    hide Ascii, ValidUtf8, NormItems;
    LiteralText("Signature1");
    NormalArray(SigValue(protected, aad, payload).items);
  }

  /** The signed bytes determine protected header, external data and payload. */
  lemma {:induction false} SigStructureInjective(p1: bytes, a1: bytes, x1: bytes, p2: bytes, a2: bytes, x2: bytes)
    requires |p1| < U64_LIMIT && |a1| < U64_LIMIT && |x1| < U64_LIMIT
    requires |p2| < U64_LIMIT && |a2| < U64_LIMIT && |x2| < U64_LIMIT
    requires SigStructure(p1, a1, x1) == SigStructure(p2, a2, x2)
    ensures p1 == p2 && a1 == a2 && x1 == x2
  {
    hide Encode, Ascii, Valid, IsNormal;
    SigValueNormal(p1, a1, x1);
    SigValueNormal(p2, a2, x2);
    NormalInjective(SigValue(p1, a1, x1), SigValue(p2, a2, x2));
    var i1, i2 := SigValue(p1, a1, x1).items, SigValue(p2, a2, x2).items;
    assert i1[1] == i2[1] && i1[2] == i2[2] && i1[3] == i2[3];
  }

  /** What a CBOR reader finds in the signed bytes (RFC 9052 section 4.4). */
  lemma {:induction false} SigStructureReadsBack(protected: bytes, aad: bytes, payload: bytes)
    requires |protected| < U64_LIMIT && |aad| < U64_LIMIT && |payload| < U64_LIMIT
    ensures FromCanonical(SigStructure(protected, aad, payload))
         == Ok(Array([Text(Ascii("Signature1")), ByteStr(protected), ByteStr(aad), ByteStr(payload)]))
  {
    hide Encode, FromCanonical, Ascii, Valid, IsNormal, MaxHeight;
    SigValueNormal(protected, aad, payload);
    ArrayHeight(SigValue(protected, aad, payload).items, 1);
    ReadsBack(SigValue(protected, aad, payload));
  }

  // ------------------------------------------------------------ label order

  lemma {:induction false} UnsignedKeys()
    ensures Encode(Uint(LABEL_KID)) == [4]
    ensures |Encode(Uint(LABEL_X5CHAIN))| > 0 && Encode(Uint(LABEL_X5CHAIN))[0] == 24
  {
    SmallUint(4);
  }

  lemma {:induction false} NegativeKey(l: i64)
    requires l < 0
    ensures var k := Encode(LabelValue(l)); |k| > 0 && k[0] >= 32
  {
  }

  lemma {:induction false} UnsignedBeforeNegative(l: i64)
    requires l < 0
    ensures Less(Encode(Uint(LABEL_KID)), Encode(LabelValue(l)))
    ensures Less(Encode(Uint(LABEL_X5CHAIN)), Encode(LabelValue(l)))
    ensures Less(Encode(Uint(LABEL_KID)), Encode(Uint(LABEL_X5CHAIN)))
  {
    UnsignedKeys();
    NegativeKey(l);
    hide Encode;
  }

  predicate AllNegative(labels: seq<(i64, bytes)>) { forall i :: 0 <= i < |labels| ==> labels[i].0 < 0 }

  /** What parsing leaves behind: bounded private labels in canonical order, a bounded chain. */
  predicate Retained(u: UnprotectedHeader) {
    && (u.kid.Some? ==> |u.kid.value| < U64_LIMIT)
    && (u.x5chain.Some? ==> ChainOk(u.x5chain.value))
    && |u.privateLabels| <= MAX_PRIVATE_LABELS
    && AllNegative(u.privateLabels)
    && (forall i :: 0 <= i < |u.privateLabels| ==> |u.privateLabels[i].1| <= MAX_PRIVATE_LABEL_BYTES)
    && Ascending(EncodedPairs(PrivatePairs(u.privateLabels)))
  }

  // ------------------------------------------------------------ parsing retains

  lemma {:induction false} PrivateEntriesBounded(pairs: seq<(Value, Value)>, room: nat)
    ensures var r := PrivateEntries(pairs, room);
      && |r| <= room && AllNegative(r)
      && (forall i :: 0 <= i < |r| ==> |r[i].1| <= MAX_PRIVATE_LABEL_BYTES)
      && (forall i :: 0 <= i < |r| ==> PrivatePairs(r)[i] in pairs)
  {
    if pairs != [] {
      if !Keepable(pairs[0]) {
        PrivateEntriesBounded(pairs[1..], room);
      } else if room > 0 {
        PrivateEntriesBounded(pairs[1..], room - 1);
        var r, t := PrivateEntries(pairs, room), PrivateEntries(pairs[1..], room - 1);
        assert PrivatePairs(r)[0] == pairs[0];
        assert forall i :: 1 <= i < |r| ==> PrivatePairs(r)[i] == PrivatePairs(t)[i - 1];
      }
    }
  }

  lemma {:induction false} FirstBelow(pairs: seq<(Value, Value)>, p: (Value, Value))
    requires pairs != [] && Ascending(EncodedPairs(pairs)) && p in pairs[1..]
    ensures Less(Encode(pairs[0].0), Encode(p.0))
  {
    hide Encode, Less;
    var i :| 0 < i < |pairs| && pairs[i] == p;
    EncodedPairsAt(pairs, 0);
    EncodedPairsAt(pairs, i);
    AscendingBelow(EncodedPairs(pairs), i);
  }

  lemma {:induction false} TailAscends(pairs: seq<(Value, Value)>)
    requires pairs != [] && Ascending(EncodedPairs(pairs))
    ensures Ascending(EncodedPairs(pairs[1..]))
  {
    hide Encode, Less;
    assert EncodedPairs(pairs)[1..] == EncodedPairs(pairs[1..]);
  }

  lemma {:induction false} PrivateEntriesAscend(pairs: seq<(Value, Value)>, room: nat)
    requires Ascending(EncodedPairs(pairs))
    ensures Ascending(EncodedPairs(PrivatePairs(PrivateEntries(pairs, room))))
  {
    hide Encode, Less, Keepable;
    if pairs != [] {
      TailAscends(pairs);
      if !Keepable(pairs[0]) {
        PrivateEntriesAscend(pairs[1..], room);
      } else if room > 0 {
        PrivateEntriesAscend(pairs[1..], room - 1);
        KeptFirst(pairs, room);
      }
    }
  }

  lemma {:induction false} KeptFirst(pairs: seq<(Value, Value)>, room: nat)
    requires pairs != [] && Keepable(pairs[0]) && room > 0 && Ascending(EncodedPairs(pairs))
    requires Ascending(EncodedPairs(PrivatePairs(PrivateEntries(pairs[1..], room - 1))))
    ensures Ascending(EncodedPairs(PrivatePairs(PrivateEntries(pairs, room))))
  {
    hide Encode, Less, EncodedPairs, Ascending;
    var t := PrivateEntries(pairs[1..], room - 1);
    var tp := PrivatePairs(t);
    assert PrivatePairs(PrivateEntries(pairs, room)) == [pairs[0]] + tp;
    PrivateEntriesBounded(pairs[1..], room - 1);
    if tp != [] { FirstBelow(pairs, tp[0]); }
    PairsExtend(pairs[0], tp);
  }

  lemma {:induction false} HeaderValueMember(pairs: seq<(Value, Value)>, l: u64)
    ensures HeaderValue(pairs, l).Some? ==> (Uint(l), HeaderValue(pairs, l).value) in pairs
  {
    if pairs != [] { HeaderValueMember(pairs[1..], l); }
  }

  /** Every unprotected header parsed from a canonical map is retained in canonical form. */
  lemma {:induction false} ParsedIsRetained(pairs: seq<(Value, Value)>)
    requires Valid(Map(pairs)) && Ascending(EncodedPairs(pairs)) && ParseUnprotected(Map(pairs)).Ok?
    ensures Retained(ParseUnprotected(Map(pairs)).value)
  {
    hide Encode, EncodedPairs, Ascending, ChainOk, Keepable;
    PrivateEntriesBounded(pairs, MAX_PRIVATE_LABELS);
    PrivateEntriesAscend(pairs, MAX_PRIVATE_LABELS);
    HeaderValueMember(pairs, LABEL_KID);
    var kid := HeaderValue(pairs, LABEL_KID);
    if kid.Some? {
      var i :| 0 <= i < |pairs| && pairs[i] == (Uint(LABEL_KID), kid.value);
      assert Valid(pairs[i].1);
    }
  }

  // ------------------------------------------------------------ retained headers round-trip

  lemma {:induction false} RetainedAscends(u: UnprotectedHeader)
    requires Retained(u)
    ensures Ascending(EncodedPairs(UnprotectedPairs(u)))
  {
    hide Encode, EncodedPairs, Ascending, Less, ChainToValue, LabelValue;
    var priv := PrivatePairs(u.privateLabels);
    UnsignedBeforeNegative(-1);
    if u.privateLabels != [] {
      UnsignedBeforeNegative(u.privateLabels[0].0);
      assert priv[0].0 == LabelValue(u.privateLabels[0].0);
    }
    var mid := ChainPairs(u.x5chain) + priv;
    if u.x5chain.Some? { PairsExtend(ChainPairs(u.x5chain)[0], priv); } else { assert mid == priv; }
    assert mid != [] ==> Less(Encode(Uint(LABEL_KID)), Encode(mid[0].0));
    if u.kid.Some? { PairsExtend(KidPairs(u.kid)[0], mid); } else { assert UnprotectedPairs(u) == mid; }
  }

  lemma {:induction false} ChainValueNormal(c: X5Chain)
    requires ChainOk(c)
    ensures Valid(ChainToValue(c)) && IsNormal(ChainToValue(c)) && Height(ChainToValue(c)) <= 1
    ensures ChainFromValue(ChainToValue(c)) == Ok(c)
  {
    if c.Chain? {
      var items := ByteStrings(c.certificates);
      NormalArray(items);
      ItemHeightBound(items, 0);
      assert Bodies(items) == c.certificates;
    }
  }

  /** Content of an unprotected header map: plain labels over normal values. */
  predicate PlainPair(p: (Value, Value)) {
    && (p.0.Uint? || p.0.Nint?)
    && Valid(p.1) && IsNormal(p.1) && Height(p.1) <= 1
  }

  predicate Storable(u: UnprotectedHeader) {
    && (u.kid.Some? ==> |u.kid.value| < U64_LIMIT)
    && (u.x5chain.Some? ==> ChainOk(u.x5chain.value))
    && (forall i :: 0 <= i < |u.privateLabels| ==> |u.privateLabels[i].1| < U64_LIMIT)
  }

  lemma {:induction false} UnprotectedPairsPlain(u: UnprotectedHeader, i: nat)
    requires Storable(u) && i < |UnprotectedPairs(u)|
    ensures PlainPair(UnprotectedPairs(u)[i])
  {
    hide ChainToValue, ChainOk;
    if u.x5chain.Some? { ChainValueNormal(u.x5chain.value); }
    var p := UnprotectedPairs(u)[i];
    assert p in KidPairs(u.kid) || p in ChainPairs(u.x5chain) || p in PrivatePairs(u.privateLabels);
  }

  lemma {:induction false} PlainMap(pairs: seq<(Value, Value)>)
    requires |pairs| < U64_LIMIT && forall i :: 0 <= i < |pairs| ==> PlainPair(pairs[i])
    ensures Valid(Map(pairs)) && Height(Map(pairs)) <= 2
    ensures forall i :: 0 <= i < |pairs| ==> IsNormal(pairs[i].0) && IsNormal(pairs[i].1)
  {
    hide IsNormal;
    PairHeightBound(pairs, 1);
    forall i | 0 <= i < |pairs| ensures IsNormal(pairs[i].0) && IsNormal(pairs[i].1) { PlainKey(pairs[i].0); }
  }

  lemma PlainKey(k: Value)
    requires k.Uint? || k.Nint?
    ensures IsNormal(k)
  {
  }

  lemma {:induction false} HeaderValueConcat(a: seq<(Value, Value)>, b: seq<(Value, Value)>, l: u64)
    ensures HeaderValue(a + b, l) == if HeaderValue(a, l).Some? then HeaderValue(a, l) else HeaderValue(b, l)
  {
    if a == [] {
      assert a + b == b;
    } else {
      HeaderValueConcat(a[1..], b, l);
      assert (a + b)[1..] == a[1..] + b;
    }
  }

  lemma {:induction false} HeaderValueAbsent(pairs: seq<(Value, Value)>, l: u64)
    requires forall i :: 0 <= i < |pairs| ==> pairs[i].0 != Uint(l)
    ensures HeaderValue(pairs, l) == None
  {
    if pairs != [] { HeaderValueAbsent(pairs[1..], l); }
  }

  lemma {:induction false} SingleHeaderValues(u: UnprotectedHeader, l: u64)
    ensures HeaderValue(KidPairs(u.kid), l)
         == if u.kid.Some? && l == LABEL_KID then Some(ByteStr(u.kid.value)) else None
    ensures HeaderValue(ChainPairs(u.x5chain), l)
         == if u.x5chain.Some? && l == LABEL_X5CHAIN then Some(ChainToValue(u.x5chain.value)) else None
  {
    hide ChainToValue;
    assert u.kid.Some? ==> KidPairs(u.kid)[1..] == [];
    assert u.x5chain.Some? ==> ChainPairs(u.x5chain)[1..] == [];
  }

  /** Looking a label up in the emitted map finds what was put there. */
  lemma {:induction false} EmittedHeaderValues(u: UnprotectedHeader)
    requires AllNegative(u.privateLabels)
    ensures var ps := UnprotectedPairs(u);
      && HeaderValue(ps, LABEL_ALG) == None && HeaderValue(ps, LABEL_CRIT) == None
      && HeaderValue(ps, LABEL_KID) == (if u.kid.Some? then Some(ByteStr(u.kid.value)) else None)
      && HeaderValue(ps, LABEL_X5CHAIN) == (if u.x5chain.Some? then Some(ChainToValue(u.x5chain.value)) else None)
  {
    hide ChainToValue;
    var k, c, p := KidPairs(u.kid), ChainPairs(u.x5chain), PrivatePairs(u.privateLabels);
    forall l: u64 ensures HeaderValue(p, l) == None { HeaderValueAbsent(p, l); }
    forall l: u64
      ensures HeaderValue(UnprotectedPairs(u), l)
           == (if HeaderValue(k, l).Some? then HeaderValue(k, l) else HeaderValue(c, l))
    {
      HeaderValueConcat(k, c + p, l);
      HeaderValueConcat(c, p, l);
    }
    SingleHeaderValues(u, LABEL_ALG);
    SingleHeaderValues(u, LABEL_CRIT);
    SingleHeaderValues(u, LABEL_KID);
    SingleHeaderValues(u, LABEL_X5CHAIN);
  }

  lemma {:induction false} AscendingUniqueLabels(pairs: seq<(Value, Value)>)
    requires Ascending(EncodedPairs(pairs))
    ensures UniqueLabels(pairs)
  {
    hide Encode, Less;
    forall i, j | 0 <= i < j < |pairs| ensures pairs[i].0 != pairs[j].0 {
      AscendingAt(EncodedPairs(pairs), i, j);
      EncodedPairsAt(pairs, i);
      EncodedPairsAt(pairs, j);
    }
  }

  lemma {:induction false} PrivateEntriesSkip(a: seq<(Value, Value)>, b: seq<(Value, Value)>, room: nat)
    requires forall i :: 0 <= i < |a| ==> !Keepable(a[i])
    ensures PrivateEntries(a + b, room) == PrivateEntries(b, room)
  {
    hide Keepable;
    if a == [] {
      assert a + b == b;
    } else {
      PrivateEntriesSkip(a[1..], b, room);
      assert (a + b)[1..] == a[1..] + b;
    }
  }

  lemma {:induction false} PrivateEntriesBack(labels: seq<(i64, bytes)>, room: nat)
    requires |labels| <= room && AllNegative(labels)
    requires forall i :: 0 <= i < |labels| ==> |labels[i].1| <= MAX_PRIVATE_LABEL_BYTES
    ensures PrivateEntries(PrivatePairs(labels), room) == labels
  {
    if labels != [] {
      PrivateEntriesBack(labels[1..], room - 1);
      assert PrivatePairs(labels)[1..] == PrivatePairs(labels[1..]);
      assert PrivatePairs(labels)[0] == (LabelValue(labels[0].0), ByteStr(labels[0].1));
      assert IntegerLabel(LabelValue(labels[0].0)) == Ok(labels[0].0);
    }
  }

  /** A retained header is emitted as a normal map and parsed back unchanged. */
  lemma {:induction false} RetainedRoundTrip(u: UnprotectedHeader)
    requires Retained(u)
    ensures var v := Map(UnprotectedPairs(u));
      Valid(v) && IsNormal(v) && Height(v) <= 2 && ParseUnprotected(v) == Ok(u)
  {
    hide Encode, EncodedPairs, Ascending, ChainToValue, ChainOk, ChainFromValue, HeaderValue, PrivateEntries,
      PlainPair, IsNormal;
    var ps := UnprotectedPairs(u);
    RetainedAscends(u);
    forall i | 0 <= i < |ps| ensures PlainPair(ps[i]) { UnprotectedPairsPlain(u, i); }
    PlainMap(ps);
    NormalMap(ps);
    AscendingUniqueLabels(ps);
    EmittedHeaderValues(u);
    if u.x5chain.Some? { ChainValueNormal(u.x5chain.value); }
    RetainedPrivate(u);
  }

  lemma {:induction false} RetainedPrivate(u: UnprotectedHeader)
    requires Retained(u)
    ensures PrivateEntries(UnprotectedPairs(u), MAX_PRIVATE_LABELS) == u.privateLabels
  {
    hide Encode, EncodedPairs, Ascending, ChainToValue, ChainOk;
    var k, c, p := KidPairs(u.kid), ChainPairs(u.x5chain), PrivatePairs(u.privateLabels);
    PrivateEntriesSkip(k, c + p, MAX_PRIVATE_LABELS);
    PrivateEntriesSkip(c, p, MAX_PRIVATE_LABELS);
    PrivateEntriesBack(u.privateLabels, MAX_PRIVATE_LABELS);
  }

  // ------------------------------------------------------------ whole messages

  lemma {:induction false} MessageItems(m: CoseSign1)
    requires Retained(m.unprotected)
    requires |m.protected| < U64_LIMIT && |m.signature| < U64_LIMIT
    requires m.payload.Some? ==> |m.payload.value| < U64_LIMIT
    ensures Valid(ToValue(m)) && IsNormal(ToValue(m)) && Height(ToValue(m)) <= MAX_DEPTH
  {
    hide UnprotectedPairs, Retained, NormItems, MaxHeight, ParseUnprotected;
    RetainedRoundTrip(m.unprotected);
    var items := ToValue(m).items;
    NormalArray(items);
    ItemHeightBound(items, 2);
  }

  lemma {:induction false} WireParts(wire: bytes, v: Value)
    requires FromCanonical(wire) == Ok(v) && FromValue(v).Ok?
    ensures v.Array? && |v.items| == 4 && v.items[1].Map?
    ensures forall i :: 0 <= i < 4 ==> Valid(v.items[i])
    ensures Ascending(EncodedPairs(v.items[1].pairs))
  {
    hide FromCanonical, Encode, Norm, ParseProtected, Height;
    CanonicalBijection(wire, v);
    NormalArrayParts(v.items, 1);
    NormalMapAscends(v.items[1].pairs);
  }

  /** Any COSE_Sign1 parsed from wire bytes survives `to_value`, encode, decode and `from_value`
      unchanged, private labels and their order included. */
  lemma {:induction false} ParsedMessageSurvives(wire: bytes, v: Value)
    requires FromCanonical(wire) == Ok(v) && FromValue(v).Ok?
    ensures var m := FromValue(v).value;
      FromCanonical(Encode(ToValue(m))) == Ok(ToValue(m)) && FromValue(ToValue(m)) == Ok(m)
  {
    hide FromCanonical, Encode, ParseProtected, ParseUnprotected, Retained, EncodedPairs, Ascending, UnprotectedPairs,
      Height, Norm, HeadersCompatible;
    WireParts(wire, v);
    ParsedIsRetained(v.items[1].pairs);
    var m := FromValue(v).value;
    MessageItems(m);
    RetainedRoundTrip(m.unprotected);
    CanonicalBijection(Encode(ToValue(m)), ToValue(m));
  }

  /** The emitted algorithm header is the one `{1: alg}` the parser understands. */
  lemma {:induction false} ProtectedHeaderParses(alg: Alg)
    ensures ParseProtected(EncodeProtected(alg)) == Ok(ProtectedHeader(alg, None, None))
    ensures |EncodeProtected(alg)| < U64_LIMIT
  {
    var pairs := ProtectedPairs(alg);
    ProtectedBytes(alg);
    hide Encode, EncodedPairs, KeyedSort.Ascending, NormedPairs, FromCanonical;
    SmallKeysAscend(pairs);
    NormalMap(pairs);
    PairHeightBound(pairs, 0);
    CanonicalBijection(EncodeProtected(alg), Map(pairs));
    assert pairs[1..] == [];
    AbsentLabels(pairs);
  }

  lemma {:induction false} AbsentLabels(pairs: seq<(Value, Value)>)
    requires |pairs| == 1 && pairs[0].0 == Uint(LABEL_ALG)
    ensures HeaderValue(pairs, LABEL_ALG) == Some(pairs[0].1)
    ensures HeaderValue(pairs, LABEL_CRIT) == None && HeaderValue(pairs, LABEL_KID) == None
    ensures HeaderValue(pairs, LABEL_X5CHAIN) == None
  {
    assert pairs[1..] == [];
  }

  lemma {:induction false} ProtectedBytes(alg: Alg)
    ensures |EncodeProtected(alg)| < U64_LIMIT
  {
    var pairs := ProtectedPairs(alg);
    assert pairs[1..] == [];
    SmallKeysAscend(pairs);
    AscendingMap(pairs);
    EncodedPairsAt(pairs, 0);
    var es := EncodedPairs(pairs);
    assert es[1..] == [];
    assert Flatten(es) == es[0].0 + es[0].1 + Flatten(es[1..]);
  }

  // ------------------------------------------------------------ sign, send, verify

  /** Signing succeeds exactly when the signer does and the chain offered is within bounds. */
  lemma {:induction false} SignSucceedsIff(signer: Signer, alg: Alg, payload: bytes, aad: bytes, u: UnprotectedHeader)
    ensures Sign(signer, alg, payload, aad, u).Ok?
       <==> (u.x5chain.Some? ==> ChainOk(u.x5chain.value))
            && signer(alg, SigStructure(EncodeProtected(alg), aad, payload)).Some?
  {
    hide EncodeProtected, SigStructure, ParseProtected, ChainOk;
    ProtectedHeaderParses(alg);
  }

  /** Keyed by their own encodings, as the encoder sorts them. */
  ghost predicate SelfKeyed(s: seq<(bytes, (Value, Value))>) {
    forall i :: 0 <= i < |s| ==> s[i].0 == Encode(s[i].1.0) && (s[i].1.0.Uint? || s[i].1.0.Nint?)
  }

  lemma {:induction false} LookupIsHeaderValue(s: seq<(bytes, (Value, Value))>, l: u64)
    requires SelfKeyed(s)
    ensures HeaderValue(Payloads(s), l)
         == match Lookup(s, Encode(Uint(l))) case None => None case Some(p) => Some(p.1)
  {
    hide Encode;
    if s != [] {
      LookupIsHeaderValue(s[1..], l);
      assert Payloads(s)[1..] == Payloads(s[1..]);
      PlainKeyInjective(s[0].1.0, Uint(l));
    }
  }

  lemma {:induction false} PlainKeyInjective(k: Value, k': Value)
    requires (k.Uint? || k.Nint?) && (k'.Uint? || k'.Nint?)
    ensures Encode(k) == Encode(k') <==> k == k'
  {
    hide Encode;
    EncodeEqualIff(k, k');
  }

  lemma {:induction false} NormedPairsAt(pairs: seq<(Value, Value)>, i: nat)
    requires i < |pairs|
    ensures NormedPairs(pairs)[i] == (Encode(pairs[i].0), (Norm(pairs[i].0), Norm(pairs[i].1)))
  {
    hide Encode, Norm;
    if i > 0 { NormedPairsAt(pairs[1..], i - 1); }
  }

  /** Canonicalising a header map changes no header value. */
  lemma {:induction false} NormKeepsHeaderValue(pairs: seq<(Value, Value)>, l: u64)
    requires forall i :: 0 <= i < |pairs| ==> PlainPair(pairs[i])
    ensures HeaderValue(Norm(Map(pairs)).pairs, l) == HeaderValue(pairs, l)
  {
    hide Encode, HeaderValue, Lookup, Canonical, NormedPairs, Ascending, EncodedPairs;
    var ns := NormedPairs(pairs);
    forall i | 0 <= i < |pairs| ensures ns[i].0 == Encode(ns[i].1.0) && ns[i].1 == pairs[i] { NormedPairsAt(pairs, i); }
    assert Payloads(ns) == pairs;
    var c := Canonical(ns);
    forall i | 0 <= i < |c| ensures c[i].0 == Encode(c[i].1.0) && (c[i].1.0.Uint? || c[i].1.0.Nint?) {
      CanonicalMember(ns, c[i]);
    }
    LookupIsHeaderValue(ns, l);
    LookupIsHeaderValue(c, l);
    CanonicalCorrect(ns);
    assert Lookup(c, Encode(Uint(l))) == Lookup(ns, Encode(Uint(l)));
  }

  /** The unprotected map, canonicalised on the wire, still parses to the same identifiers. */
  lemma {:induction false} NormedHeaderParses(u: UnprotectedHeader)
    requires Storable(u) && AllNegative(u.privateLabels) && |UnprotectedPairs(u)| < U64_LIMIT
    ensures var v := Map(UnprotectedPairs(u));
      && Valid(v) && Height(Norm(v)) <= 2
      && ParseUnprotected(Norm(v)).Ok?
      && ParseUnprotected(Norm(v)).value.kid == u.kid && ParseUnprotected(Norm(v)).value.x5chain == u.x5chain
  {
    hide Encode, EncodedPairs, Ascending, ChainToValue, ChainOk, ChainFromValue, HeaderValue, PrivateEntries,
      PlainPair, UnprotectedPairs, Storable;
    var ps := UnprotectedPairs(u);
    forall i | 0 <= i < |ps| ensures PlainPair(ps[i]) { UnprotectedPairsPlain(u, i); }
    PlainMap(ps);
    NormedHeaderShape(ps);
    NormKeepsHeaderValue(ps, LABEL_ALG);
    NormKeepsHeaderValue(ps, LABEL_CRIT);
    NormKeepsHeaderValue(ps, LABEL_KID);
    NormKeepsHeaderValue(ps, LABEL_X5CHAIN);
    EmittedHeaderValues(u);
    StorableChain(u);
  }

  lemma {:induction false} StorableChain(u: UnprotectedHeader)
    requires Storable(u)
    ensures u.x5chain.Some? ==> ChainFromValue(ChainToValue(u.x5chain.value)) == Ok(u.x5chain.value)
  {
    hide ChainToValue, ChainFromValue, ChainOk;
    if u.x5chain.Some? { ChainValueNormal(u.x5chain.value); }
  }

  lemma {:induction false} NormedHeaderShape(ps: seq<(Value, Value)>)
    requires |ps| < U64_LIMIT && forall i :: 0 <= i < |ps| ==> PlainPair(ps[i])
    ensures var n := Norm(Map(ps)); n.Map? && UniqueLabels(n.pairs) && Height(n) <= 2
  {
    hide Encode, EncodedPairs, Ascending;
    PlainMap(ps);
    EncodeNorm(Map(ps));
    var n := Norm(Map(ps));
    NormalMapAscends(n.pairs);
    AscendingUniqueLabels(n.pairs);
    forall i | 0 <= i < |n.pairs| ensures PlainPair(n.pairs[i]) {
      NormMapSubset(ps, n.pairs[i]);
    }
    PairHeightBound(n.pairs, 1);
  }

  /** What a correct signer and verifier pair promises for one key. */
  ghost predicate CorrectPair(signer: Signer, verifier: Verifier, alg: Alg, key: bytes) {
    forall message, sig :: signer(alg, message) == Some(sig) ==> verifier(alg, key, message, sig)
  }

  lemma {:induction false} NormedMapFits(u: UnprotectedHeader)
    requires Storable(u) && |UnprotectedPairs(u)| < U64_LIMIT
    ensures var v := Map(UnprotectedPairs(u)); Valid(v) && Height(Norm(v)) <= 2
  {
    hide PlainPair, UnprotectedPairs, Storable, Height, Norm;
    var ps := UnprotectedPairs(u);
    forall i | 0 <= i < |ps| ensures PlainPair(ps[i]) { UnprotectedPairsPlain(u, i); }
    PlainMap(ps);
    NormedHeaderShape(ps);
  }

  lemma {:induction false} SignedItems(m: CoseSign1)
    requires Storable(m.unprotected)
    requires |UnprotectedPairs(m.unprotected)| < U64_LIMIT
    requires |m.protected| < U64_LIMIT && |m.signature| < U64_LIMIT && m.payload.Some? && |m.payload.value| < U64_LIMIT
    ensures Valid(ToValue(m)) && Height(Norm(ToValue(m))) <= MAX_DEPTH
    ensures Norm(ToValue(m)) == Array([ByteStr(m.protected), Norm(Map(UnprotectedPairs(m.unprotected))),
                                       ByteStr(m.payload.value), ByteStr(m.signature)])
  {
    hide UnprotectedPairs, Storable, MaxHeight;
    NormedMapFits(m.unprotected);
    var v := ToValue(m);
    NormItemsAt(v.items, 0);
    NormItemsAt(v.items, 1);
    NormItemsAt(v.items, 2);
    NormItemsAt(v.items, 3);
    hide NormItems;
    var items := Norm(v).items;
    assert items == [ByteStr(m.protected), Norm(Map(UnprotectedPairs(m.unprotected))),
                     ByteStr(m.payload.value), ByteStr(m.signature)];
    ItemHeightBound(items, 2);
  }

  /** Sign, encode, decode, parse, verify: for a correct signer every payload and external data
      verify on the other side, whatever negative private labels travel along. */
  lemma {:induction false} SignedMessageVerifies(signer: Signer, verifier: Verifier, alg: Alg, key: bytes,
                                                 payload: bytes, aad: bytes, u: UnprotectedHeader)
    requires CorrectPair(signer, verifier, alg, key)
    requires Sign(signer, alg, payload, aad, u).Ok?
    requires Storable(u) && AllNegative(u.privateLabels) && |UnprotectedPairs(u)| < U64_LIMIT
    requires |payload| < U64_LIMIT && |Sign(signer, alg, payload, aad, u).value.signature| < U64_LIMIT
    ensures var wire := Encode(ToValue(Sign(signer, alg, payload, aad, u).value));
      && FromCanonical(wire).Ok?
      && FromValue(FromCanonical(wire).value).Ok?
      && var received := FromValue(FromCanonical(wire).value).value;
      && received.unprotected.kid == u.kid && received.unprotected.x5chain == u.x5chain
      && Verify(received, verifier, alg, key, aad, None) == Ok(())
  {
    hide Encode, EncodeProtected, ParseProtected, ParseUnprotected, UnprotectedPairs, Storable, SigStructure, ChainOk,
      Norm, Height, FromCanonical, Valid;
    var m := Sign(signer, alg, payload, aad, u).value;
    ProtectedHeaderParses(alg);
    SignedItems(m);
    NormedHeaderParses(u);
    FromCanonicalOfEncode(ToValue(m));
    assert signer(alg, SigStructure(m.protected, aad, payload)) == Some(m.signature);
  }

  // ------------------------------------------------------------ private labels arrive sorted

  predicate DistinctLabels(labels: seq<(i64, bytes)>) {
    forall i, j :: 0 <= i < j < |labels| ==> labels[i].0 != labels[j].0
  }

  function KeyedLabels(labels: seq<(i64, bytes)>): (r: seq<(bytes, (i64, bytes))>)
    ensures |r| == |labels|
    ensures forall i :: 0 <= i < |labels| ==> r[i] == (Encode(LabelValue(labels[i].0)), labels[i])
  {
    seq(|labels|, i requires 0 <= i < |labels| => (Encode(LabelValue(labels[i].0)), labels[i]))
  }

  /** Private labels in the order canonical encoding gives them. */
  function SortedLabels(labels: seq<(i64, bytes)>): (r: seq<(i64, bytes)>) {
    Payloads(Canonical(KeyedLabels(labels)))
  }

  lemma {:induction false} LabelKeyInjective(a: i64, b: i64)
    ensures Encode(LabelValue(a)) == Encode(LabelValue(b)) <==> a == b
  {
    hide Encode;
    PlainKeyInjective(LabelValue(a), LabelValue(b));
  }

  lemma {:induction false} KeyedLabelsDistinct(labels: seq<(i64, bytes)>)
    requires DistinctLabels(labels)
    ensures DistinctKeys(KeyedLabels(labels))
  {
    hide Encode;
    var s := KeyedLabels(labels);
    forall i, j | 0 <= i < j < |s| ensures s[i].0 != s[j].0 { LabelKeyInjective(labels[i].0, labels[j].0); }
  }

  /** Sorting distinct labels loses none and invents none. */
  lemma {:induction false} SortedSameLabels(labels: seq<(i64, bytes)>)
    requires DistinctLabels(labels)
    ensures forall x :: x in SortedLabels(labels) <==> x in labels
    ensures |SortedLabels(labels)| <= |labels|
  {
    hide Encode, Canonical, Ascending;
    var s := KeyedLabels(labels);
    var c := Canonical(s);
    KeyedLabelsDistinct(labels);
    CanonicalCorrect(s);
    CanonicalLength(s);
    forall x | x in SortedLabels(labels) ensures x in labels {
      var i :| 0 <= i < |c| && c[i].1 == x;
      CanonicalMember(s, c[i]);
    }
    forall x | x in labels ensures x in SortedLabels(labels) {
      var i :| 0 <= i < |labels| && labels[i] == x;
      DistinctLookup(s, s[i]);
      LookupMember(c, s[i].0);
      assert Lookup(c, s[i].0) == Lookup(s, s[i].0);
      var j :| 0 <= j < |c| && c[j] == (s[i].0, x);
    }
  }

  lemma {:induction false} SortedLabelsAscend(labels: seq<(i64, bytes)>)
    ensures Ascending(EncodedPairs(PrivatePairs(SortedLabels(labels))))
  {
    hide Encode, Canonical, Less;
    var s := KeyedLabels(labels);
    var c := Canonical(s);
    CanonicalCorrect(s);
    forall i | 0 <= i < |c| ensures c[i].0 == Encode(LabelValue(c[i].1.0)) { CanonicalMember(s, c[i]); }
    var ps := PrivatePairs(SortedLabels(labels));
    forall i | 0 <= i < |ps| - 1 ensures Less(Encode(ps[i].0), Encode(ps[i + 1].0)) { AscendingAt(c, i, i + 1); }
    AdjacentAscending(ps);
  }

  function Canonicalised(u: UnprotectedHeader): (r: UnprotectedHeader) {
    u.(privateLabels := SortedLabels(u.privateLabels))
  }

  predicate Sendable(u: UnprotectedHeader) {
    && Storable(u) && AllNegative(u.privateLabels) && DistinctLabels(u.privateLabels)
    && |u.privateLabels| <= MAX_PRIVATE_LABELS
    && (forall x :: x in u.privateLabels ==> |x.1| <= MAX_PRIVATE_LABEL_BYTES)
  }

  lemma {:induction false} CanonicalisedRetained(u: UnprotectedHeader)
    requires Sendable(u)
    ensures Retained(Canonicalised(u))
  {
    hide Encode, EncodedPairs, Ascending, SortedLabels, ChainOk;
    SortedSameLabels(u.privateLabels);
    SortedLabelsAscend(u.privateLabels);
    var labels := SortedLabels(u.privateLabels);
    forall i | 0 <= i < |labels| ensures labels[i].0 < 0 && |labels[i].1| <= MAX_PRIVATE_LABEL_BYTES {
      assert labels[i] in u.privateLabels;
    }
  }

  lemma {:induction false} PrivatePairsMember(a: seq<(i64, bytes)>, b: seq<(i64, bytes)>)
    requires forall x :: x in a ==> x in b
    ensures forall p :: p in PrivatePairs(a) ==> p in PrivatePairs(b)
  {
    hide LabelValue;
    forall p | p in PrivatePairs(a) ensures p in PrivatePairs(b) {
      var i :| 0 <= i < |a| && PrivatePairs(a)[i] == p;
      assert a[i] in b;
      var j :| 0 <= j < |b| && b[j] == a[i];
      assert PrivatePairs(b)[j] == p;
    }
  }

  lemma {:induction false} EmittedUnique(u: UnprotectedHeader)
    requires AllNegative(u.privateLabels) && DistinctLabels(u.privateLabels)
    ensures UniqueLabels(UnprotectedPairs(u))
    ensures var ps := UnprotectedPairs(u); forall i :: 0 <= i < |ps| ==> ps[i].0.Uint? || ps[i].0.Nint?
  {
    hide ChainToValue;
    var c, p := ChainPairs(u.x5chain), PrivatePairs(u.privateLabels);
    assert UniqueLabels(p);
    assert forall i :: 0 <= i < |p| ==> p[i].0.Nint?;
    var mid := c + p;
    assert UniqueLabels(mid);
    assert forall i :: 0 <= i < |mid| ==> mid[i].0 != Uint(LABEL_KID);
  }

  lemma {:induction false} EmittedKeysDistinct(u: UnprotectedHeader)
    requires AllNegative(u.privateLabels) && DistinctLabels(u.privateLabels)
    ensures DistinctPairKeys(UnprotectedPairs(u))
  {
    hide Encode, EncodedPairs, UnprotectedPairs;
    EmittedUnique(u);
    var ps := UnprotectedPairs(u);
    forall i, j | 0 <= i < j < |ps| ensures EncodedPairs(ps)[i].0 != EncodedPairs(ps)[j].0 {
      EncodedPairsAt(ps, i);
      EncodedPairsAt(ps, j);
      PlainKeyInjective(ps[i].0, ps[j].0);
    }
  }

  lemma {:induction false} SameMapBytes(u: UnprotectedHeader)
    requires Sendable(u)
    ensures Encode(Map(UnprotectedPairs(u))) == Encode(Map(UnprotectedPairs(Canonicalised(u))))
  {
    hide Encode, EncodedPairs, SortedLabels, DistinctPairKeys, ChainOk, ChainToValue, LabelValue;
    var c := Canonicalised(u);
    SortedSameLabels(u.privateLabels);
    PrivatePairsMember(u.privateLabels, c.privateLabels);
    PrivatePairsMember(c.privateLabels, u.privateLabels);
    EmittedKeysDistinct(u);
    SortedDistinct(u);
    MapOrderIrrelevant(UnprotectedPairs(u), UnprotectedPairs(c));
  }

  lemma {:induction false} SortedDistinct(u: UnprotectedHeader)
    requires Sendable(u)
    ensures DistinctPairKeys(UnprotectedPairs(Canonicalised(u)))
  {
    hide Encode, EncodedPairs, Ascending, SortedLabels, UnprotectedPairs, Retained, Less;
    CanonicalisedRetained(u);
    RetainedAscends(Canonicalised(u));
    var es := EncodedPairs(UnprotectedPairs(Canonicalised(u)));
    forall i, j | 0 <= i < j < |es| ensures es[i].0 != es[j].0 { AscendingAt(es, i, j); }
  }

  lemma {:induction false} SameMessageBytes(m: CoseSign1)
    requires Sendable(m.unprotected)
    ensures Encode(ToValue(m)) == Encode(ToValue(m.(unprotected := Canonicalised(m.unprotected))))
  {
    SameMapBytes(m.unprotected);
    var a, b := ToValue(m).items, ToValue(m.(unprotected := Canonicalised(m.unprotected))).items;
    hide UnprotectedPairs, Sendable, Canonicalised;
    assert a[1..][1..] == b[1..][1..];
    assert a[1..][0] == a[1] && b[1..][0] == b[1];
    assert EncodeItems(a[1..]) == Encode(a[1]) + EncodeItems(a[1..][1..]);
    assert EncodeItems(b[1..]) == Encode(b[1]) + EncodeItems(b[1..][1..]);
    assert EncodeItems(a) == Encode(a[0]) + EncodeItems(a[1..]);
    assert EncodeItems(b) == Encode(b[0]) + EncodeItems(b[1..]);
  }

  /** With distinct negative labels within bounds the receiver gets the very message that was
      sent, its private labels in canonical order. */
  lemma {:induction false} DistinctLabelsArrive(m: CoseSign1)
    requires Sendable(m.unprotected) && ParseProtected(m.protected).Ok?
    requires HeadersCompatible(ParseProtected(m.protected).value, m.unprotected)
    requires |m.protected| < U64_LIMIT && |m.signature| < U64_LIMIT
    requires m.payload.Some? ==> |m.payload.value| < U64_LIMIT
    ensures var sorted := m.(unprotected := Canonicalised(m.unprotected));
      && FromCanonical(Encode(ToValue(m))) == Ok(ToValue(sorted))
      && FromValue(ToValue(sorted)) == Ok(sorted)
  {
    hide Encode, FromCanonical, ParseProtected, ParseUnprotected, Retained, UnprotectedPairs, Sendable, SortedLabels,
      ChainOk, Norm, Height, Valid;
    var sorted := m.(unprotected := Canonicalised(m.unprotected));
    CanonicalisedRetained(m.unprotected);
    MessageItems(sorted);
    RetainedRoundTrip(sorted.unprotected);
    SameMessageBytes(m);
    CanonicalBijection(Encode(ToValue(sorted)), ToValue(sorted));
  }
}
