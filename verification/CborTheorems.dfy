/** The encoder and the decoder of canonical CBOR are inverse to each other. */
module CborTheorems {
  import opened Bytes
  import opened Utf8
  import opened Cbor
  import opened KeyedSort

  // ------------------------------------------------------------ heads

  lemma {:induction false} ShortestFits(arg: nat)
    requires 24 <= arg < U64_LIMIT
    ensures 24 <= InfoOf(arg)
    ensures Shorter(InfoOf(arg)) < arg < Pow256(ArgWidth(InfoOf(arg)))
  {
    Pow256Values();
  }

  lemma {:induction false} ShortestUnique(arg: nat, info: nat)
    requires 24 <= info <= 27
    requires Shorter(info) < arg < Pow256(ArgWidth(info))
    ensures InfoOf(arg) == info
  {
    Pow256Values();
  }

  /** Every shortest-form head reads back, whatever follows it. */
  lemma {:induction false} HeadRoundTrip(m: major, arg: nat, tail: bytes)
    requires arg < U64_LIMIT
    ensures ReadHead(Head(m, arg) + tail) == Ok(HeadItem(m, arg, tail))
  {
    var info, w := InfoOf(arg), ArgWidth(InfoOf(arg));
    var s := Head(m, arg) + tail;
    assert s[0] == m * 32 + info;
    assert s[1..] == ToBe(arg, w) + tail;
    if arg > 23 {
      ShortestFits(arg);
      FromToBe(arg, w);
      assert s[1..][..w] == ToBe(arg, w);
      assert s[1..][w..] == tail;
    }
  }

  lemma {:induction false} ArgSound(m: major, info: nat, rest: bytes)
    requires 24 <= info <= 27 && ReadArg(m, info, rest).Ok?
    ensures var h := ReadArg(m, info, rest).value;
      h.m == m && InfoOf(h.arg) == info && rest == ToBe(h.arg, ArgWidth(info)) + h.rest
  {
    hide ToBe, FromBe, Pow256, InfoOf;
    var w := ArgWidth(info);
    ToFromBe(rest[..w]);
    ShortestUnique(FromBe(rest[..w]), info);
    assert rest == rest[..w] + rest[w..];
  }

  /** An accepted head is the shortest form of what it says. */
  lemma {:induction false} HeadSound(s: bytes)
    requires ReadHead(s).Ok?
    ensures var h := ReadHead(s).value; s == Head(h.m, h.arg) + h.rest
  {
    hide ReadArg, ToBe;
    var m: major, info := s[0] / 32, s[0] % 32;
    assert s == [m * 32 + info] + s[1..];
    if info > 23 {
      ArgSound(m, info, s[1..]);
    } else {
      assert ToBe(info, 0) == [];
    }
  }

  /** Past the head, decoding is a matter of the body. */
  lemma {:induction false} DecodeHead(m: major, arg: nat, tail: bytes, budget: int)
    requires arg < U64_LIMIT && m != 7 && budget >= 0
    ensures DecodeItem(Head(m, arg) + tail, budget) == DecodeBody(m, arg, tail, budget)
  {
    HeadRoundTrip(m, arg, tail);
    var s := Head(m, arg) + tail;
    assert s[0] == Head(m, arg)[0];
  }

  // ------------------------------------------------------------ soundness of the decoder

  /** What the decoder consumed is the canonical encoding of what it returned. */
  ghost predicate Consumed(s: bytes, v: Value, rest: bytes, budget: int) {
    s == Encode(v) + rest && Valid(v) && Height(v) <= budget
  }

  lemma {:induction false} DecodeSound(s: bytes, budget: int)
    requires DecodeItem(s, budget).Ok?
    ensures Consumed(s, DecodeItem(s, budget).value.0, DecodeItem(s, budget).value.1, budget)
    decreases |s|, 0
  {
    if s[0] / 32 == 7 {
      assert s == [s[0]] + s[1..];
    } else {
      HeadSound(s);
      var h := ReadHead(s).value;
      BodySound(h.m, h.arg, h.rest, budget);
      var x := DecodeItem(s, budget).value;
    }
  }

  lemma {:induction false} BodySound(m: major, arg: u64, rest: bytes, budget: int)
    requires budget >= 0 && m != 7
    requires DecodeBody(m, arg, rest, budget).Ok?
    ensures var x := DecodeBody(m, arg, rest, budget).value;
            Consumed(Head(m, arg) + rest, x.0, x.1, budget)
    decreases |rest|, 2
  {
    hide ReadHead, Head, Encode, Valid, Height, DecodeItem, Consumed, Ascending, DecodeItems, DecodePairs;
    if m <= 3 {
      LeafSound(m, arg, rest, budget);
    } else if m == 4 {
      ItemsSound(rest, arg, budget - 1);
      var x := DecodeItems(rest, arg, budget - 1).value;
      ArraySound(x.0, rest, x.1, budget);
    } else if m == 5 {
      PairsSound(rest, arg, None, budget - 1);
      var x := DecodePairs(rest, arg, None, budget - 1).value;
      MapSound(x.0, rest, x.1, budget);
    } else if m == 6 {
      DecodeSound(rest, budget - 1);
      var x := DecodeItem(rest, budget - 1).value;
      TagSound(arg, x.0, rest, x.1, budget);
    }
  }

  lemma {:induction false} LeafSound(m: major, arg: u64, rest: bytes, budget: int)
    requires budget >= 0 && m <= 3
    requires DecodeBody(m, arg, rest, budget).Ok?
    ensures var x := DecodeBody(m, arg, rest, budget).value;
            Consumed(Head(m, arg) + rest, x.0, x.1, budget)
  {
    hide Head;
    if m >= 2 { assert rest == rest[..arg] + rest[arg..]; }
  }

  lemma {:induction false} ArraySound(items: seq<Value>, rest: bytes, tail: bytes, budget: int)
    requires rest == EncodeItems(items) + tail
    requires |items| < U64_LIMIT && forall i :: 0 <= i < |items| ==> Valid(items[i])
    requires MaxHeight(items) <= budget - 1
    ensures Consumed(Head(4, |items|) + rest, Array(items), tail, budget)
  {
    assert Encode(Array(items)) == Head(4, |items|) + EncodeItems(items);
  }

  lemma {:induction false} TagSound(tag: u64, inner: Value, rest: bytes, tail: bytes, budget: int)
    requires Consumed(rest, inner, tail, budget - 1)
    ensures Consumed(Head(6, tag) + rest, Tag(tag, inner), tail, budget)
  {
    assert Encode(Tag(tag, inner)) == Head(6, tag) + Encode(inner);
  }

  /** A map whose encoded keys ascend is written in the order given. */
  lemma {:induction false} AscendingMap(pairs: seq<(Value, Value)>)
    requires Ascending(EncodedPairs(pairs))
    ensures Encode(Map(pairs)) == Head(5, |pairs|) + Flatten(EncodedPairs(pairs))
  {
    CanonicalFixed(EncodedPairs(pairs));
  }

  lemma {:induction false} MapSound(pairs: seq<(Value, Value)>, rest: bytes, tail: bytes, budget: int)
    requires rest == Flatten(EncodedPairs(pairs)) + tail
    requires |pairs| < U64_LIMIT && forall i :: 0 <= i < |pairs| ==> Valid(pairs[i].0) && Valid(pairs[i].1)
    requires Ascending(EncodedPairs(pairs))
    requires MaxPairHeight(pairs) <= budget - 1
    ensures Consumed(Head(5, |pairs|) + rest, Map(pairs), tail, budget)
  {
    AscendingMap(pairs);
  }

  lemma {:induction false} ItemsSound(s: bytes, count: nat, budget: int)
    requires budget >= -1 && DecodeItems(s, count, budget).Ok?
    ensures var x := DecodeItems(s, count, budget).value;
            && s == EncodeItems(x.0) + x.1
            && (forall i :: 0 <= i < |x.0| ==> Valid(x.0[i]))
            && MaxHeight(x.0) <= budget
    decreases |s|, 1
  {
    hide ReadHead, Head, Encode, Valid, Height, DecodeItem;
    if count > 0 {
      DecodeSound(s, budget);
      ItemsSound(DecodeItem(s, budget).value.1, count - 1, budget);
    }
  }

  /** The pairs read, in the order read, with the key order the decoder enforced. */
  ghost predicate PairsConsumed(s: bytes, ps: seq<(Value, Value)>, rest: bytes, prev: Option<bytes>, budget: int) {
    && s == Flatten(EncodedPairs(ps)) + rest
    && (forall i :: 0 <= i < |ps| ==> Valid(ps[i].0) && Valid(ps[i].1))
    && Ascending(EncodedPairs(ps))
    && (prev.Some? && ps != [] ==> Less(prev.value, Encode(ps[0].0)))
    && MaxPairHeight(ps) <= budget
  }

  lemma {:induction false} PairsSound(s: bytes, count: nat, prev: Option<bytes>, budget: int)
    requires budget >= -1 && DecodePairs(s, count, prev, budget).Ok?
    ensures var x := DecodePairs(s, count, prev, budget).value;
            PairsConsumed(s, x.0, x.1, prev, budget)
    decreases |s|, 1
  {
    hide ReadHead, Head, Encode, Valid, Height, DecodeItem, Consumed, Less;
    if count > 0 {
      DecodeSound(s, budget);
      var k := DecodeItem(s, budget).value;
      DecodeSound(k.1, budget);
      var v := DecodeItem(k.1, budget).value;
      var key := Encode(k.0);
      PairsSound(v.1, count - 1, Some(key), budget);
      if prev.Some? { LessTotal(prev.value, key); }
      var ps := DecodePairs(v.1, count - 1, Some(key), budget).value;
      PairsStep(s, k, v, ps.0, ps.1, prev, budget);
    }
  }

  lemma {:induction false} PairsStep(s: bytes, k: (Value, bytes), v: (Value, bytes),
                                     ps: seq<(Value, Value)>, rest: bytes,
                  prev: Option<bytes>, budget: int)
    requires Consumed(s, k.0, k.1, budget) && Consumed(k.1, v.0, v.1, budget)
    requires PairsConsumed(v.1, ps, rest, Some(Encode(k.0)), budget)
    requires prev.Some? ==> Less(prev.value, Encode(k.0))
    ensures PairsConsumed(s, [(k.0, v.0)] + ps, rest, prev, budget)
  {
    hide Head, Encode, Valid, Height, Flatten, EncodedPairs, Less, Ascending, MaxPairHeight;
    var p := (k.0, v.0);
    PairsExtend(p, ps);
    var a, b, c := Encode(k.0), Encode(v.0), Flatten(EncodedPairs(ps));
    assert a + (b + (c + rest)) == (a + b + c) + rest;
  }

  lemma {:induction false} PairsExtend(p: (Value, Value), ps: seq<(Value, Value)>)
    ensures EncodedPairs([p] + ps) == [(Encode(p.0), Encode(p.1))] + EncodedPairs(ps)
    ensures Flatten(EncodedPairs([p] + ps)) == Encode(p.0) + Encode(p.1) + Flatten(EncodedPairs(ps))
    ensures MaxPairHeight([p] + ps) == Max(Max(Height(p.0), Height(p.1)), MaxPairHeight(ps))
    ensures ps != [] ==> EncodedPairs(ps)[0].0 == Encode(ps[0].0)
    ensures Ascending(EncodedPairs(ps)) && (ps != [] ==> Less(Encode(p.0), Encode(ps[0].0)))
        ==> Ascending(EncodedPairs([p] + ps))
  {
    var all := [p] + ps;
    assert all[1..] == ps;
    var es := EncodedPairs(all);
    assert es == [(Encode(p.0), Encode(p.1))] + EncodedPairs(ps);
    assert es[1..] == EncodedPairs(ps);
  }

  // ------------------------------------------------------------ completeness of the decoder

  /** Decoding the encoding of `v` gives its normal form, or fails for depth alone. */
  function Outcome(nv: Value, budget: int, tail: bytes): (r: Result<(Value, bytes), CborError>) {
    if Height(nv) <= budget then Ok((nv, tail)) else Err(TooDeep)
  }

  ghost predicate ReadsAs(enc: bytes, nv: Value, budget: int) {
    forall t: bytes :: DecodeItem(enc + t, budget) == Outcome(nv, budget, t)
  }

  lemma {:induction false} LeafRoundTrip(v: Value, budget: int, tail: bytes)
    requires Valid(v) && !v.Array? && !v.Map? && !v.Tag? && budget >= 0
    ensures DecodeItem(Encode(v) + tail, budget) == Ok((v, tail))
  {
    match v
    case Uint(n) => DecodeHead(0, n, tail, budget);
    case Nint(n) => DecodeHead(1, n, tail, budget);
    case ByteStr(b) =>
      assert Encode(v) + tail == Head(2, |b|) + (b + tail);
      DecodeHead(2, |b|, b + tail, budget);
      assert (b + tail)[..|b|] == b && (b + tail)[|b|..] == tail;
    case Text(t) =>
      assert Encode(v) + tail == Head(3, |t|) + (t + tail);
      DecodeHead(3, |t|, t + tail, budget);
      assert (t + tail)[..|t|] == t && (t + tail)[|t|..] == tail;
    case Bool(_) => assert (Encode(v) + tail)[1..] == tail;
    case Null => assert (Encode(v) + tail)[1..] == tail;
  }

  /** The central law: every valid value, followed by anything, decodes to its normal form
      and leaves exactly what followed; past the depth limit the only error is `TooDeep`. */
  lemma {:induction false} RoundTrip(v: Value, budget: int, tail: bytes)
    requires Valid(v)
    ensures DecodeItem(Encode(v) + tail, budget) == Outcome(Norm(v), budget, tail)
    decreases v, 1
  {
    hide ReadHead, Head, Encode, DecodeBody;
    if budget >= 0 {
      match v
      case Array(items) =>
        ItemsRoundTrip(items, budget - 1, tail);
        ArrayStep(items, budget, tail);
      case Map(pairs) =>
        PairsReadAsNorm(pairs, budget - 1);
        MapRoundTrip(pairs, budget, tail);
      case Tag(t, inner) =>
        RoundTrip(inner, budget - 1, tail);
        TagStep(t, inner, budget, tail);
      case _ => LeafRoundTrip(v, budget, tail);
    }
  }

  lemma {:induction false} ReadsAsNorm(v: Value, budget: int)
    requires Valid(v)
    ensures ReadsAs(Encode(v), Norm(v), budget)
    decreases v, 2
  {
    forall t: bytes ensures DecodeItem(Encode(v) + t, budget) == Outcome(Norm(v), budget, t) {
      RoundTrip(v, budget, t);
    }
  }

  lemma {:induction false} PairsReadAsNorm(pairs: seq<(Value, Value)>, budget: int)
    requires forall i :: 0 <= i < |pairs| ==> Valid(pairs[i].0) && Valid(pairs[i].1)
    ensures forall p :: p in pairs ==> PairReads(p, budget)
    decreases pairs, 0
  {
    forall p | p in pairs ensures PairReads(p, budget) {
      assert p.0 < p && p.1 < p;
      ReadsAsNorm(p.0, budget);
      ReadsAsNorm(p.1, budget);
    }
  }

  function ItemsOutcome(items: seq<Value>, budget: int, tail: bytes): (r: Result<(seq<Value>, bytes), CborError>) {
    if MaxHeight(items) <= budget then Ok((items, tail)) else Err(TooDeep)
  }

  lemma {:induction false} ArrayStep(items: seq<Value>, budget: int, tail: bytes)
    requires budget >= 0 && |items| < U64_LIMIT
    requires DecodeItems(EncodeItems(items) + tail, |items|, budget - 1)
          == ItemsOutcome(NormItems(items), budget - 1, tail)
    ensures DecodeItem(Encode(Array(items)) + tail, budget) == Outcome(Norm(Array(items)), budget, tail)
  {
    hide ReadHead, Head, Valid, EncodeItems, NormItems;
    var body := EncodeItems(items) + tail;
    assert Encode(Array(items)) + tail == Head(4, |items|) + body;
    assert Norm(Array(items)) == Array(NormItems(items));
    DecodeHead(4, |items|, body, budget);
  }

  lemma {:induction false} TagStep(t: u64, inner: Value, budget: int, tail: bytes)
    requires budget >= 0
    requires DecodeItem(Encode(inner) + tail, budget - 1) == Outcome(Norm(inner), budget - 1, tail)
    ensures DecodeItem(Encode(Tag(t, inner)) + tail, budget) == Outcome(Norm(Tag(t, inner)), budget, tail)
  {
    hide ReadHead, Head, Valid;
    var body := Encode(inner) + tail;
    assert Encode(Tag(t, inner)) + tail == Head(6, t) + body;
    assert Norm(Tag(t, inner)) == Tag(t, Norm(inner));
    DecodeHead(6, t, body, budget);
  }

  lemma {:induction false} ItemsRoundTrip(items: seq<Value>, budget: int, tail: bytes)
    requires budget >= -1 && forall i :: 0 <= i < |items| ==> Valid(items[i])
    ensures DecodeItems(EncodeItems(items) + tail, |items|, budget) == ItemsOutcome(NormItems(items), budget, tail)
    decreases items, 0
  {
    hide ReadHead, Head, Encode, DecodeItem, Norm, Height, Valid;
    if items == [] {
      assert EncodeItems(items) + tail == tail;
    } else {
      var rest := EncodeItems(items[1..]) + tail;
      RoundTrip(items[0], budget, rest);
      assert EncodeItems(items) + tail == Encode(items[0]) + rest;
      ItemsRoundTrip(items[1..], budget, tail);
      assert NormItems(items)[1..] == NormItems(items[1..]);
    }
  }

  // Map pairs with everything known about them: encoded key, encoded value, both normal forms.

  type Known = (bytes, (bytes, Value, Value))

  ghost predicate PairReads(p: (Value, Value), budget: int) {
    ReadsAs(Encode(p.0), Norm(p.0), budget) && ReadsAs(Encode(p.1), Norm(p.1), budget)
  }

  ghost predicate EntryReads(e: Known, budget: int) {
    ReadsAs(e.0, e.1.1, budget) && ReadsAs(e.1.0, e.1.2, budget)
  }

  function KnownPairs(pairs: seq<(Value, Value)>): (r: seq<Known>)
    ensures |r| == |pairs|
  {
    if pairs == [] then []
    else [(Encode(pairs[0].0), (Encode(pairs[0].1), Norm(pairs[0].0), Norm(pairs[0].1)))] + KnownPairs(pairs[1..])
  }

  function KnownEncoding(e: (bytes, Value, Value)): (b: bytes) { e.0 }

  function KnownNormal(e: (bytes, Value, Value)): (p: (Value, Value)) { (e.1, e.2) }

  lemma {:induction false} KnownProjections(pairs: seq<(Value, Value)>)
    ensures EncodedPairs(pairs) == MapPayload(KnownEncoding, KnownPairs(pairs))
    ensures NormedPairs(pairs) == MapPayload(KnownNormal, KnownPairs(pairs))
  {
    if pairs != [] {
      KnownProjections(pairs[1..]);
      var known := KnownPairs(pairs);
      assert known[1..] == KnownPairs(pairs[1..]);
      MapPayloadStep(KnownEncoding, known);
      MapPayloadStep(KnownNormal, known);
    }
  }

  lemma {:induction false} KnownRead(pairs: seq<(Value, Value)>, e: Known, budget: int)
    requires forall p :: p in pairs ==> PairReads(p, budget)
    requires e in KnownPairs(pairs)
    ensures EntryReads(e, budget)
  {
    if e in KnownPairs(pairs[1..]) {
      KnownRead(pairs[1..], e, budget);
    } else {
      assert pairs[0] in pairs;
    }
  }

  /** Encoding and normalising a map sort the same way. */
  lemma {:induction false} MapProjections(pairs: seq<(Value, Value)>)
    ensures Encode(Map(pairs)) == EncodeEntries(MapPayload(KnownEncoding, Canonical(KnownPairs(pairs))))
    ensures Norm(Map(pairs)) == Map(Payloads(MapPayload(KnownNormal, Canonical(KnownPairs(pairs)))))
    ensures |Canonical(KnownPairs(pairs))| <= |pairs|
  {
    KnownProjections(pairs);
    CanonicalNatural(KnownEncoding, KnownPairs(pairs));
    CanonicalNatural(KnownNormal, KnownPairs(pairs));
    CanonicalLength(KnownPairs(pairs));
  }

  lemma {:induction false} MapRoundTrip(pairs: seq<(Value, Value)>, budget: int, tail: bytes)
    requires |pairs| < U64_LIMIT && budget >= 0
    requires forall p :: p in pairs ==> PairReads(p, budget - 1)
    ensures DecodeItem(Encode(Map(pairs)) + tail, budget) == Outcome(Norm(Map(pairs)), budget, tail)
  {
    hide ReadHead, Head, Encode, DecodeItem, Norm, Less, Height;
    var known := Canonical(KnownPairs(pairs));
    MapProjections(pairs);
    CanonicalCorrect(KnownPairs(pairs));
    forall e | e in known ensures EntryReads(e, budget - 1) {
      CanonicalMember(KnownPairs(pairs), e);
      KnownRead(pairs, e, budget - 1);
    }
    KnownMapRoundTrip(known, budget, tail);
  }

  lemma {:induction false} KnownMapRoundTrip(known: seq<Known>, budget: int, tail: bytes)
    requires |known| < U64_LIMIT && budget >= 0 && Ascending(known)
    requires forall e :: e in known ==> EntryReads(e, budget - 1)
    ensures DecodeItem(EncodeEntries(MapPayload(KnownEncoding, known)) + tail, budget)
         == Outcome(Map(Payloads(MapPayload(KnownNormal, known))), budget, tail)
  {
    hide ReadHead, Head, DecodePairs, Flatten, MaxPairHeight;
    EntriesRoundTrip(known, None, budget - 1, tail);
    var flat := Flatten(MapPayload(KnownEncoding, known));
    DecodeHead(5, |known|, flat + tail, budget);
    assert EncodeEntries(MapPayload(KnownEncoding, known)) + tail == Head(5, |known|) + (flat + tail);
  }

  function PairsOutcome(ps: seq<(Value, Value)>, budget: int, tail: bytes)
    : (r: Result<(seq<(Value, Value)>, bytes), CborError>)
  {
    if MaxPairHeight(ps) <= budget then Ok((ps, tail)) else Err(TooDeep)
  }

  lemma {:induction false} EntriesRoundTrip(known: seq<Known>, prev: Option<bytes>, budget: int, tail: bytes)
    requires budget >= -1 && Ascending(known)
    requires forall e :: e in known ==> EntryReads(e, budget)
    requires prev.Some? && known != [] ==> Less(prev.value, known[0].0)
    ensures DecodePairs(Flatten(MapPayload(KnownEncoding, known)) + tail, |known|, prev, budget)
         == PairsOutcome(Payloads(MapPayload(KnownNormal, known)), budget, tail)
    decreases |known|
  {
    hide ReadHead, Head, Encode, DecodeItem, Less, Valid, MapPayload, Payloads;
    if known == [] {
      assert Flatten(MapPayload(KnownEncoding, known)) + tail == tail;
    } else {
      var e, more := known[0], known[1..];
      var rest := Flatten(MapPayload(KnownEncoding, more)) + tail;
      EntriesRoundTrip(more, Some(e.0), budget, tail);
      EntryStep(e, prev, budget, rest);
      EntryUnfold(e, prev, budget, rest, |more|, Payloads(MapPayload(KnownNormal, more)), tail);
      KnownStep(known, tail);
    }
  }

  lemma {:induction false} KnownStep(known: seq<Known>, tail: bytes)
    requires known != []
    ensures var e, more := known[0], known[1..];
      && Payloads(MapPayload(KnownNormal, known)) == [(e.1.1, e.1.2)] + Payloads(MapPayload(KnownNormal, more))
      && Flatten(MapPayload(KnownEncoding, known)) + tail
         == e.0 + (e.1.0 + (Flatten(MapPayload(KnownEncoding, more)) + tail))
  {
    hide Flatten, Payloads, MapPayload;
    var e, more := known[0], known[1..];
    MapPayloadStep(KnownEncoding, known);
    MapPayloadStep(KnownNormal, known);
    PayloadsStep((e.0, (e.1.1, e.1.2)), MapPayload(KnownNormal, more));
    FlattenStep((e.0, e.1.0), MapPayload(KnownEncoding, more));
    Assoc3(e.0, e.1.0, Flatten(MapPayload(KnownEncoding, more)), tail);
  }

  lemma PayloadsStep<T>(e: (bytes, T), more: seq<(bytes, T)>)
    ensures Payloads([e] + more) == [e.1] + Payloads(more)
  {
  }

  lemma {:induction false} FlattenStep(e: (bytes, bytes), more: seq<(bytes, bytes)>)
    ensures Flatten([e] + more) == e.0 + (e.1 + Flatten(more))
  {
    assert ([e] + more)[1..] == more;
  }

  lemma {:induction false} PairHeightStep(p: (Value, Value), ps: seq<(Value, Value)>)
    ensures MaxPairHeight([p] + ps) == Max(Max(Height(p.0), Height(p.1)), MaxPairHeight(ps))
  {
    assert ([p] + ps)[1..] == ps;
  }

  lemma {:induction false} EntryUnfold(e: Known, prev: Option<bytes>, budget: int, rest: bytes,
                                       count: nat, others: seq<(Value, Value)>, tail: bytes)
    requires DecodeItem(e.0 + (e.1.0 + rest), budget) == Outcome(e.1.1, budget, e.1.0 + rest)
    requires DecodeItem(e.1.0 + rest, budget) == Outcome(e.1.2, budget, rest)
    requires Height(e.1.1) <= budget ==> Encode(e.1.1) == e.0
    requires KeyOrder(prev, e.0) == None
    requires DecodePairs(rest, count, Some(e.0), budget) == PairsOutcome(others, budget, tail)
    ensures DecodePairs(e.0 + (e.1.0 + rest), count + 1, prev, budget)
         == PairsOutcome([(e.1.1, e.1.2)] + others, budget, tail)
  {
    hide Encode, DecodeItem, Less, KeyOrder, Height;
    PairHeightStep((e.1.1, e.1.2), others);
  }

  /** One well-encoded pair, in order, is read and consumed. */
  lemma {:induction false} EntryStep(e: Known, prev: Option<bytes>, budget: int, rest: bytes)
    requires EntryReads(e, budget)
    requires prev.Some? ==> Less(prev.value, e.0)
    ensures DecodeItem(e.0 + (e.1.0 + rest), budget) == Outcome(e.1.1, budget, e.1.0 + rest)
    ensures DecodeItem(e.1.0 + rest, budget) == Outcome(e.1.2, budget, rest)
    ensures Height(e.1.1) <= budget ==> Encode(e.1.1) == e.0
    ensures KeyOrder(prev, e.0) == None
  {
    hide Encode, DecodeItem;
    var s := e.0 + (e.1.0 + rest);
    if Height(e.1.1) <= budget {
      DecodeSound(s, budget);
      CutEqual(e.0, e.1.0 + rest, Encode(e.1.1), e.1.0 + rest);
    }
    if prev.Some? {
      LessIrreflexive(e.0);
      if Less(e.0, prev.value) { LessTransitive(e.0, prev.value, e.0); }
    }
  }

  // ------------------------------------------------------------ the laws

  /** Two encodings agree up to what follows them only if they encode the same normal form:
      the encoding is prefix-free at every depth. */
  lemma PrefixFree(v: Value, s: bytes, w: Value, t: bytes)
    requires Valid(v) && Valid(w)
    requires Encode(v) + s == Encode(w) + t
    ensures Norm(v) == Norm(w) && s == t
  {
    var budget := Max(Height(Norm(v)), Height(Norm(w)));
    RoundTrip(v, budget, s);
    RoundTrip(w, budget, t);
  }

  /** What the decoder returns is already normal. */
  lemma DecodedIsNormal(s: bytes, budget: int)
    requires DecodeItem(s, budget).Ok?
    ensures var x := DecodeItem(s, budget).value;
            Consumed(s, x.0, x.1, budget) && Norm(x.0) == x.0
  {
    var x := DecodeItem(s, budget).value;
    DecodeSound(s, budget);
    RoundTrip(x.0, budget, x.1);
  }

  /** Normalising changes nothing the encoder writes, and is a projection onto valid values. */
  lemma EncodeNorm(v: Value)
    requires Valid(v)
    ensures Encode(Norm(v)) == Encode(v)
    ensures Valid(Norm(v)) && Norm(Norm(v)) == Norm(v)
  {
    var s, budget := Encode(v), Height(Norm(v));
    RoundTrip(v, budget, []);
    assert s + [] == s;
    DecodedIsNormal(s, budget);
    assert Encode(Norm(v)) + [] == Encode(Norm(v));
  }

  /** Encodings decide equality of normal forms. */
  lemma EncodeEqualIff(v: Value, w: Value)
    requires Valid(v) && Valid(w)
    ensures Encode(v) == Encode(w) <==> Norm(v) == Norm(w)
  {
    if Encode(v) == Encode(w) { PrefixFree(v, [], w, []); }
    EncodeNorm(v);
    EncodeNorm(w);
  }

  /** Accepted byte strings and normal values within the depth limit are in bijection:
      decoding accepts `s` as `v` exactly when `s` is the encoding of the normal value `v`. */
  lemma CanonicalBijection(s: bytes, v: Value)
    ensures FromCanonical(s) == Ok(v)
       <==> s == Encode(v) && Valid(v) && Norm(v) == v && Height(v) <= 64
  {
    if FromCanonical(s) == Ok(v) {
      DecodedIsNormal(s, MAX_DEPTH);
      assert Encode(v) + [] == Encode(v);
    }
    if s == Encode(v) && Valid(v) && Norm(v) == v && Height(v) <= MAX_DEPTH {
      RoundTrip(v, MAX_DEPTH, []);
      assert s + [] == s;
    }
  }

  /** Encoding then decoding at the top level: the normal form, or `TooDeep`, nothing else. */
  lemma FromCanonicalOfEncode(v: Value)
    requires Valid(v)
    ensures FromCanonical(Encode(v)) == if Height(Norm(v)) <= MAX_DEPTH then Ok(Norm(v)) else Err(TooDeep)
  {
    RoundTrip(v, MAX_DEPTH, []);
    assert Encode(v) + [] == Encode(v);
  }

  predicate DistinctPairKeys(pairs: seq<(Value, Value)>) {
    DistinctKeys(EncodedPairs(pairs))
  }

  lemma {:induction false} EncodedPairsAt(pairs: seq<(Value, Value)>, i: nat)
    requires i < |pairs|
    ensures EncodedPairs(pairs)[i] == (Encode(pairs[i].0), Encode(pairs[i].1))
  {
    if i > 0 { EncodedPairsAt(pairs[1..], i - 1); }
  }

  lemma {:induction false} EncodedPairsSubset(ps: seq<(Value, Value)>, qs: seq<(Value, Value)>)
    requires forall p :: p in ps ==> p in qs
    ensures forall e :: e in EncodedPairs(ps) ==> e in EncodedPairs(qs)
  {
    forall e | e in EncodedPairs(ps) ensures e in EncodedPairs(qs) {
      var i :| 0 <= i < |ps| && EncodedPairs(ps)[i] == e;
      EncodedPairsAt(ps, i);
      assert ps[i] in qs;
      var j :| 0 <= j < |qs| && qs[j] == ps[i];
      EncodedPairsAt(qs, j);
    }
  }

  /** With distinct keys, the order in which a map is built does not reach the wire. */
  lemma MapOrderIrrelevant(ps: seq<(Value, Value)>, qs: seq<(Value, Value)>)
    requires DistinctPairKeys(ps) && DistinctPairKeys(qs)
    requires forall p :: p in ps <==> p in qs
    ensures Encode(Map(ps)) == Encode(Map(qs))
  {
    EncodedPairsSubset(ps, qs);
    EncodedPairsSubset(qs, ps);
    CanonicalIgnoresOrder(EncodedPairs(ps), EncodedPairs(qs));
  }

  // ------------------------------------------------------------ values that are already normal

  predicate IsNormal(v: Value) { Norm(v) == v }

  lemma {:induction false} NormalItems(items: seq<Value>)
    requires forall i :: 0 <= i < |items| ==> IsNormal(items[i])
    ensures NormItems(items) == items
  {
    if items != [] { NormalItems(items[1..]); }
  }

  lemma {:induction false} NormalArray(items: seq<Value>)
    requires forall i :: 0 <= i < |items| ==> IsNormal(items[i])
    ensures IsNormal(Array(items))
  {
    NormalItems(items);
  }

  lemma {:induction false} NormalPairs(pairs: seq<(Value, Value)>)
    requires forall i :: 0 <= i < |pairs| ==> IsNormal(pairs[i].0) && IsNormal(pairs[i].1)
    ensures Payloads(NormedPairs(pairs)) == pairs
    ensures Ascending(EncodedPairs(pairs)) ==> Ascending(NormedPairs(pairs))
  {
    hide Less, Norm, Encode;
    if pairs != [] {
      NormalPairs(pairs[1..]);
      var ns, es := NormedPairs(pairs), EncodedPairs(pairs);
      assert ns[1..] == NormedPairs(pairs[1..]);
      assert es[1..] == EncodedPairs(pairs[1..]);
      assert Payloads(ns) == [pairs[0]] + Payloads(ns[1..]);
    }
  }

  lemma {:induction false} AdjacentAscending(pairs: seq<(Value, Value)>)
    requires forall i :: 0 <= i < |pairs| - 1 ==> Less(Encode(pairs[i].0), Encode(pairs[i + 1].0))
    ensures Ascending(EncodedPairs(pairs))
  {
    hide Less, Encode;
    if |pairs| > 1 {
      AdjacentAscending(pairs[1..]);
      var es := EncodedPairs(pairs);
      assert es[1..] == EncodedPairs(pairs[1..]);
      EncodedPairsAt(pairs, 0);
      EncodedPairsAt(pairs, 1);
      assert Less(Encode(pairs[0].0), Encode(pairs[0 + 1].0));
    }
  }

  lemma SmallUint(n: u64)
    requires n <= 23
    ensures Encode(Uint(n)) == [n]
  {
    assert ToBe(n, 0) == [];
  }

  /** Small integer labels in increasing order are keys in canonical order. */
  lemma {:induction false} SmallKeysAscend(pairs: seq<(Value, Value)>)
    requires forall i :: 0 <= i < |pairs| ==> pairs[i].0.Uint? && pairs[i].0.n <= 23
    requires forall i, j :: 0 <= i < j < |pairs| ==> pairs[i].0.n < pairs[j].0.n
    ensures Ascending(EncodedPairs(pairs))
  {
    hide Encode, EncodedPairs, Ascending;
    forall i | 0 <= i < |pairs| - 1 ensures Less(Encode(pairs[i].0), Encode(pairs[i + 1].0)) {
      SmallUint(pairs[i].0.n);
      SmallUint(pairs[i + 1].0.n);
    }
    AdjacentAscending(pairs);
  }

  /** A map written with ascending keys and normal content is normal. */
  lemma {:induction false} NormalMap(pairs: seq<(Value, Value)>)
    requires forall i :: 0 <= i < |pairs| ==> IsNormal(pairs[i].0) && IsNormal(pairs[i].1)
    requires Ascending(EncodedPairs(pairs))
    ensures IsNormal(Map(pairs))
  {
    NormalPairs(pairs);
    CanonicalFixed(NormedPairs(pairs));
  }

  lemma {:induction false} LiteralText(s: string)
    requires |s| < U64_LIMIT && forall i :: 0 <= i < |s| ==> s[i] as int < 128
    ensures Valid(Text(Ascii(s))) && IsNormal(Text(Ascii(s)))
  {
    AsciiIsUtf8(Ascii(s));
  }

  /** Distinct normal values have distinct encodings. */
  lemma NormalInjective(v: Value, w: Value)
    requires Valid(v) && Valid(w) && IsNormal(v) && IsNormal(w)
    requires Encode(v) == Encode(w)
    ensures v == w
  {
    EncodeEqualIff(v, w);
  }

  lemma MapBodyAscends(n: u64, body: bytes, budget: int, pairs: seq<(Value, Value)>, tail: bytes)
    requires budget >= 0 && DecodeBody(5, n, body, budget) == Ok((Map(pairs), tail))
    ensures Ascending(EncodedPairs(pairs))
  {
    hide Encode, Valid, Height, DecodePairs, Flatten, Less;
    PairsSound(body, n, None, budget - 1);
  }

  /** Conversely, a normal map has its keys in ascending order. */
  lemma {:induction false} NormalMapAscends(pairs: seq<(Value, Value)>)
    requires Valid(Map(pairs)) && IsNormal(Map(pairs))
    ensures Ascending(EncodedPairs(pairs))
  {
    var v := Map(pairs);
    var budget: int := Height(v);
    var es := Canonical(EncodedPairs(pairs));
    assert Encode(v) == Head(5, |es|) + Flatten(es);
    hide Ascending, Canonical, Head, Encode, DecodeItem, DecodeBody, Norm, Valid, Height, Flatten;
    RoundTrip(v, budget, []);
    CanonicalLength(EncodedPairs(pairs));
    DecodeHead(5, |es|, Flatten(es), budget);
    assert Encode(v) + [] == Head(5, |es|) + Flatten(es);
    MapBodyAscends(|es|, Flatten(es), budget, pairs, []);
  }

  lemma {:induction false} NormItemsAt(items: seq<Value>, i: nat)
    requires i < |items|
    ensures NormItems(items)[i] == Norm(items[i])
  {
    if i > 0 { NormItemsAt(items[1..], i - 1); }
  }

  lemma NormalArrayParts(items: seq<Value>, i: nat)
    requires IsNormal(Array(items)) && i < |items|
    ensures IsNormal(items[i])
  {
    NormItemsAt(items, i);
  }

  lemma {:induction false} ItemHeightBound(items: seq<Value>, h: int)
    requires h >= -1 && forall i :: 0 <= i < |items| ==> Height(items[i]) <= h
    ensures MaxHeight(items) <= h
  {
    if items != [] { ItemHeightBound(items[1..], h); }
  }

  lemma {:induction false} PairHeightBound(pairs: seq<(Value, Value)>, h: int)
    requires h >= -1 && forall i :: 0 <= i < |pairs| ==> Height(pairs[i].0) <= h && Height(pairs[i].1) <= h
    ensures MaxPairHeight(pairs) <= h
  {
    if pairs != [] { PairHeightBound(pairs[1..], h); }
  }

  /** Normalising a map of normal content only reorders and drops pairs. */
  lemma {:induction false} NormMapSubset(pairs: seq<(Value, Value)>, p: (Value, Value))
    requires forall i :: 0 <= i < |pairs| ==> IsNormal(pairs[i].0) && IsNormal(pairs[i].1)
    requires p in Norm(Map(pairs)).pairs
    ensures p in pairs
  {
    hide Encode;
    NormalPairs(pairs);
    var ns := NormedPairs(pairs);
    var c := Canonical(ns);
    var i :| 0 <= i < |c| && c[i].1 == p;
    CanonicalMember(ns, c[i]);
    var j :| 0 <= j < |ns| && ns[j] == c[i];
    assert Payloads(ns)[j] == pairs[j];
  }

  // ------------------------------------------------------------ reading values back

  lemma {:induction false} ReadsBack(v: Value)
    requires Valid(v) && IsNormal(v) && Height(v) <= MAX_DEPTH
    ensures FromCanonical(Encode(v)) == Ok(v)
  {
    hide Encode, FromCanonical, Valid, Height;
    FromCanonicalOfEncode(v);
  }

  lemma {:induction false} ArrayHeight(items: seq<Value>, h: nat)
    requires forall i :: 0 <= i < |items| ==> Height(items[i]) < h
    ensures Height(Array(items)) <= h
  {
    hide MaxHeight;
    ItemHeightBound(items, h - 1);
    HeightOfArray(items);
  }

  lemma {:induction false} HeightOfArray(items: seq<Value>)
    ensures Height(Array(items)) <= if MaxHeight(items) < 0 then 0 else 1 + MaxHeight(items)
  {
  }

  lemma {:induction false} MapHeight(pairs: seq<(Value, Value)>, h: nat)
    requires forall i :: 0 <= i < |pairs| ==> Height(pairs[i].0) < h && Height(pairs[i].1) < h
    ensures Height(Map(pairs)) <= h
  {
    hide MaxPairHeight;
    PairHeightBound(pairs, h - 1);
    HeightOfMap(pairs);
  }

  lemma {:induction false} HeightOfMap(pairs: seq<(Value, Value)>)
    ensures Height(Map(pairs)) <= if MaxPairHeight(pairs) < 0 then 0 else 1 + MaxPairHeight(pairs)
  {
  }
}
