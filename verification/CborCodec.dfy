/** The codec as it runs: an output buffer the encoder appends to, and a decoder whose loops
    carry the unread rest of the input. Both are proved against the functions of `Cbor`. */
module CborCodec {
  import opened Bytes
  import opened Utf8
  import opened Cbor
  import opened KeyedSort
  import CborTheorems

  /** A growable output buffer. */
  class Buffer {
    var data: bytes

    constructor ()
      ensures data == []
    {
      data := [];
    }

    method Push(b: byte)
      modifies this
      ensures data == old(data) + [b]
    {
      data := data + [b];
    }

    method Extend(s: bytes)
      modifies this
      ensures data == old(data) + s
    {
      data := data + s;
    }
  }

  method WriteHead(out: Buffer, m: major, arg: u64)
    modifies out
    ensures out.data == old(out.data) + Head(m, arg)
  {
    var mt := m * 32;
    if arg <= 23 {
      out.Push(mt + arg);
      assert ToBe(arg, 0) == [];
    } else if arg <= 0xFF {
      out.Push(mt + 24);
      out.Push(arg);
      assert ToBe(arg, 1) == ToBe(arg / 256, 0) + [arg % 256];
    } else if arg <= 0xFFFF {
      out.Push(mt + 25);
      out.Extend(ToBe(arg, 2));
    } else if arg <= 0xFFFF_FFFF {
      out.Push(mt + 26);
      out.Extend(ToBe(arg, 4));
    } else {
      out.Push(mt + 27);
      out.Extend(ToBe(arg, 8));
    }
  }

  method ToCanonical(v: Value) returns (s: bytes)
    requires Valid(v)
    ensures s == Encode(v)
    decreases v, 1
  {
    var out := new Buffer();
    EncodeInto(v, out);
    s := out.data;
  }

  method EncodeInto(v: Value, out: Buffer)
    requires Valid(v)
    modifies out
    ensures out.data == old(out.data) + Encode(v)
    decreases v, 0
  {
    hide Head, EncodeItems, EncodedPairs, Canonical;
    match v
    case Uint(n) => WriteHead(out, 0, n);
    case Nint(n) => WriteHead(out, 1, n);
    case ByteStr(b) => WriteHead(out, 2, |b|); out.Extend(b);
    case Text(t) => WriteHead(out, 3, |t|); out.Extend(t);
    case Array(items) => EncodeArray(items, out);
    case Map(pairs) => EncodeMap(pairs, out);
    case Tag(t, inner) => WriteHead(out, 6, t); EncodeInto(inner, out);
    case Bool(b) => if b { out.Push(0xF5); } else { out.Push(0xF4); }
    case Null => out.Push(0xF6);
  }

  lemma {:induction false} EncodeItemsSnoc(items: seq<Value>, i: nat)
    requires i < |items|
    ensures EncodeItems(items[..i + 1]) == EncodeItems(items[..i]) + Encode(items[i])
  {
    if i == 0 {
      assert items[..1][1..] == [] && items[..0] == [];
      assert EncodeItems(items[..1]) == Encode(items[0]) + EncodeItems([]);
    } else {
      EncodeItemsSnoc(items[1..], i - 1);
      assert items[1..][..i] == items[..i + 1][1..];
      assert items[1..][..i - 1] == items[..i][1..];
    }
  }

  method EncodeArray(items: seq<Value>, out: Buffer)
    requires |items| < U64_LIMIT && forall i :: 0 <= i < |items| ==> Valid(items[i])
    modifies out
    ensures out.data == old(out.data) + (Head(4, |items|) + EncodeItems(items))
    decreases items, 0
  {
    hide Encode, Head;
    ghost var start := out.data;
    WriteHead(out, 4, |items|);
    for i := 0 to |items|
      invariant out.data == start + Head(4, |items|) + EncodeItems(items[..i])
    {
      EncodeItemsSnoc(items, i);
      EncodeInto(items[i], out);
    }
    assert items[..|items|] == items;
  }

  lemma {:induction false} EncodedPairsSnoc(pairs: seq<(Value, Value)>, i: nat)
    requires i < |pairs|
    ensures EncodedPairs(pairs[..i + 1]) == EncodedPairs(pairs[..i]) + [(Encode(pairs[i].0), Encode(pairs[i].1))]
  {
    if i == 0 {
      assert pairs[..1][1..] == [] && pairs[..0] == [];
    } else {
      EncodedPairsSnoc(pairs[1..], i - 1);
      assert pairs[1..][..i] == pairs[..i + 1][1..];
      assert pairs[1..][..i - 1] == pairs[..i][1..];
    }
  }

  lemma {:induction false} FlattenSnoc(entries: seq<(bytes, bytes)>, i: nat)
    requires i < |entries|
    ensures Flatten(entries[..i + 1]) == Flatten(entries[..i]) + entries[i].0 + entries[i].1
  {
    if i == 0 {
      assert entries[..1][1..] == [] && entries[..0] == [];
    } else {
      FlattenSnoc(entries[1..], i - 1);
      assert entries[1..][..i] == entries[..i + 1][1..];
      assert entries[1..][..i - 1] == entries[..i][1..];
    }
  }

  method EncodeMap(pairs: seq<(Value, Value)>, out: Buffer)
    requires |pairs| < U64_LIMIT
    requires forall i :: 0 <= i < |pairs| ==> Valid(pairs[i].0) && Valid(pairs[i].1)
    modifies out
    ensures out.data == old(out.data) + EncodeEntries(Canonical(EncodedPairs(pairs)))
    decreases pairs, 0
  {
    hide Encode, Head, StableSort, Dedup;
    ghost var start := out.data;
    var encoded: seq<(bytes, bytes)> := [];
    for i := 0 to |pairs|
      invariant encoded == EncodedPairs(pairs[..i])
      invariant out.data == start
    {
      var p := pairs[i];
      assert p.0 < p && p.1 < p;
      var k := ToCanonical(p.0);
      var v := ToCanonical(p.1);
      EncodedPairsSnoc(pairs, i);
      encoded := encoded + [(k, v)];
    }
    assert pairs[..|pairs|] == pairs;
    CanonicalLength(encoded);
    encoded := StableSort(encoded);
    encoded := Dedup(encoded);
    WriteHead(out, 5, |encoded|);
    for i := 0 to |encoded|
      invariant out.data == start + Head(5, |encoded|) + Flatten(encoded[..i])
    {
      FlattenSnoc(encoded, i);
      out.Extend(encoded[i].0);
      out.Extend(encoded[i].1);
    }
    assert encoded[..|encoded|] == encoded;
  }

  // ------------------------------------------------------------ decoding

  /** The result of a loop that has already read `done` and finds `more` ahead. */
  function Resume<T>(done: seq<T>, more: Result<(seq<T>, bytes), CborError>): (r: Result<(seq<T>, bytes), CborError>) {
    match more
    case Err(e) => Err(e)
    case Ok(x) => Ok((done + x.0, x.1))
  }

  lemma ResumeStep<T>(done: seq<T>, x: T, more: Result<(seq<T>, bytes), CborError>)
    ensures Resume(done, Resume([x], more)) == Resume(done + [x], more)
  {
    if more.Ok? { assert done + ([x] + more.value.0) == (done + [x]) + more.value.0; }
  }

  lemma ResumeEnds<T>(done: seq<T>, s: bytes, more: Result<(seq<T>, bytes), CborError>)
    ensures Resume([], more) == more
    ensures Resume(done, Ok(([], s))) == Ok((done, s))
  {
    if more.Ok? { assert [] + more.value.0 == more.value.0; }
    assert done + [] == done;
  }

  method DecodeValue(s: bytes, depth: nat) returns (r: Result<(Value, bytes), CborError>)
    ensures r == DecodeAt(s, depth)
    decreases |s|, 0
  {
    hide ReadHead, DecodeBody;
    if depth > MAX_DEPTH { return Err(TooDeep); }
    if s == [] { return Err(Truncated); }
    if s[0] / 32 == 7 {
      if s[0] == 0xF4 { return Ok((Bool(false), s[1..])); }
      if s[0] == 0xF5 { return Ok((Bool(true), s[1..])); }
      if s[0] == 0xF6 { return Ok((Null, s[1..])); }
      return Err(UnsupportedSimple);
    }
    var head := ReadHead(s);
    if head.Err? { return Err(head.error); }
    r := DecodeContent(head.value.m, head.value.arg, head.value.rest, depth);
  }

  method DecodeContent(m: major, arg: u64, rest: bytes, depth: nat) returns (r: Result<(Value, bytes), CborError>)
    requires m < 7
    ensures r == DecodeBody(m, arg, rest, MAX_DEPTH - depth)
    decreases |rest|, 3
  {
    hide ReadHead, DecodeItem, DecodeItems, DecodePairs, ValidUtf8;
    match m
    case 0 => r := Ok((Uint(arg), rest));
    case 1 => r := Ok((Nint(arg), rest));
    case 2 =>
      if |rest| < arg { return Err(Truncated); }
      r := Ok((ByteStr(rest[..arg]), rest[arg..]));
    case 3 =>
      if |rest| < arg { return Err(Truncated); }
      if !ValidUtf8(rest[..arg]) { return Err(InvalidUtf8); }
      r := Ok((Text(rest[..arg]), rest[arg..]));
    case 4 => r := DecodeArray(rest, arg, depth);
    case 5 => r := DecodeMap(rest, arg, depth);
    case _ =>
      var inner := DecodeValue(rest, depth + 1);
      r := if inner.Err? then Err(inner.error) else Ok((Tag(arg, inner.value.0), inner.value.1));
  }

  method DecodeArray(s: bytes, len: u64, depth: nat) returns (r: Result<(Value, bytes), CborError>)
    ensures r == DecodeBody(4, len, s, MAX_DEPTH - depth)
    decreases |s|, 2
  {
    hide ReadHead, DecodeItem;
    var rest, items: seq<Value> := s, [];
    ghost var budget := MAX_DEPTH - depth - 1;
    ResumeEnds(items, s, DecodeItems(s, len, budget));
    for i := 0 to len
      invariant |rest| <= |s|
      invariant DecodeItems(s, len, budget) == Resume(items, DecodeItems(rest, len - i, budget))
    {
      var x := DecodeValue(rest, depth + 1);
      if x.Err? { return Err(x.error); }
      ResumeStep(items, x.value.0, DecodeItems(x.value.1, len - i - 1, budget));
      items := items + [x.value.0];
      rest := x.value.1;
    }
    ResumeEnds(items, rest, DecodeItems(rest, 0, budget));
    return Ok((Array(items), rest));
  }

  method DecodeMap(s: bytes, len: u64, depth: nat) returns (r: Result<(Value, bytes), CborError>)
    ensures r == DecodeBody(5, len, s, MAX_DEPTH - depth)
    decreases |s|, 2
  {
    hide ReadHead, DecodeItem, Encode, Less;
    var rest, pairs: seq<(Value, Value)>, prevKey: Option<bytes> := s, [], None;
    ghost var budget := MAX_DEPTH - depth - 1;
    ResumeEnds(pairs, s, DecodePairs(s, len, None, budget));
    for i := 0 to len
      invariant |rest| <= |s|
      invariant DecodePairs(s, len, None, budget) == Resume(pairs, DecodePairs(rest, len - i, prevKey, budget))
    {
      var k := DecodeValue(rest, depth + 1);
      if k.Err? { return Err(k.error); }
      CborTheorems.DecodeSound(rest, budget);
      var keyBytes := ToCanonical(k.value.0);
      if prevKey.Some? {
        if Less(keyBytes, prevKey.value) { return Err(MapKeysNotSorted); }
        if keyBytes == prevKey.value { return Err(DuplicateMapKey); }
      }
      prevKey := Some(keyBytes);
      var v := DecodeValue(k.value.1, depth + 1);
      if v.Err? { return Err(v.error); }
      ResumeStep(pairs, (k.value.0, v.value.0), DecodePairs(v.value.1, len - i - 1, prevKey, budget));
      pairs := pairs + [(k.value.0, v.value.0)];
      rest := v.value.1;
    }
    ResumeEnds(pairs, rest, DecodePairs(rest, 0, prevKey, budget));
    return Ok((Map(pairs), rest));
  }
}
