/** Canonical CBOR (RFC 8949 section 4.2.1): the value model, the encoder and the decoder. */
module Cbor {
  import opened Bytes
  import opened Utf8
  import KeyedSort

  /** Text is its UTF-8 bytes. `Nint(n)` denotes the number -1 - n. */
  datatype Value =
    | Uint(n: u64)
    | Nint(n: u64)
    | ByteStr(body: bytes)
    | Text(body: bytes)
    | Array(items: seq<Value>)
    | Map(pairs: seq<(Value, Value)>)
    | Tag(tag: u64, inner: Value)
    | Bool(b: bool)
    | Null

  datatype CborError =
    | Truncated
    | NotShortestForm
    | IndefiniteLength
    | Reserved
    | InvalidUtf8
    | MapKeysNotSorted
    | DuplicateMapKey
    | TrailingBytes
    | UnsupportedSimple
    | TooDeep

  const MAX_DEPTH: int := 64

  type major = m: int | 0 <= m < 8

  /** What the Rust types guarantee of any value: text is UTF-8, lengths fit a 64-bit word. */
  predicate Valid(v: Value) {
    match v
    case ByteStr(b) => |b| < U64_LIMIT
    case Text(t) => |t| < U64_LIMIT && ValidUtf8(t)
    case Array(items) => |items| < U64_LIMIT && forall i :: 0 <= i < |items| ==> Valid(items[i])
    case Map(pairs) =>
      && |pairs| < U64_LIMIT
      && forall i :: 0 <= i < |pairs| ==> Valid(pairs[i].0) && Valid(pairs[i].1)
    case Tag(_, inner) => Valid(inner)
    case _ => true
  }

  // ------------------------------------------------------------ heads

  /** Additional information of the shortest form of `arg`. */
  function InfoOf(arg: nat): (info: nat)
    ensures info <= 27
  {
    if arg <= 23 then arg
    else if arg <= 0xFF then 24
    else if arg <= 0xFFFF then 25
    else if arg <= 0xFFFF_FFFF then 26
    else 27
  }

  /** Argument bytes that follow an initial byte with this additional information. */
  function ArgWidth(info: nat): (w: nat) {
    if info <= 23 then 0 else if info == 24 then 1 else if info == 25 then 2 else if info == 26 then 4 else 8
  }

  /** Largest argument a shorter form could have carried. */
  function Shorter(info: nat): (n: nat) {
    if info <= 24 then 23 else if info == 25 then 0xFF else if info == 26 then 0xFFFF else 0xFFFF_FFFF
  }

  /** Initial byte and shortest-form argument. */
  function Head(m: major, arg: nat): (s: bytes)
    ensures |s| > 0 && s[0] / 32 == m
  {
    [m * 32 + InfoOf(arg)] + ToBe(arg, ArgWidth(InfoOf(arg)))
  }

  datatype HeadItem = HeadItem(m: major, arg: u64, rest: bytes)

  lemma ArgFits(s: bytes)
    requires |s| in {1, 2, 4, 8}
    ensures FromBe(s) < U64_LIMIT
  {
    ToFromBe(s);
    Pow256Values();
  }

  /** The extended argument, refused when a shorter form would have done. */
  function ReadArg(m: major, info: nat, rest: bytes): (r: Result<HeadItem, CborError>)
    requires 24 <= info <= 27
    ensures r.Ok? ==> |r.value.rest| <= |rest|
  {
    var width := ArgWidth(info);
    if |rest| < width then Err(Truncated)
    else
      ArgFits(rest[..width]);
      var v := FromBe(rest[..width]);
      if v <= Shorter(info) then Err(NotShortestForm) else Ok(HeadItem(m, v, rest[width..]))
  }

  function ReadHead(s: bytes): (r: Result<HeadItem, CborError>)
    ensures r.Ok? ==> |r.value.rest| < |s| && r.value.m == s[0] / 32
  {
    if s == [] then Err(Truncated)
    else
      var m := s[0] / 32;
      var info := s[0] % 32;
      if info <= 23 then Ok(HeadItem(m, info, s[1..]))
      else if info <= 27 then ReadArg(m, info, s[1..])
      else if info == 31 then Err(IndefiniteLength)
      else Err(Reserved)
  }

  // ------------------------------------------------------------ encoder

  function Encode(v: Value): (s: bytes) {
    match v
    case Uint(n) => Head(0, n)
    case Nint(n) => Head(1, n)
    case ByteStr(b) => Head(2, |b|) + b
    case Text(t) => Head(3, |t|) + t
    case Array(items) => Head(4, |items|) + EncodeItems(items)
    case Map(pairs) => EncodeEntries(KeyedSort.Canonical(EncodedPairs(pairs)))
    case Tag(t, inner) => Head(6, t) + Encode(inner)
    case Bool(b) => [if b then 0xF5 else 0xF4]
    case Null => [0xF6]
  }

  function EncodeItems(items: seq<Value>): (s: bytes) {
    if items == [] then [] else Encode(items[0]) + EncodeItems(items[1..])
  }

  /** Every pair, key and value encoded on their own. */
  function EncodedPairs(pairs: seq<(Value, Value)>): (r: seq<(bytes, bytes)>)
    ensures |r| == |pairs|
  {
    if pairs == [] then []
    else
      var p := pairs[0];
      assert p.0 < p && p.1 < p;
      [(Encode(p.0), Encode(p.1))] + EncodedPairs(pairs[1..])
  }

  function EncodeEntries(entries: seq<(bytes, bytes)>): (s: bytes) {
    Head(5, |entries|) + Flatten(entries)
  }

  function Flatten(entries: seq<(bytes, bytes)>): (s: bytes) {
    if entries == [] then [] else entries[0].0 + entries[0].1 + Flatten(entries[1..])
  }

  // ------------------------------------------------------------ decoder

  /** One item from the front of `s`. `budget` is how many more levels may open:
      `MAX_DEPTH - depth` of the source's depth parameter. */
  function DecodeItem(s: bytes, budget: int): (r: Result<(Value, bytes), CborError>)
    ensures r.Ok? ==> |r.value.1| < |s|
    decreases |s|, 0
  {
    if budget < 0 then Err(TooDeep)
    else if s == [] then Err(Truncated)
    else if s[0] / 32 == 7 then
      if s[0] == 0xF4 then Ok((Bool(false), s[1..]))
      else if s[0] == 0xF5 then Ok((Bool(true), s[1..]))
      else if s[0] == 0xF6 then Ok((Null, s[1..]))
      else Err(UnsupportedSimple)
    else
      match ReadHead(s)
      case Err(e) => Err(e)
      case Ok(h) => DecodeBody(h.m, h.arg, h.rest, budget)
  }

  /** The content that follows a head of major type `m` with argument `arg`. */
  function DecodeBody(m: major, arg: u64, rest: bytes, budget: int): (r: Result<(Value, bytes), CborError>)
    ensures r.Ok? ==> |r.value.1| <= |rest|
    decreases |rest|, 2
  {
    match m
    case 0 => Ok((Uint(arg), rest))
    case 1 => Ok((Nint(arg), rest))
    case 2 => if |rest| < arg then Err(Truncated) else Ok((ByteStr(rest[..arg]), rest[arg..]))
    case 3 =>
      if |rest| < arg then Err(Truncated)
      else if !ValidUtf8(rest[..arg]) then Err(InvalidUtf8)
      else Ok((Text(rest[..arg]), rest[arg..]))
    case 4 =>
      (match DecodeItems(rest, arg, budget - 1)
       case Err(e) => Err(e)
       case Ok(x) => Ok((Array(x.0), x.1)))
    case 5 =>
      (match DecodePairs(rest, arg, None, budget - 1)
       case Err(e) => Err(e)
       case Ok(x) => Ok((Map(x.0), x.1)))
    case _ =>
      (match DecodeItem(rest, budget - 1)
       case Err(e) => Err(e)
       case Ok(x) => Ok((Tag(arg, x.0), x.1)))
  }

  function DecodeItems(s: bytes, count: nat, budget: int): (r: Result<(seq<Value>, bytes), CborError>)
    ensures r.Ok? ==> |r.value.1| <= |s| && |r.value.0| == count
    decreases |s|, 1
  {
    if count == 0 then Ok(([], s))
    else
      match DecodeItem(s, budget)
      case Err(e) => Err(e)
      case Ok(x) =>
        match DecodeItems(x.1, count - 1, budget)
        case Err(e) => Err(e)
        case Ok(xs) => Ok(([x.0] + xs.0, xs.1))
  }

  /** The order check between a map key and the key before it. */
  function KeyOrder(prev: Option<bytes>, key: bytes): (r: Option<CborError>) {
    if prev.None? then None
    else if Less(key, prev.value) then Some(MapKeysNotSorted)
    else if key == prev.value then Some(DuplicateMapKey)
    else None
  }

  function DecodePairs(s: bytes, count: nat, prev: Option<bytes>, budget: int)
    : (r: Result<(seq<(Value, Value)>, bytes), CborError>)
    ensures r.Ok? ==> |r.value.1| <= |s| && |r.value.0| == count
    decreases |s|, 1
  {
    if count == 0 then Ok(([], s))
    else
      match DecodeItem(s, budget)
      case Err(e) => Err(e)
      case Ok(k) =>
        var key := Encode(k.0);
        match KeyOrder(prev, key)
        case Some(e) => Err(e)
        case None =>
          match DecodeItem(k.1, budget)
          case Err(e) => Err(e)
          case Ok(v) =>
            match DecodePairs(v.1, count - 1, Some(key), budget)
            case Err(e) => Err(e)
            case Ok(ps) => Ok(([(k.0, v.0)] + ps.0, ps.1))
  }

  /** `decode_value` at the source's nesting depth. */
  function DecodeAt(s: bytes, depth: nat): (r: Result<(Value, bytes), CborError>) {
    DecodeItem(s, MAX_DEPTH - depth)
  }

  /** `from_canonical_slice`: exactly one item, nothing after it. */
  function FromCanonical(s: bytes): (r: Result<Value, CborError>) {
    match DecodeAt(s, 0)
    case Err(e) => Err(e)
    case Ok(x) => if x.1 == [] then Ok(x.0) else Err(TrailingBytes)
  }

  // ------------------------------------------------------------ meaning

  /** The value an encoding stands for: map pairs sorted by encoded key, the first of
      each duplicated key kept, at every level. */
  function Norm(v: Value): (r: Value) {
    match v
    case Array(items) => Array(NormItems(items))
    case Map(pairs) => Map(Payloads(KeyedSort.Canonical(NormedPairs(pairs))))
    case Tag(t, inner) => Tag(t, Norm(inner))
    case _ => v
  }

  function NormItems(items: seq<Value>): (r: seq<Value>)
    ensures |r| == |items|
  {
    if items == [] then [] else [Norm(items[0])] + NormItems(items[1..])
  }

  function NormedPairs(pairs: seq<(Value, Value)>): (r: seq<(bytes, (Value, Value))>)
    ensures |r| == |pairs|
  {
    if pairs == [] then []
    else
      var p := pairs[0];
      assert p.0 < p && p.1 < p;
      [(Encode(p.0), (Norm(p.0), Norm(p.1)))] + NormedPairs(pairs[1..])
  }

  function Payloads<T>(s: seq<(bytes, T)>): (r: seq<T>)
    ensures |r| == |s|
    ensures forall i :: 0 <= i < |s| ==> r[i] == s[i].1
  {
    seq(|s|, i requires 0 <= i < |s| => s[i].1)
  }

  /** Levels of nesting below `v`; a leaf and an empty container have none. */
  function Height(v: Value): (h: nat) {
    match v
    case Array(items) => 1 + MaxHeight(items)
    case Map(pairs) => 1 + MaxPairHeight(pairs)
    case Tag(_, inner) => 1 + Height(inner)
    case _ => 0
  }

  function MaxHeight(items: seq<Value>): (h: int)
    ensures h >= -1
  {
    if items == [] then -1 else Max(Height(items[0]), MaxHeight(items[1..]))
  }

  function MaxPairHeight(pairs: seq<(Value, Value)>): (h: int)
    ensures h >= -1
  {
    if pairs == [] then -1
    else
      var p := pairs[0];
      assert p.0 < p && p.1 < p;
      Max(Max(Height(p.0), Height(p.1)), MaxPairHeight(pairs[1..]))
  }

  function Max(a: int, b: int): (m: int) { if a < b then b else a }
}
