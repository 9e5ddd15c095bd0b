/** What headers and messages are accepted, told from the decoded map and with the label and
    algorithm numbers of RFC 9052 and RFC 9360 written out. */
module CoseHeaders {
  import opened Bytes
  import opened Cbor
  import opened Cose
  import opened CoseParse

  // ------------------------------------------------------------ the decoded map

  predicate Holds(pairs: seq<(Value, Value)>, n: u64, v: Value) { (Uint(n), v) in pairs }

  predicate Lacks(pairs: seq<(Value, Value)>, n: u64) { forall i :: 0 <= i < |pairs| ==> pairs[i].0 != Uint(n) }

  predicate Distinct(pairs: seq<(Value, Value)>) {
    forall i, j :: 0 <= i < j < |pairs| ==> pairs[i].0 != pairs[j].0
  }

  lemma {:induction false} HeaderValueIs(pairs: seq<(Value, Value)>, n: u64)
    requires Distinct(pairs)
    ensures HeaderValue(pairs, n).None? <==> Lacks(pairs, n)
    ensures HeaderValue(pairs, n).Some? ==> Holds(pairs, n, HeaderValue(pairs, n).value)
    ensures forall v :: Holds(pairs, n, v) ==> HeaderValue(pairs, n) == Some(v)
  {
    if pairs != [] {
      HeaderValueIs(pairs[1..], n);
      assert pairs == [pairs[0]] + pairs[1..];
    }
  }

  // ------------------------------------------------------------ certificate chains

  function TotalBytes(cs: seq<bytes>): (n: nat) {
    if cs == [] then 0 else TotalBytes(cs[..|cs| - 1]) + |cs[|cs| - 1]|
  }

  /** One certificate, or two to eight; none empty, none over 64 KiB, at most 256 KiB together. */
  predicate Bounded(chain: X5Chain) {
    match chain
    case Single(c) => 1 <= |c| <= 65536
    case Chain(cs) =>
      2 <= |cs| <= 8 && (forall i :: 0 <= i < |cs| ==> 1 <= |cs[i]| <= 65536) && TotalBytes(cs) <= 262144
  }

  lemma {:induction false} TotalIs(cs: seq<bytes>)
    ensures TotalBytes(cs) == TotalSize(cs)
  {
    if cs != [] {
      var n := |cs| - 1;
      TotalIs(cs[..n]);
      TotalSizeSnoc(cs, n);
      assert cs[..n + 1] == cs;
    }
  }

  lemma BoundedIs(chain: X5Chain)
    ensures Bounded(chain) <==> ChainOk(chain)
  {
    hide TotalBytes, TotalSize;
    if chain.Chain? { TotalIs(chain.certificates); }
  }

  /** A byte string is one certificate, an array of byte strings a chain. */
  predicate Spells(v: Value, chain: X5Chain) {
    match chain
    case Single(c) => v == ByteStr(c)
    case Chain(cs) =>
      v.Array? && |v.items| == |cs| && forall i :: 0 <= i < |cs| ==> v.items[i] == ByteStr(cs[i])
  }

  lemma {:induction false} ChainExact(v: Value, chain: X5Chain)
    ensures ChainFromValue(v) == Ok(chain) <==> Spells(v, chain) && Bounded(chain)
  {
    hide TotalBytes, TotalSize;
    BoundedIs(chain);
    if v.ByteStr? { BoundedIs(Single(v.body)); }
    if v.Array? && AllBytes(v.items) {
      BoundedIs(Chain(Bodies(v.items)));
      if chain.Chain? && Spells(v, chain) { assert Bodies(v.items) == chain.certificates; }
    }
    if chain.Chain? && Spells(v, chain) { assert AllBytes(v.items); }
  }

  // ------------------------------------------------------------ headers

  /** Integer labels are the unsigned and negative integers that fit 64 bits signed. */
  lemma {:induction false} IntegerLabelExact(v: Value, n: i64)
    ensures IntegerLabel(v) == Ok(n) <==> v == (if n < 0 then Nint(-1 - n) else Uint(n))
    ensures IntegerLabel(v).Err? ==> IntegerLabel(v).error == MalformedHeader
  {
  }

  /** -7, -35 and -8. */
  function AlgNumber(alg: Alg): (v: Value) {
    match alg
    case Es256 => Nint(6)
    case Es384 => Nint(34)
    case EdDsa => Nint(7)
  }

  predicate KidIs(pairs: seq<(Value, Value)>, kid: Option<bytes>) {
    if kid.None? then Lacks(pairs, 4) else Holds(pairs, 4, ByteStr(kid.value))
  }

  ghost predicate ChainIs(pairs: seq<(Value, Value)>, chain: Option<X5Chain>) {
    if chain.None? then Lacks(pairs, 33)
    else Bounded(chain.value) && exists v :: Holds(pairs, 33, v) && Spells(v, chain.value)
  }

  /** A label the implementation understands and the header holds. */
  predicate Understood(pairs: seq<(Value, Value)>, v: Value) {
    v in [Uint(1), Uint(4), Uint(33)] && exists k :: 0 <= k < |pairs| && pairs[k].0 == v
  }

  predicate CriticalList(pairs: seq<(Value, Value)>, v: Value) {
    && v.Array? && v.items != []
    && (forall i :: 0 <= i < |v.items| ==> Understood(pairs, v.items[i]))
    && (forall i, j :: 0 <= i < j < |v.items| ==> v.items[i] != v.items[j])
  }

  ghost predicate CriticalOk(pairs: seq<(Value, Value)>) {
    Lacks(pairs, 2) || exists v :: Holds(pairs, 2, v) && CriticalList(pairs, v)
  }

  ghost predicate MapSays(pairs: seq<(Value, Value)>, h: ProtectedHeader) {
    && Distinct(pairs) && CriticalOk(pairs) && Holds(pairs, 1, AlgNumber(h.alg))
    && KidIs(pairs, h.kid) && ChainIs(pairs, h.x5chain)
  }

  /** The bytes are one canonical map that says exactly this header. */
  ghost predicate Says(b: bytes, h: ProtectedHeader) {
    var r := FromCanonical(b);
    r.Ok? && r.value.Map? && MapSays(r.value.pairs, h)
  }

  lemma {:induction false} CriticalIff(pairs: seq<(Value, Value)>)
    requires Distinct(pairs)
    ensures CriticalError(pairs).None? <==> CriticalOk(pairs)
  {
    hide CheckCritical, HeaderValue, Lacks, Holds;
    HeaderValueIs(pairs, 2);
    var crit := HeaderValue(pairs, 2);
    if crit.Some? && crit.value.Array? { CriticalAcceptedIff(crit.value.items, pairs, []); }
  }

  lemma {:induction false} AlgIff(pairs: seq<(Value, Value)>, alg: Alg)
    requires Distinct(pairs)
    ensures ParseAlg(pairs) == Ok(alg) <==> Holds(pairs, 1, AlgNumber(alg))
  {
    hide HeaderValue, Holds;
    HeaderValueIs(pairs, 1);
  }

  lemma {:induction false} KidIff(pairs: seq<(Value, Value)>, kid: Option<bytes>)
    requires Distinct(pairs)
    ensures ParseKid(pairs) == Ok(kid) <==> KidIs(pairs, kid)
  {
    hide HeaderValue, Holds, Lacks;
    HeaderValueIs(pairs, 4);
  }

  lemma {:induction false} ChainIff(pairs: seq<(Value, Value)>, chain: Option<X5Chain>)
    requires Distinct(pairs)
    ensures ParseX5Chain(pairs) == Ok(chain) <==> ChainIs(pairs, chain)
  {
    hide HeaderValue, Holds, Lacks, ChainFromValue, Spells, Bounded;
    HeaderValueIs(pairs, 33);
    var v := HeaderValue(pairs, 33);
    if v.Some? && chain.Some? { ChainExact(v.value, chain.value); }
  }

  /** A protected header parses to `h` exactly when its bytes are one canonical map with distinct
      labels that says `h`, and any `crit` list in it is understood in full. */
  lemma {:induction false} ProtectedIff(b: bytes, h: ProtectedHeader)
    ensures ParseProtected(b) == Ok(h) <==> Says(b, h)
  {
    hide FromCanonical, CriticalError, ParseAlg, ParseKid, ParseX5Chain, CriticalOk, Holds, KidIs, ChainIs;
    var r := FromCanonical(b);
    if r.Ok? && r.value.Map? && Distinct(r.value.pairs) {
      var ps := r.value.pairs;
      CriticalIff(ps);
      AlgIff(ps, h.alg);
      KidIff(ps, h.kid);
      ChainIff(ps, h.x5chain);
    }
  }

  lemma {:induction false} CheckPrefix(items: seq<Value>, pairs: seq<(Value, Value)>, seen: seq<Value>, k: nat)
    requires k <= |items|
    requires forall i :: 0 <= i < k ==> Understood(pairs, items[i]) && items[i] !in seen
    requires forall i, j :: 0 <= i < j < k ==> items[i] != items[j]
    ensures CheckCritical(items, pairs, seen) == CheckCritical(items[k..], pairs, seen + items[..k])
    decreases k
  {
    if k == 0 {
      assert items[0..] == items && seen + items[..0] == seen;
    } else {
      var more := seen + [items[0]];
      assert forall i :: 0 <= i < k - 1 ==> items[1..][i] == items[i + 1];
      CheckPrefix(items[1..], pairs, more, k - 1);
      assert items[1..][k - 1..] == items[k..] && more + items[1..][..k - 1] == seen + items[..k];
      assert HasKey(pairs, items[0]);
    }
  }

  /** The first critical label that is not understood, when it is some other integer than `crit`
      itself, is reported by its number. */
  lemma {:induction false} UnknownCriticalRefused(b: bytes, pairs: seq<(Value, Value)>, items: seq<Value>, k: nat,
                                                  unknown: i64)
    requires FromCanonical(b) == Ok(Map(pairs)) && Distinct(pairs) && Holds(pairs, 2, Array(items)) && k < |items|
    requires forall i :: 0 <= i < k ==> Understood(pairs, items[i])
    requires forall i, j :: 0 <= i < j < k ==> items[i] != items[j]
    requires items[k] == (if unknown < 0 then Nint(-1 - unknown) else Uint(unknown)) && unknown !in [1, 2, 4, 33]
    ensures ParseProtected(b) == Err(UnknownCriticalParam(unknown))
  {
    hide FromCanonical, HeaderValue, Holds, HasKey;
    HeaderValueIs(pairs, 2);
    CheckPrefix(items, pairs, [], k);
    assert items[k..][0] == items[k];
  }

  // ------------------------------------------------------------ messages

  ghost predicate UnprotectedSays(v: Value, u: UnprotectedHeader) {
    && v.Map? && Distinct(v.pairs) && Lacks(v.pairs, 1) && Lacks(v.pairs, 2)
    && KidIs(v.pairs, u.kid) && ChainIs(v.pairs, u.x5chain)
    && u.privateLabels == PrivateEntries(v.pairs, 8)
  }

  /** An unprotected header parses to `u` exactly when the map says so: no algorithm, no `crit`. */
  lemma {:induction false} UnprotectedIff(v: Value, u: UnprotectedHeader)
    ensures ParseUnprotected(v) == Ok(u) <==> UnprotectedSays(v, u)
  {
    hide ParseKid, ParseX5Chain, PrivateEntries, KidIs, ChainIs, HeaderValue, Lacks;
    if v.Map? && Distinct(v.pairs) {
      HeaderValueIs(v.pairs, 1);
      HeaderValueIs(v.pairs, 2);
      KidIff(v.pairs, u.kid);
      ChainIff(v.pairs, u.x5chain);
    }
  }

  /** The two headers name the key and the chain at most once between them. */
  predicate NoClash(h: ProtectedHeader, u: UnprotectedHeader) {
    && (h.kid.None? || u.kid.None?) && (h.x5chain.None? || u.x5chain.None?)
    && (u.x5chain.Some? ==> Bounded(u.x5chain.value))
  }

  lemma CompatibleIs(h: ProtectedHeader, u: UnprotectedHeader)
    ensures HeadersCompatible(h, u) <==> NoClash(h, u)
  {
    hide Bounded, ChainOk;
    if u.x5chain.Some? { BoundedIs(u.x5chain.value); }
  }

  ghost predicate MessageIs(v: Value, m: CoseSign1) {
    && v.Array? && |v.items| == 4
    && v.items[0] == ByteStr(m.protected)
    && UnprotectedSays(v.items[1], m.unprotected)
    && v.items[2] == (if m.payload.Some? then ByteStr(m.payload.value) else Null)
    && v.items[3] == ByteStr(m.signature)
    && exists h :: Says(m.protected, h) && NoClash(h, m.unprotected)
  }

  /** A value is read as a message exactly when its four items are that message's, both headers
      parse and they do not clash. */
  lemma {:induction false} FromValueIff(v: Value, m: CoseSign1)
    ensures FromValue(v) == Ok(m) <==> MessageIs(v, m)
  {
    hide ParseProtected, ParseUnprotected, Says, UnprotectedSays, HeadersCompatible, NoClash;
    if v.Array? && |v.items| == 4 && v.items[0].ByteStr? {
      UnprotectedIff(v.items[1], m.unprotected);
      var p := ParseProtected(v.items[0].body);
      if p.Ok? { ProtectedIff(v.items[0].body, p.value); CompatibleIs(p.value, m.unprotected); }
      if h :| Says(m.protected, h) && NoClash(h, m.unprotected) {
        ProtectedIff(m.protected, h);
        CompatibleIs(h, m.unprotected);
      }
    }
  }

  /** Verification succeeds exactly when the protected header says the expected algorithm, headers do
      not clash, the payload is given once, attached or detached, and the signature verifies over
      these three arguments. */
  lemma {:induction false} VerifyIff(m: CoseSign1, verifier: Verifier, expected: Alg, key: bytes, aad: bytes,
                                     detached: Option<bytes>)
    ensures Verify(m, verifier, expected, key, aad, detached) == Ok(()) <==>
      && (exists h :: Says(m.protected, h) && h.alg == expected && NoClash(h, m.unprotected))
      && (m.payload.Some? <==> detached.None?)
      && var payload := if m.payload.Some? then m.payload.value else if detached.Some? then detached.value else [];
         verifier(expected, key, SigStructure(m.protected, aad, payload), m.signature)
  {
    hide ParseProtected, Says, HeadersCompatible, NoClash, SigStructure;
    var p := ParseProtected(m.protected);
    if p.Ok? { ProtectedIff(m.protected, p.value); CompatibleIs(p.value, m.unprotected); }
    if h :| Says(m.protected, h) && h.alg == expected && NoClash(h, m.unprotected) {
      ProtectedIff(m.protected, h);
      CompatibleIs(h, m.unprotected);
    }
  }

  /** Detaching a payload and handing it to the verifier changes no verdict. */
  lemma DetachedIsAttached(m: CoseSign1, verifier: Verifier, expected: Alg, key: bytes, aad: bytes, payload: bytes)
    ensures Verify(m.(payload := None), verifier, expected, key, aad, Some(payload))
         == Verify(m.(payload := Some(payload)), verifier, expected, key, aad, None)
  {
    hide ParseProtected, HeadersCompatible, SigStructure;
  }
}
