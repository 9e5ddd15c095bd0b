/** The loops of the COSE header parser, proved against the functions of `Cose`. */
module CoseParse {
  import opened Bytes
  import opened Cbor
  import opened Cose

  lemma TotalSizeEmpty()
    ensures TotalSize([]) == 0
  {
  }

  lemma {:induction false} TotalSizeSnoc(cs: seq<bytes>, i: nat)
    requires i < |cs|
    ensures TotalSize(cs[..i + 1]) == TotalSize(cs[..i]) + |cs[i]|
  {
    if i > 0 {
      TotalSizeSnoc(cs[1..], i - 1);
      assert cs[1..][..i] == cs[..i + 1][1..] && cs[1..][..i - 1] == cs[..i][1..];
    } else {
      assert cs[..1][1..] == [] && cs[..0] == [];
    }
  }

  lemma {:induction false} TotalSizeMonotone(cs: seq<bytes>, i: nat)
    requires i <= |cs|
    ensures TotalSize(cs[..i]) <= TotalSize(cs)
    decreases |cs| - i
  {
    if i < |cs| {
      TotalSizeSnoc(cs, i);
      TotalSizeMonotone(cs, i + 1);
    } else {
      assert cs[..i] == cs;
    }
  }

  /** A chain with a prefix over the byte limit is refused whole. */
  lemma OverLimit(items: seq<Value>, n: nat)
    requires n <= |items| && AllBytes(items[..n])
    requires TotalSize(Bodies(items[..n])) > MAX_X5CHAIN_TOTAL_BYTES
    ensures ChainFromValue(Array(items)) == Err(MalformedHeader)
  {
    if AllBytes(items) {
      assert Bodies(items)[..n] == Bodies(items[..n]);
      TotalSizeMonotone(Bodies(items), n);
    }
  }

  lemma BodiesSnoc(items: seq<Value>, i: nat)
    requires i < |items| && AllBytes(items[..i]) && items[i].ByteStr?
    ensures AllBytes(items[..i + 1]) && Bodies(items[..i + 1]) == Bodies(items[..i]) + [items[i].body]
    ensures TotalSize(Bodies(items[..i + 1])) == TotalSize(Bodies(items[..i])) + |items[i].body|
  {
    var next := Bodies(items[..i]) + [items[i].body];
    assert next[..i] == Bodies(items[..i]) && next[..i + 1] == next;
    TotalSizeSnoc(next, i);
    assert Bodies(items[..i + 1]) == next;
  }

  /** Every certificate is checked against the running total before anything is kept. */
  method ReadChain(items: seq<Value>) returns (r: Result<X5Chain, CoseError>)
    ensures r == ChainFromValue(Array(items))
  {
    hide TotalSize;
    if !(2 <= |items| <= MAX_X5CHAIN_CERTIFICATES) { return Err(MalformedHeader); }
    var total: nat := 0;
    var kept: seq<bytes> := [];
    assert TotalSize(kept) == 0 by { TotalSizeEmpty(); }
    for i := 0 to |items|
      invariant |kept| == i && AllBytes(items[..i]) && kept == Bodies(items[..i])
      invariant forall k :: 0 <= k < i ==> CertificateSizeOk(items[k].body)
      invariant total == TotalSize(kept) <= MAX_X5CHAIN_TOTAL_BYTES
    {
      if !items[i].ByteStr? { return Err(MalformedHeader); }
      var c := items[i].body;
      BodiesSnoc(items, i);
      if c == [] || |c| > MAX_X5CHAIN_CERTIFICATE_BYTES {
        assert AllBytes(items) ==> Bodies(items)[i] == c;
        return Err(MalformedHeader);
      }
      total := total + |c|;
      if total > MAX_X5CHAIN_TOTAL_BYTES {
        OverLimit(items, i + 1);
        return Err(MalformedHeader);
      }
      kept := kept + [c];
    }
    assert items[..|items|] == items;
    return Ok(Chain(kept));
  }

  /** The private-use entries of an unprotected header: others are passed over, the loop stops
      when the retained ones are full. */
  method ReadPrivateLabels(pairs: seq<(Value, Value)>) returns (labels: seq<(i64, bytes)>)
    ensures labels == PrivateEntries(pairs, MAX_PRIVATE_LABELS)
  {
    labels := [];
    var i := 0;
    while i < |pairs|
      invariant 0 <= i <= |pairs| && |labels| <= MAX_PRIVATE_LABELS
      invariant PrivateEntries(pairs, MAX_PRIVATE_LABELS)
             == labels + PrivateEntries(pairs[i..], MAX_PRIVATE_LABELS - |labels|)
    {
      var p := pairs[i];
      assert pairs[i..][0] == p && pairs[i..][1..] == pairs[i + 1..];
      i := i + 1;
      var id := IntegerLabel(p.0);
      if id.Err? || !p.1.ByteStr? { continue; }
      if id.value >= 0 || |p.1.body| > MAX_PRIVATE_LABEL_BYTES { continue; }
      if |labels| >= MAX_PRIVATE_LABELS { break; }
      labels := labels + [(id.value, p.1.body)];
    }
  }

  /** The critical labels, in order, against those implemented, present and not yet listed. */
  method ReadCritical(items: seq<Value>, pairs: seq<(Value, Value)>) returns (r: Option<CoseError>)
    ensures r == CheckCritical(items, pairs, [])
  {
    var seen: seq<Value> := [];
    for i := 0 to |items|
      invariant CheckCritical(items, pairs, []) == CheckCritical(items[i..], pairs, seen)
    {
      var item := items[i];
      assert items[i..][0] == item && items[i..][1..] == items[i + 1..];
      var id := IntegerLabel(item);
      if id.Err? { return Some(id.error); }
      if id.value == LABEL_CRIT { return Some(MalformedHeader); }
      if id.value != LABEL_ALG && id.value != LABEL_KID && id.value != LABEL_X5CHAIN {
        return Some(UnknownCriticalParam(id.value));
      }
      if item in seen || !HasKey(pairs, item) { return Some(MalformedHeader); }
      seen := seen + [item];
    }
    return None;
  }

  /** A critical list is accepted exactly when every entry is implemented, present, listed once. */
  lemma {:induction false} CriticalAcceptedIff(items: seq<Value>, pairs: seq<(Value, Value)>, seen: seq<Value>)
    ensures CheckCritical(items, pairs, seen) == None
       <==> && (forall i :: 0 <= i < |items| ==>
                  items[i] in [Uint(LABEL_ALG), Uint(LABEL_KID), Uint(LABEL_X5CHAIN)] && HasKey(pairs, items[i]))
            && (forall i :: 0 <= i < |items| ==> items[i] !in seen)
            && (forall i, j :: 0 <= i < j < |items| ==> items[i] != items[j])
  {
    hide HasKey;
    if items != [] {
      CriticalAcceptedIff(items[1..], pairs, seen + [items[0]]);
      CriticalHead(items, pairs, seen);
    }
  }

  lemma {:induction false} CriticalHead(items: seq<Value>, pairs: seq<(Value, Value)>, seen: seq<Value>)
    requires items != []
    ensures CheckCritical(items, pairs, seen) == None
       <==> && items[0] in [Uint(LABEL_ALG), Uint(LABEL_KID), Uint(LABEL_X5CHAIN)] && HasKey(pairs, items[0])
            && items[0] !in seen
            && CheckCritical(items[1..], pairs, seen + [items[0]]) == None
  {
    hide HasKey;
  }
}
