/** The key order of canonical maps, spelled out on the bytes. */
module CborOrder {
  import opened Bytes
  import opened Cbor
  import opened CborTheorems
  import opened KeyedSort

  /** Any two keys of these pairs, encoded, stand in bytewise lexicographic order. */
  ghost predicate KeysPrecede(pairs: seq<(Value, Value)>) {
    forall i, j :: 0 <= i < j < |pairs| ==> Precedes(Encode(pairs[i].0), Encode(pairs[j].0))
  }

  lemma {:induction false} AscendingPrecede(pairs: seq<(Value, Value)>)
    requires Ascending(EncodedPairs(pairs))
    ensures KeysPrecede(pairs)
  {
    hide Encode, Less, Ascending, EncodedPairs, Precedes;
    forall i, j | 0 <= i < j < |pairs| ensures Precedes(Encode(pairs[i].0), Encode(pairs[j].0)) {
      AscendingAt(EncodedPairs(pairs), i, j);
      EncodedPairsAt(pairs, i);
      EncodedPairsAt(pairs, j);
      LessIsLexicographic(Encode(pairs[i].0), Encode(pairs[j].0));
    }
  }

  /** An accepted map, at any depth, was written key by key in that order. */
  lemma {:induction false} AcceptedMapAscends(s: bytes, budget: int, pairs: seq<(Value, Value)>, rest: bytes)
    requires DecodeItem(s, budget) == Ok((Map(pairs), rest))
    ensures KeysPrecede(pairs) && s == (Head(5, |pairs|) + Flatten(EncodedPairs(pairs))) + rest
  {
    hide DecodeItem, KeysPrecede, Head, Flatten, Ascending, EncodedPairs, Norm, Encode;
    DecodedIsNormal(s, budget);
    NormalMapAscends(pairs);
    AscendingPrecede(pairs);
    AscendingMap(pairs);
  }

  /** An emitted map is its normal form, written key by key in that order. */
  lemma {:induction false} EmittedMapAscends(pairs: seq<(Value, Value)>)
    requires Valid(Map(pairs))
    ensures Norm(Map(pairs)).Map?
    ensures var n := Norm(Map(pairs)).pairs;
      KeysPrecede(n) && Encode(Map(pairs)) == Head(5, |n|) + Flatten(EncodedPairs(n))
  {
    hide KeysPrecede, Head, Flatten, Ascending, EncodedPairs, Encode, Valid;
    EncodeNorm(Map(pairs));
    var n := Norm(Map(pairs)).pairs;
    NormalMapAscends(n);
    AscendingPrecede(n);
    AscendingMap(n);
  }

  /** The decoder's verdict on a key after the key before it. */
  lemma {:induction false} KeyOrderExact(prev: bytes, key: bytes)
    ensures KeyOrder(Some(prev), key) == None <==> Precedes(prev, key)
    ensures KeyOrder(Some(prev), key) == Some(MapKeysNotSorted) <==> Precedes(key, prev)
    ensures KeyOrder(Some(prev), key) == Some(DuplicateMapKey) <==> prev == key
  {
    hide Less, Precedes;
    LessIsLexicographic(prev, key);
    LessIsLexicographic(key, prev);
    LessTotal(prev, key);
    LessIrreflexive(key);
    if Less(prev, key) && Less(key, prev) { LessTransitive(key, prev, key); }
  }

  /** Which heads are refused, and how: reserved codes, indefinite lengths, missing bytes, and
      arguments that a shorter form would have carried. */
  lemma {:induction false} HeadErrors(s: bytes)
    ensures ReadHead(s) == Err(Truncated) <==> s == [] || (24 <= s[0] % 32 <= 27 && |s| - 1 < ArgBytes(s[0] % 32))
    ensures ReadHead(s) == Err(Reserved) <==> s != [] && 28 <= s[0] % 32 <= 30
    ensures ReadHead(s) == Err(IndefiniteLength) <==> s != [] && s[0] % 32 == 31
    ensures ReadHead(s).Err? ==> ReadHead(s).error in {Truncated, Reserved, IndefiniteLength, NotShortestForm}
  {
    hide FromBe;
  }

  /** 1, 2, 4 or 8. */
  function ArgBytes(info: int): (n: nat) {
    if info == 24 then 1 else if info == 25 then 2 else if info == 26 then 4 else 8
  }
}
