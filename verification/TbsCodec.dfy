/** The message builder as it runs: fields appended to a growing buffer, each append able to fail. */
module TbsCodec {
  import opened Bytes
  import opened CborCodec
  import opened HybridTypes
  import opened Framing
  import opened Tbs
  import opened TbsTheorems

  /** The encoding after the first `n` of the fields `fs`. */
  ghost function Partial(fs: seq<bytes>, n: nat): (s: bytes)
    requires n <= |fs| < 255
  {
    ContextDomain() + Tagged(fs[..n], 1)
  }

  lemma {:induction false} PartialStep(fs: seq<bytes>, n: nat)
    requires n < |fs| < 255
    ensures Partial(fs, n + 1) == Partial(fs, n) + ([n + 1] + Prefixed(fs[n]))
  {
    hide Prefixed, Tagged, ContextDomain;
    TaggedSnoc(fs[..n], 1, fs[n]);
    assert fs[..n] + [fs[n]] == fs[..n + 1];
  }

  /** Appends the tag and the length-prefixed value, an absent one as empty; when the length does
      not fit, only the tag. */
  method WriteField(out: Buffer, tag: byte, value: Option<bytes>) returns (r: Result<(), HybridError>)
    modifies out
    ensures r == if |Flat(value)| < U32_LIMIT then Ok(()) else Err(ResourceLimitExceeded)
    ensures out.data == old(out.data) + ([tag] + if r.Ok? then Prefixed(Flat(value)) else [])
  {
    hide Prefixed;
    out.Push(tag);
    r := WritePrefixed(out, if value.None? then [] else value.value);
  }

  /** Appends the next of the fields `fs`, which `tag` counts from 1. */
  method NextField(out: Buffer, tag: byte, value: Option<bytes>, ghost fs: seq<bytes>)
    returns (r: Result<(), HybridError>)
    requires 1 <= tag <= |fs| < 255 && out.data == Partial(fs, tag - 1) && Flat(value) == fs[tag - 1]
    modifies out
    ensures r == if |Flat(value)| < U32_LIMIT then Ok(()) else Err(ResourceLimitExceeded)
    ensures r.Ok? ==> out.data == Partial(fs, tag)
  {
    hide Prefixed, Partial;
    PartialStep(fs, tag - 1);
    r := WriteField(out, tag, value);
  }

  method WriteContext(p: Purpose, c: Context) returns (r: Result<bytes, HybridError>)
    ensures r == if CommonError(c).Some? then Err(CommonError(c).value)
                 else if !PurposeAllows(p, c) then Err(PolicyDenied) else Ok(EncodeContext(c))
  {
    hide Partial, ContextFields, EncodeContext, ContextDomain, CommonError, PurposeAllows, ToBe, Prefixed, Short,
      ContextOk;
    if CommonError(c).Some? { return Err(CommonError(c).value); }
    if !PurposeAllows(p, c) { return Err(PolicyDenied); }
    ContextFits(p, c);
    var out := new Buffer();
    out.Extend(ContextDomain());
    ghost var fs := ContextFields(c);
    FromFirstToLast(c);
    FieldValues(p, c);
    var f := NextField(out, 1, Some(c.walletIdentity), fs);
    assert f.Ok?;
    f := NextField(out, 2, c.issuerIdentity, fs);
    assert f.Ok?;
    f := NextField(out, 3, Some(ToBe(c.keyGeneration, 8)), fs);
    assert f.Ok?;
    f := NextField(out, 4, c.transactionId, fs);
    assert f.Ok?;
    f := NextField(out, 5, c.sessionId, fs);
    assert f.Ok?;
    f := NextField(out, 6, c.audience, fs);
    assert f.Ok?;
    f := NextField(out, 7, Some(c.nonce), fs);
    assert f.Ok?;
    f := NextField(out, 8, Some(ToBe(c.createdAt, 8)), fs);
    assert f.Ok?;
    f := NextField(out, 9, Some(ToBe(c.expiresAt, 8)), fs);
    assert f.Ok?;
    f := NextField(out, 10, c.transcriptHash, fs);
    assert f.Ok?;
    r := Ok(out.data);
  }

  lemma ContextFits(p: Purpose, c: Context)
    requires CommonError(c).None? && PurposeAllows(p, c)
    ensures ContextOk(p, c)
    ensures |EncodeContext(c)| < U32_LIMIT
  {
    hide PurposeAllows, EncodeContext, ContextFields;
    ContextLength(p, c);
  }

  lemma FromFirstToLast(c: Context)
    ensures Partial(ContextFields(c), 0) == ContextDomain()
    ensures Partial(ContextFields(c), 10) == EncodeContext(c)
  {
    hide ContextDomain, Prefixed, ContextFields;
    var fs := ContextFields(c);
    assert fs[..0] == [] && fs[..10] == fs;
  }

  lemma FieldValues(p: Purpose, c: Context)
    requires ContextOk(p, c)
    ensures var fs := ContextFields(c);
      && fs[0] == c.walletIdentity && fs[1] == Flat(c.issuerIdentity) && fs[2] == ToBe(c.keyGeneration, 8)
      && fs[3] == Flat(c.transactionId) && fs[4] == Flat(c.sessionId) && fs[5] == Flat(c.audience) && fs[6] == c.nonce
      && fs[7] == ToBe(c.createdAt, 8) && fs[8] == ToBe(c.expiresAt, 8) && fs[9] == Flat(c.transcriptHash)
    ensures forall i :: 0 <= i < 10 ==> |ContextFields(c)[i]| < U32_LIMIT
  {
    hide ToBe, PurposeAllows;
  }

  method WriteMessage(p: Purpose, context: bytes, payload: bytes) returns (r: Result<bytes, HybridError>)
    ensures r.Ok? <==> |context| < U32_LIMIT && |payload| < U32_LIMIT
    ensures r == if r.Ok? then Ok(TbsDomain() + Frames([ProfileId(), PurposeId(p), context, payload]))
                 else Err(ResourceLimitExceeded)
  {
    hide Frames, UpTo, Prefixed, TbsDomain, ProfileId, PurposeId;
    ghost var fs := [ProfileId(), PurposeId(p), context, payload];
    UpToEnds(TbsDomain(), fs);
    var out := new Buffer();
    out.Extend(TbsDomain());
    var f := WriteNext(out, ProfileId(), TbsDomain(), fs, 0);
    assert f.Ok?;
    f := WriteNext(out, PurposeId(p), TbsDomain(), fs, 1);
    assert f.Ok?;
    f := WriteNext(out, context, TbsDomain(), fs, 2);
    if f.Err? { return Err(f.error); }
    f := WriteNext(out, payload, TbsDomain(), fs, 3);
    if f.Err? { return Err(f.error); }
    r := Ok(out.data);
  }

  /** No length check ever fails here: the result is the specified one, error for error. */
  method BuildMessage(p: Purpose, c: Context, payload: bytes) returns (r: Result<bytes, HybridError>)
    ensures r == Build(p, c, payload)
    ensures r.Ok? ==> DecodeMessage(r.value) == Some(Signed(p, c, payload))
  {
    hide EncodeContext, DecodeMessage, Frames, CommonError, PurposeAllows, TbsDomain, ProfileId, PurposeId,
      ContextFields;
    if |payload| > MAX_FIELD_BYTES { return Err(ResourceLimitExceeded); }
    var context := WriteContext(p, c);
    if context.Err? { return Err(context.error); }
    ContextFits(p, c);
    r := WriteMessage(p, context.value, payload);
    MessageRoundTrip(p, c, payload);
  }
}
