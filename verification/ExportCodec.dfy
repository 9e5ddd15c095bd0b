/** The export codec as it runs: a cursor with an offset, and an encoder that appends to a buffer. */
module ExportCodec {
  import opened Bytes
  import opened Utf8
  import opened CborCodec
  import opened HybridTypes
  import opened Framing
  import opened WalletExport

  class ExportCursor {
    const input: bytes
    var offset: nat

    constructor (input: bytes)
      ensures this.input == input && offset == 0
    {
      this.input := input;
      offset := 0;
    }

    ghost predicate Valid()
      reads this
    {
      offset <= |input|
    }

    ghost function Rest(): (s: bytes)
      reads this
      requires Valid()
    {
      input[offset..]
    }

    method Take(length: nat) returns (r: Result<bytes, HybridError>)
      requires Valid()
      modifies this`offset
      ensures Valid()
      ensures var x := TakeFixed(old(Rest()), length);
        (r.Err? ==> x == Err(r.error)) && (r.Ok? ==> x == Ok((r.value, Rest())))
    {
      ghost var s := Rest();
      var end := offset + length;
      if end > |input| { return Err(NonCanonicalInput); }
      r := Ok(input[offset..end]);
      assert input[offset..end] == s[..length];
      offset := end;
      assert Rest() == s[length..];
    }

    method Field(maximum: nat) returns (r: Result<bytes, HybridError>)
      requires Valid()
      modifies this`offset
      ensures Valid()
      ensures var x := TakeField(old(Rest()), maximum);
        (r.Err? ==> x == Err(r.error)) && (r.Ok? ==> x == Ok((r.value, Rest())))
    {
      hide FromBe;
      var head := Take(4);
      if head.Err? { return Err(head.error); }
      var length := FromBe(head.value);
      if length == 0 || length > maximum { return Err(ResourceLimitExceeded); }
      r := Take(length);
    }

    /** The next value of the layout, with the check that follows it; `s` is the whole body and
        `done` what was read of it. */
    method Next(k: Kind, ghost s: bytes, ghost done: seq<bytes>) returns (r: Result<bytes, HybridError>)
      requires Valid() && |done| < 12 && k == Layout()[|done|] && Sofar(s, done, Rest())
      modifies this`offset
      ensures Valid()
      ensures r.Ok? ==> Sofar(s, done + [r.value], Rest())
      ensures r.Err? ==> ReadAll(Layout(), s) == Err(r.error)
    {
      hide Layout, Sofar, TakeFixed, TakeField, ProfileId, ValidUtf8, FromBe;
      Advance(s, done, Rest());
      match k
      case Version =>
        r := Take(2);
        if r.Ok? && FromBe(r.value) != 2 { r := Err(UnsupportedProfile); }
      case ProfileName =>
        r := Field(64);
        if r.Ok? && r.value != ProfileId() { r := Err(UnsupportedProfile); }
      case Identity =>
        r := Field(128);
        if r.Ok? && !ValidUtf8(r.value) { r := Err(NonCanonicalInput); }
      case Number => r := Take(8);
      case Nonce => r := Field(64);
      case Checkpoint => r := Field(33554432);
      case Digest => r := Take(32);
      case EnvelopeBytes => r := Field(8192);
    }

    method Done() returns (b: bool)
      requires Valid()
      ensures b == (Rest() == [])
    {
      b := offset == |input|;
    }
  }

  function Prepend(done: seq<bytes>, more: Result<seq<bytes>, HybridError>): (r: Result<seq<bytes>, HybridError>) {
    match more case Err(e) => Err(e) case Ok(xs) => Ok(done + xs)
  }

  /** The values `done` were read off the front of `s` and `rest` is left. */
  ghost predicate Sofar(s: bytes, done: seq<bytes>, rest: bytes) {
    |done| <= 12 && ReadAll(Layout(), s) == Prepend(done, ReadAll(Layout()[|done|..], rest))
  }

  lemma {:induction false} Advance(s: bytes, done: seq<bytes>, rest: bytes)
    requires Sofar(s, done, rest) && |done| < 12
    ensures var x := TakeKind(Layout()[|done|], rest);
      && (x.Err? ==> ReadAll(Layout(), s) == Err(x.error))
      && (x.Ok? ==> Sofar(s, done + [x.value.0], x.value.1))
  {
    hide TakeKind;
    var ks, x := Layout()[|done|..], TakeKind(Layout()[|done|], rest);
    assert ks[0] == Layout()[|done|] && ks[1..] == Layout()[|done| + 1..];
    if x.Ok? {
      var more := ReadAll(ks[1..], x.value.1);
      if more.Ok? { assert done + ([x.value.0] + more.value) == (done + [x.value.0]) + more.value; }
    }
  }

  lemma {:induction false} Ends(s: bytes, done: seq<bytes>, rest: bytes)
    ensures Sofar(s, [], s)
    ensures |done| == 12 && Sofar(s, done, rest) ==>
      ReadAll(Layout(), s) == if rest == [] then Ok(done) else Err(NonCanonicalInput)
  {
    hide TakeKind, Layout;
    assert Layout()[0..] == Layout();
    var more := ReadAll(Layout(), s);
    if more.Ok? { assert [] + more.value == more.value; }
    if |done| == 12 {
      assert Layout()[12..] == [] && done + [] == done;
    }
  }

  method DecodeExport(input: bytes) returns (r: Result<Export, HybridError>)
    ensures r == Decode(input)
    ensures forall e :: r == Ok(e) <==> ExportOk(e) && input == Encode(e)
  {
    hide Sofar, Encode, ReadAll, TryNew, ExportMagic, ExportOk;
    forall e ensures Decode(input) == Ok(e) <==> ExportOk(e) && input == Encode(e) { ExportExact(input, e); }
    if |input| > MAX_EXPORT_BYTES || !(ExportMagic() <= input) { return Err(NonCanonicalInput); }
    var cursor := new ExportCursor(input[|ExportMagic()|..]);
    ghost var s := input[|ExportMagic()|..];
    assert cursor.Rest() == s;
    var fs := ReadFields(cursor, s);
    if fs.Err? { return Err(fs.error); }
    var e := TryNew(fs.value);
    if e.Err? { return Err(e.error); }
    var again := EncodeExport(e.value);
    FinalCheckRedundant(input);
    assert again == input;
    r := Ok(e.value);
  }

  /** Version, profile, identity, both generations and the nonce. */
  method ReadHeader(cursor: ExportCursor, ghost s: bytes) returns (r: Result<seq<bytes>, HybridError>)
    requires cursor.Valid() && cursor.Rest() == s
    modifies cursor`offset
    ensures cursor.Valid()
    ensures r.Ok? ==> |r.value| == 6 && Sofar(s, r.value, cursor.Rest())
    ensures r.Err? ==> ReadAll(Layout(), s) == Err(r.error)
  {
    hide Sofar, ReadAll, TakeKind;
    Ends(s, [], s);
    var fs: seq<bytes> := [];
    var v := cursor.Next(Version, s, fs);
    if v.Err? { return Err(v.error); }
    fs := fs + [v.value];
    v := cursor.Next(ProfileName, s, fs);
    if v.Err? { return Err(v.error); }
    fs := fs + [v.value];
    v := cursor.Next(Identity, s, fs);
    if v.Err? { return Err(v.error); }
    fs := fs + [v.value];
    v := cursor.Next(Number, s, fs);
    if v.Err? { return Err(v.error); }
    fs := fs + [v.value];
    v := cursor.Next(Number, s, fs);
    if v.Err? { return Err(v.error); }
    fs := fs + [v.value];
    v := cursor.Next(Nonce, s, fs);
    if v.Err? { return Err(v.error); }
    fs := fs + [v.value];
    r := Ok(fs);
  }

  /** The rest: validity period, checkpoint, digest and the two envelopes. */
  method ReadFields(cursor: ExportCursor, ghost s: bytes) returns (r: Result<seq<bytes>, HybridError>)
    requires cursor.Valid() && cursor.Rest() == s
    modifies cursor`offset
    ensures r == ReadAll(Layout(), s)
    ensures r.Ok? ==> |r.value| == 12 && |r.value[9]| == 32
  {
    hide Sofar, ReadAll, TakeKind;
    var header := ReadHeader(cursor, s);
    if header.Err? { return Err(header.error); }
    var fs := header.value;
    var v := cursor.Next(Number, s, fs);
    if v.Err? { return Err(v.error); }
    fs := fs + [v.value];
    v := cursor.Next(Number, s, fs);
    if v.Err? { return Err(v.error); }
    fs := fs + [v.value];
    v := cursor.Next(Checkpoint, s, fs);
    if v.Err? { return Err(v.error); }
    fs := fs + [v.value];
    v := cursor.Next(Digest, s, fs);
    if v.Err? { return Err(v.error); }
    fs := fs + [v.value];
    v := cursor.Next(EnvelopeBytes, s, fs);
    if v.Err? { return Err(v.error); }
    fs := fs + [v.value];
    v := cursor.Next(EnvelopeBytes, s, fs);
    if v.Err? { return Err(v.error); }
    fs := fs + [v.value];
    Ends(s, fs, cursor.Rest());
    var done := cursor.Done();
    if !done { return Err(NonCanonicalInput); }
    DigestWidth(s);
    r := Ok(fs);
  }

  // ------------------------------------------------------------ encoding

  /** The encoding after the first `n` fields. */
  ghost function Partial(e: Export, n: nat): (s: bytes)
    requires n <= 12
  {
    ExportMagic() + WriteAll(Layout()[..n], FieldsOf(e)[..n])
  }

  lemma {:induction false} WriteAllSnoc(ks: seq<Kind>, fs: seq<bytes>, k: Kind, v: bytes)
    requires |ks| == |fs|
    ensures WriteAll(ks + [k], fs + [v]) == WriteAll(ks, fs) + WriteKind(k, v)
  {
    hide WriteKind;
    if ks == [] {
      assert ([k])[1..] == [] && ([v])[1..] == [];
    } else {
      assert (ks + [k])[1..] == ks[1..] + [k] && (fs + [v])[1..] == fs[1..] + [v];
      WriteAllSnoc(ks[1..], fs[1..], k, v);
    }
  }

  lemma {:induction false} PartialStep(e: Export, n: nat)
    requires n < 12
    ensures Partial(e, n + 1) == Partial(e, n) + WriteKind(Layout()[n], FieldsOf(e)[n])
  {
    hide WriteKind, WriteAll, Layout, FieldsOf, ExportMagic;
    var ks, fs := Layout(), FieldsOf(e);
    WriteAllSnoc(ks[..n], fs[..n], ks[n], fs[n]);
    assert ks[..n] + [ks[n]] == ks[..n + 1] && fs[..n] + [fs[n]] == fs[..n + 1];
  }

  lemma {:induction false} PartialEnds(e: Export)
    ensures Partial(e, 0) == ExportMagic() && Partial(e, 12) == Encode(e)
  {
    hide WriteKind, Layout, FieldsOf, ExportMagic;
    assert Layout()[..12] == Layout() && FieldsOf(e)[..12] == FieldsOf(e);
  }

  /** Appends a 32-bit length, truncated as the cast does, and the value. */
  method WriteExportField(out: Buffer, value: bytes)
    modifies out
    ensures out.data == old(out.data) + Prefixed(value)
  {
    hide ToBe;
    out.Extend(ToBe(|value|, 4));
    out.Extend(value);
  }

  method NextField(out: Buffer, value: bytes, ghost e: Export, ghost n: nat)
    requires n < 12 && out.data == Partial(e, n) && !Fixed(Layout()[n]) && value == FieldsOf(e)[n]
    modifies out
    ensures out.data == Partial(e, n + 1)
  {
    hide Partial, Layout, FieldsOf, Prefixed;
    PartialStep(e, n);
    WriteExportField(out, value);
  }

  method NextFixed(out: Buffer, value: bytes, ghost e: Export, ghost n: nat)
    requires n < 12 && out.data == Partial(e, n) && Fixed(Layout()[n]) && value == FieldsOf(e)[n]
    modifies out
    ensures out.data == Partial(e, n + 1)
  {
    hide Partial, Layout, FieldsOf;
    PartialStep(e, n);
    out.Extend(value);
  }

  method EncodeExport(e: Export) returns (s: bytes)
    ensures s == Encode(e)
  {
    hide Partial, Encode, ExportMagic, ToBe, ProfileId, Prefixed;
    PartialEnds(e);
    var out := new Buffer();
    out.Extend(ExportMagic());
    NextFixed(out, ToBe(e.version, 2), e, 0);
    NextField(out, ProfileId(), e, 1);
    NextField(out, e.walletIdentity, e, 2);
    NextFixed(out, ToBe(e.keyGeneration, 8), e, 3);
    NextFixed(out, ToBe(e.checkpointGeneration, 8), e, 4);
    NextField(out, e.nonce, e, 5);
    NextFixed(out, ToBe(e.createdAt, 8), e, 6);
    NextFixed(out, ToBe(e.expiresAt, 8), e, 7);
    NextField(out, e.checkpoint, e, 8);
    NextFixed(out, e.digest, e, 9);
    NextField(out, e.keyEnvelope, e, 10);
    NextField(out, e.signatureEnvelope, e, 11);
    s := out.data;
  }
}
