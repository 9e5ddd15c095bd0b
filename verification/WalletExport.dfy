/** The signed wallet export: a magic, then fixed-width numbers and length-prefixed fields. */
module WalletExport {
  import opened Bytes
  import opened Utf8
  import opened HybridTypes
  import opened StrictMap
  import opened Framing
  import opened Tbs

  const HYBRID_EXPORT_VERSION: nat := 2
  const MAX_CHECKPOINT_BYTES: nat := 33554432
  const MAX_EXPORT_BYTES: nat := 33587200
  const MAX_IDENTITY_BYTES: nat := 128
  const MAX_PROFILE_BYTES: nat := 64

  function ExportMagic(): (m: bytes)
    ensures |m| == 26
  {
    Ascii("EUWALLET-HYBRID-EXPORT-V2") + [0]
  }

  type u16 = n: int | 0 <= n < 0x1_0000

  /** The identity is UTF-8 text; the profile is the only one there is. */
  datatype Export = Export(
    version: u16, walletIdentity: bytes, keyGeneration: u64, checkpointGeneration: u64, nonce: bytes, createdAt: u64,
    expiresAt: u64, checkpoint: bytes, digest: Hash, keyEnvelope: bytes, signatureEnvelope: bytes)

  /** The constructor's one test. */
  predicate Unacceptable(e: Export) {
    || e.walletIdentity == [] || |e.walletIdentity| > MAX_IDENTITY_BYTES
    || e.keyGeneration == 0 || e.checkpointGeneration == 0
    || |e.nonce| < MIN_NONCE_BYTES || |e.nonce| > MAX_NONCE_BYTES
    || e.createdAt >= e.expiresAt
    || e.checkpoint == [] || |e.checkpoint| > MAX_CHECKPOINT_BYTES
    || e.keyEnvelope == [] || |e.keyEnvelope| > MAX_ENVELOPE_BYTES
    || e.signatureEnvelope == [] || |e.signatureEnvelope| > MAX_ENVELOPE_BYTES
  }

  /** The exports there are: version 2, UTF-8 identity, positive generations, a nonce of 16 to 64
      bytes, a validity period, a checkpoint of at most 32 MiB and two envelopes of at most 8 KiB. */
  predicate ExportOk(e: Export) {
    && e.version == 2
    && 1 <= |e.walletIdentity| <= 128 && ValidUtf8(e.walletIdentity)
    && e.keyGeneration > 0 && e.checkpointGeneration > 0
    && 16 <= |e.nonce| <= 64 && e.createdAt < e.expiresAt
    && 1 <= |e.checkpoint| <= 33554432 && 1 <= |e.keyEnvelope| <= 8192 && 1 <= |e.signatureEnvelope| <= 8192
  }

  // ------------------------------------------------------------ the fields, one kind at a time

  datatype Kind = Version | ProfileName | Identity | Number | Nonce | Checkpoint | Digest | EnvelopeBytes

  function Layout(): (ks: seq<Kind>)
    ensures |ks| == 12
  {
    [Version, ProfileName, Identity, Number, Number, Nonce, Number, Number, Checkpoint, Digest, EnvelopeBytes,
     EnvelopeBytes]
  }

  /** Fixed-width kinds have a width, the others a largest length. */
  function Width(k: Kind): (n: nat) {
    match k
    case Version => 2
    case ProfileName => MAX_PROFILE_BYTES
    case Identity => MAX_IDENTITY_BYTES
    case Number => 8
    case Nonce => MAX_NONCE_BYTES
    case Checkpoint => MAX_CHECKPOINT_BYTES
    case Digest => 32
    case EnvelopeBytes => MAX_ENVELOPE_BYTES
  }

  predicate Fixed(k: Kind) { k.Version? || k.Number? || k.Digest? }

  function WriteKind(k: Kind, v: bytes): (s: bytes) { if Fixed(k) then v else Prefixed(v) }

  function WriteAll(ks: seq<Kind>, fs: seq<bytes>): (s: bytes)
    requires |ks| == |fs|
  {
    if ks == [] then [] else WriteKind(ks[0], fs[0]) + WriteAll(ks[1..], fs[1..])
  }

  function FieldsOf(e: Export): (fs: seq<bytes>)
    ensures |fs| == 12
  {
    [ToBe(e.version, 2), ProfileId(), e.walletIdentity, ToBe(e.keyGeneration, 8), ToBe(e.checkpointGeneration, 8),
     e.nonce, ToBe(e.createdAt, 8), ToBe(e.expiresAt, 8), e.checkpoint, e.digest, e.keyEnvelope, e.signatureEnvelope]
  }

  function Encode(e: Export): (s: bytes) { ExportMagic() + WriteAll(Layout(), FieldsOf(e)) }

  // ------------------------------------------------------------ the cursor

  type Read = Result<(bytes, bytes), HybridError>

  function TakeFixed(s: bytes, n: nat): (r: Read) {
    if |s| < n then Err(NonCanonicalInput) else Ok((s[..n], s[n..]))
  }

  function TakeField(s: bytes, limit: nat): (r: Read) {
    match TakeFixed(s, 4)
    case Err(e) => Err(e)
    case Ok(x) =>
      var n := FromBe(x.0);
      if n == 0 || n > limit then Err(ResourceLimitExceeded) else TakeFixed(x.1, n)
  }

  /** What is asked of a value as soon as it has been read. */
  function KindError(k: Kind, v: bytes): (r: Option<HybridError>) {
    match k
    case Version => if FromBe(v) != HYBRID_EXPORT_VERSION then Some(UnsupportedProfile) else None
    case ProfileName => if v != ProfileId() then Some(UnsupportedProfile) else None
    case Identity => if !ValidUtf8(v) then Some(NonCanonicalInput) else None
    case _ => None
  }

  function TakeKind(k: Kind, s: bytes): (r: Read) {
    match (if Fixed(k) then TakeFixed(s, Width(k)) else TakeField(s, Width(k)))
    case Err(e) => Err(e)
    case Ok(x) => if KindError(k, x.0).Some? then Err(KindError(k, x.0).value) else Ok(x)
  }

  /** All values, then the end of the input. */
  function ReadAll(ks: seq<Kind>, s: bytes): (r: Result<seq<bytes>, HybridError>)
    ensures r.Ok? ==> |r.value| == |ks|
  {
    if ks == [] then if s == [] then Ok([]) else Err(NonCanonicalInput)
    else
      match TakeKind(ks[0], s)
      case Err(e) => Err(e)
      case Ok(x) => match ReadAll(ks[1..], x.1) case Err(e) => Err(e) case Ok(xs) => Ok([x.0] + xs)
  }

  function Number64(v: bytes): (n: u64) { if |v| == 8 then NumberFits(v); FromBe(v) else 0 }

  lemma NumberFits(v: bytes)
    requires |v| == 8
    ensures FromBe(v) < U64_LIMIT
  {
    hide FromBe, ToBe;
    ToFromBe(v);
    Pow256Values();
  }

  function TryNew(fs: seq<bytes>): (r: Result<Export, HybridError>)
    requires |fs| == 12 && |fs[9]| == 32
  {
    var e := Export(HYBRID_EXPORT_VERSION, fs[2], Number64(fs[3]), Number64(fs[4]), fs[5], Number64(fs[6]),
                    Number64(fs[7]), fs[8], fs[9], fs[10], fs[11]);
    if Unacceptable(e) then Err(NonCanonicalInput) else Ok(e)
  }

  /** All fields, then the constructor. */
  function ReadExport(body: bytes): (r: Result<Export, HybridError>) {
    match ReadAll(Layout(), body)
    case Err(e) => Err(e)
    case Ok(fs) => DigestWidth(body); TryNew(fs)
  }

  function Decode(input: bytes): (r: Result<Export, HybridError>) {
    if |input| > MAX_EXPORT_BYTES || !(ExportMagic() <= input) then Err(NonCanonicalInput)
    else
      match ReadExport(input[|ExportMagic()|..])
      case Err(e) => Err(e)
      case Ok(e) => if Encode(e) != input then Err(NonCanonicalInput) else Ok(e)
  }

  // ------------------------------------------------------------ one field reads back exactly

  predicate KindOk(k: Kind, v: bytes) {
    (if Fixed(k) then |v| == Width(k) else 0 < |v| <= Width(k)) && KindError(k, v).None?
  }

  lemma {:induction false} TakeKindSound(k: Kind, s: bytes)
    requires TakeKind(k, s).Ok?
    ensures var x := TakeKind(k, s).value; KindOk(k, x.0) && s == WriteKind(k, x.0) + x.1
  {
    hide ToBe, FromBe, ValidUtf8, ProfileId, KindError;
    if !Fixed(k) {
      var n := FromBe(s[..4]);
      ToFromBe(s[..4]);
      assert s == s[..4] + (s[4..][..n] + s[4..][n..]);
    }
  }

  lemma {:induction false} TakeKindComplete(k: Kind, v: bytes, rest: bytes)
    requires KindOk(k, v)
    ensures TakeKind(k, WriteKind(k, v) + rest) == Ok((v, rest))
  {
    hide ToBe, FromBe, ValidUtf8, ProfileId, KindError, Pow256;
    var s := WriteKind(k, v) + rest;
    if Fixed(k) {
      assert s[..|v|] == v && s[|v|..] == rest;
    } else {
      Pow256Values();
      FromToBe(|v|, 4);
      assert s[..4] == ToBe(|v|, 4) && s[4..][..|v|] == v && s[4..][|v|..] == rest;
    }
  }

  ghost predicate AllOk(ks: seq<Kind>, fs: seq<bytes>) {
    |ks| == |fs| && forall i :: 0 <= i < |ks| ==> KindOk(ks[i], fs[i])
  }

  /** Reading a run of fields accepts exactly the written runs, whatever the layout. */
  lemma {:induction false} ReadAllExact(ks: seq<Kind>, s: bytes, fs: seq<bytes>)
    ensures ReadAll(ks, s) == Ok(fs) <==> AllOk(ks, fs) && s == WriteAll(ks, fs)
  {
    hide TakeKind, WriteKind, KindOk;
    if ks != [] {
      if ReadAll(ks, s) == Ok(fs) {
        var x := TakeKind(ks[0], s).value;
        TakeKindSound(ks[0], s);
        ReadAllExact(ks[1..], x.1, fs[1..]);
        AllOkStep(ks, fs);
      }
      if AllOk(ks, fs) && s == WriteAll(ks, fs) {
        var more := WriteAll(ks[1..], fs[1..]);
        TakeKindComplete(ks[0], fs[0], more);
        AllOkStep(ks, fs);
        ReadAllExact(ks[1..], more, fs[1..]);
        assert fs == [fs[0]] + fs[1..];
      }
    }
  }

  lemma AllOkStep(ks: seq<Kind>, fs: seq<bytes>)
    requires |ks| == |fs| > 0
    ensures AllOk(ks, fs) <==> KindOk(ks[0], fs[0]) && AllOk(ks[1..], fs[1..])
  {
    hide KindOk;
    if KindOk(ks[0], fs[0]) && AllOk(ks[1..], fs[1..]) {
      forall i | 0 <= i < |ks| ensures KindOk(ks[i], fs[i]) {
        if i > 0 { assert KindOk(ks[1..][i - 1], fs[1..][i - 1]); }
      }
    }
  }

  lemma {:induction false} DigestWidth(s: bytes)
    requires ReadAll(Layout(), s).Ok?
    ensures |ReadAll(Layout(), s).value[9]| == 32
  {
    hide ReadAll, WriteAll, KindError;
    var fs := ReadAll(Layout(), s).value;
    ReadAllExact(Layout(), s, fs);
    assert KindOk(Layout()[9], fs[9]);
  }

  // ------------------------------------------------------------ the codec

  lemma {:induction false} VersionReads()
    ensures FromBe(ToBe(HYBRID_EXPORT_VERSION, 2)) == HYBRID_EXPORT_VERSION
  {
    hide ToBe, FromBe, Pow256;
    Pow256Values();
    FromToBe(HYBRID_EXPORT_VERSION, 2);
  }

  lemma {:induction false} NumberReads(n: u64)
    ensures Number64(ToBe(n, 8)) == n
  {
    hide ToBe, FromBe, Pow256;
    Pow256Values();
    FromToBe(n, 8);
  }

  lemma {:induction false} NumberWrites(v: bytes)
    requires |v| == 8
    ensures ToBe(Number64(v), 8) == v
  {
    hide ToBe, FromBe;
    ToFromBe(v);
  }

  lemma {:induction false} VersionWrites(v: bytes)
    requires |v| == 2 && FromBe(v) == HYBRID_EXPORT_VERSION
    ensures v == ToBe(HYBRID_EXPORT_VERSION, 2)
  {
    hide ToBe, FromBe;
    ToFromBe(v);
  }

  /** A constructed export has fields the reader accepts, and they rebuild it. */
  lemma {:induction false} FieldsAccepted(e: Export)
    requires ExportOk(e)
    ensures AllOk(Layout(), FieldsOf(e)) && TryNew(FieldsOf(e)) == Ok(e)
  {
    hide ToBe, FromBe, ValidUtf8, ProfileId, Number64;
    VersionReads();
    NumberReads(e.keyGeneration);
    NumberReads(e.checkpointGeneration);
    NumberReads(e.createdAt);
    NumberReads(e.expiresAt);
  }

  /** Fields the reader accepts are the fields of the export they build. */
  lemma {:induction false} FieldsRebuilt(fs: seq<bytes>)
    requires AllOk(Layout(), fs) && |fs[9]| == 32 && TryNew(fs).Ok?
    ensures ExportOk(TryNew(fs).value) && FieldsOf(TryNew(fs).value) == fs
  {
    hide ToBe, FromBe, ValidUtf8, ProfileId, Number64;
    var ks := Layout();
    assert KindOk(ks[0], fs[0]) && KindOk(ks[1], fs[1]) && KindOk(ks[2], fs[2]) && KindOk(ks[3], fs[3]);
    assert KindOk(ks[4], fs[4]) && KindOk(ks[6], fs[6]) && KindOk(ks[7], fs[7]);
    VersionWrites(fs[0]);
    NumberWrites(fs[3]);
    NumberWrites(fs[4]);
    NumberWrites(fs[6]);
    NumberWrites(fs[7]);
  }

  /** The closing comparison can never reject: whatever the cursor and the constructor accept
      re-encodes to the input. */
  lemma {:induction false} FinalCheckRedundant(input: bytes)
    requires ExportMagic() <= input && ReadExport(input[|ExportMagic()|..]).Ok?
    ensures Encode(ReadExport(input[|ExportMagic()|..]).value) == input
  {
    hide ExportMagic, ReadAll, WriteAll, TryNew, Layout, FieldsOf, ExportOk, AllOk;
    var body := input[|ExportMagic()|..];
    var fs := ReadAll(Layout(), body).value;
    DigestWidth(body);
    ReadAllExact(Layout(), body, fs);
    FieldsRebuilt(fs);
    assert input == ExportMagic() + body;
  }

  lemma {:induction false} WriteAllLength(ks: seq<Kind>, fs: seq<bytes>)
    requires AllOk(ks, fs)
    ensures |WriteAll(ks, fs)| <= Budget(ks)
  {
    hide ToBe, KindError;
    if ks != [] {
      AllOkStep(ks, fs);
      WriteAllLength(ks[1..], fs[1..]);
      assert KindOk(ks[0], fs[0]);
    }
  }

  /** The most bytes a layout can take. */
  function Budget(ks: seq<Kind>): (n: nat) { if ks == [] then 0 else Width(ks[0]) + 4 + Budget(ks[1..]) }

  lemma {:induction false} BudgetSplit(ks: seq<Kind>, more: seq<Kind>)
    ensures Budget(ks + more) == Budget(ks) + Budget(more)
  {
    if ks == [] {
      assert ks + more == more;
    } else {
      assert (ks + more)[1..] == ks[1..] + more;
      BudgetSplit(ks[1..], more);
    }
  }

  lemma {:induction false} LayoutBudget()
    ensures Budget(Layout()) == MAX_CHECKPOINT_BYTES + 16754
  {
    hide Budget;
    var a, b, c := [Version, ProfileName, Identity, Number], [Number, Nonce, Number, Number],
      [Checkpoint, Digest, EnvelopeBytes,
     EnvelopeBytes];
    BudgetSplit(a, b + c);
    BudgetSplit(b, c);
    assert Layout() == a + (b + c);
    BudgetOfFour(Version, ProfileName, Identity, Number);
    BudgetOfFour(Number, Nonce, Number, Number);
    BudgetOfFour(Checkpoint, Digest, EnvelopeBytes, EnvelopeBytes);
  }

  lemma {:induction false} BudgetOfFour(a: Kind, b: Kind, c: Kind, d: Kind)
    ensures Budget([a, b, c, d]) == Width(a) + Width(b) + Width(c) + Width(d) + 16
  {
    hide Width;
    BudgetSplit([a, b], [c, d]);
    assert [a, b, c, d] == [a, b] + [c, d];
    assert [a, b][1..] == [b] && [c, d][1..] == [d] && [b][1..] == [] && [d][1..] == [];
  }

  /** A constructed export always fits under the reader's size limit. */
  lemma {:induction false} ExportFits(e: Export)
    requires ExportOk(e)
    ensures |Encode(e)| <= MAX_EXPORT_BYTES
  {
    hide Layout, FieldsOf, ExportOk, AllOk, WriteAll, Budget, TryNew;
    FieldsAccepted(e);
    WriteAllLength(Layout(), FieldsOf(e));
    LayoutBudget();
  }

  /** Decoding accepts exactly the encodings of constructed exports, and returns the export. */
  lemma {:induction false} ExportExact(input: bytes, e: Export)
    ensures Decode(input) == Ok(e) <==> ExportOk(e) && input == Encode(e)
  {
    hide ExportMagic, ReadAll, WriteAll, TryNew, Layout, FieldsOf, ExportOk, AllOk;
    if Decode(input) == Ok(e) {
      var body := input[|ExportMagic()|..];
      var fs := ReadAll(Layout(), body).value;
      DigestWidth(body);
      ReadAllExact(Layout(), body, fs);
      FieldsRebuilt(fs);
    }
    if ExportOk(e) && input == Encode(e) {
      var m, body := ExportMagic(), WriteAll(Layout(), FieldsOf(e));
      assert (m + body)[..|m|] == m && (m + body)[|m|..] == body;
      FieldsAccepted(e);
      ReadAllExact(Layout(), body, FieldsOf(e));
      ExportFits(e);
    }
  }

  // ------------------------------------------------------------ the signed commitment

  function CommitmentDomain(): (d: bytes) ensures |d| == 36 { Ascii("EUWALLET-HYBRID-EXPORT-COMMITMENT-V1") }

  function SignedCommitment(e: Export): (s: bytes) {
    CommitmentDomain() + (ToBe(e.checkpointGeneration, 8) + (ToBe(|e.checkpoint|, 8) + e.digest))
  }

  /** The commitment fits the signed payload and fixes generation, checkpoint length and digest. */
  lemma {:induction false} CommitmentBinds(e: Export, f: Export)
    ensures |SignedCommitment(e)| <= MAX_FIELD_BYTES
    ensures |e.checkpoint| < U64_LIMIT && |f.checkpoint| < U64_LIMIT && SignedCommitment(e) == SignedCommitment(f) ==>
      e.checkpointGeneration == f.checkpointGeneration && |e.checkpoint| == |f.checkpoint| && e.digest == f.digest
  {
    hide ToBe, CommitmentDomain, Pow256;
    if |e.checkpoint| < U64_LIMIT && |f.checkpoint| < U64_LIMIT && SignedCommitment(e) == SignedCommitment(f) {
      var d := CommitmentDomain();
      var x, y := ToBe(|e.checkpoint|, 8) + e.digest, ToBe(|f.checkpoint|, 8) + f.digest;
      CutEqual(d, ToBe(e.checkpointGeneration, 8) + x, d, ToBe(f.checkpointGeneration, 8) + y);
      CutEqual(ToBe(e.checkpointGeneration, 8), x, ToBe(f.checkpointGeneration, 8), y);
      CutEqual(ToBe(|e.checkpoint|, 8), e.digest, ToBe(|f.checkpoint|, 8), f.digest);
      Pow256Values();
      ToBeInjective(e.checkpointGeneration, f.checkpointGeneration, 8);
      ToBeInjective(|e.checkpoint|, |f.checkpoint|, 8);
    }
  }

  /** Domain, checkpoint generation, checkpoint length and digest, each at its own offset. */
  lemma {:induction false} CommitmentLayout(e: Export)
    requires |e.checkpoint| < U64_LIMIT
    ensures var s := SignedCommitment(e);
      && |s| == 84 && s[..36] == CommitmentDomain()
      && FromBe(s[36..44]) == e.checkpointGeneration && FromBe(s[44..52]) == |e.checkpoint| && s[52..] == e.digest
  {
    hide ToBe, FromBe, CommitmentDomain, Pow256;
    var s := SignedCommitment(e);
    assert s[36..44] == ToBe(e.checkpointGeneration, 8) && s[44..52] == ToBe(|e.checkpoint|, 8);
    Pow256Values();
    FromToBe(e.checkpointGeneration, 8);
    FromToBe(|e.checkpoint|, 8);
  }
}
