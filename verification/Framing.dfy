/** Fields behind a 32-bit big-endian length, as the signature, export and key-agreement formats
    of the hybrid profile write them, with a reader that undoes the writing. */
module Framing {
  import opened Bytes
  import opened CborCodec
  import opened HybridTypes

  /** `ToBe` keeps the low 32 bits, as the narrowing cast does. */
  function Prefixed(v: bytes): (s: bytes) { ToBe(|v|, 4) + v }

  function Frames(fs: seq<bytes>): (s: bytes) { if fs == [] then [] else Prefixed(fs[0]) + Frames(fs[1..]) }

  /** Fields numbered upward from `tag`. */
  function Tagged(fs: seq<bytes>, tag: nat): (s: bytes)
    requires tag + |fs| <= 256
  {
    if fs == [] then [] else ([tag] + Prefixed(fs[0])) + Tagged(fs[1..], tag + 1)
  }

  predicate Short(fs: seq<bytes>) { forall i :: 0 <= i < |fs| ==> |fs[i]| < U32_LIMIT }

  // ------------------------------------------------------------ reading

  function TakeFrame(s: bytes): (r: Option<(bytes, bytes)>)
    ensures r.Some? ==> |r.value.1| < |s|
  {
    if |s| < 4 then None
    else
      var n := FromBe(s[..4]);
      if |s| - 4 < n then None else Some((s[4..4 + n], s[4 + n..]))
  }

  function ReadFrames(s: bytes): (r: Option<seq<bytes>>)
    decreases |s|
  {
    if s == [] then Some([])
    else
      match TakeFrame(s)
      case None => None
      case Some(x) => match ReadFrames(x.1) case None => None case Some(xs) => Some([x.0] + xs)
  }

  function ReadTagged(s: bytes, tag: nat): (r: Option<seq<bytes>>)
    decreases |s|
  {
    if s == [] then Some([])
    else if s[0] != tag then None
    else
      match TakeFrame(s[1..])
      case None => None
      case Some(x) => match ReadTagged(x.1, tag + 1) case None => None case Some(xs) => Some([x.0] + xs)
  }

  lemma {:induction false} FrameReads(v: bytes, rest: bytes)
    requires |v| < U32_LIMIT
    ensures TakeFrame(Prefixed(v) + rest) == Some((v, rest))
  {
    hide ToBe, FromBe, Pow256;
    Pow256Values();
    FromToBe(|v|, 4);
    var s := Prefixed(v) + rest;
    assert s[..4] == ToBe(|v|, 4) && s[4..4 + |v|] == v && s[4 + |v|..] == rest;
  }

  /** Reading frames undoes writing them. */
  lemma {:induction false} FramesReadBack(fs: seq<bytes>)
    requires Short(fs)
    ensures ReadFrames(Frames(fs)) == Some(fs)
  {
    hide TakeFrame, ToBe;
    if fs != [] {
      FrameReads(fs[0], Frames(fs[1..]));
      FramesReadBack(fs[1..]);
      assert fs == [fs[0]] + fs[1..];
      assert |Prefixed(fs[0])| >= 4;
    }
  }

  lemma {:induction false} TaggedStep(v: bytes, tag: byte, more: bytes, vs: seq<bytes>)
    requires |v| < U32_LIMIT && ReadTagged(more, tag + 1) == Some(vs)
    ensures ReadTagged(([tag] + Prefixed(v)) + more, tag) == Some([v] + vs)
  {
    hide TakeFrame, Prefixed;
    FrameReads(v, more);
    assert (([tag] + Prefixed(v)) + more)[1..] == Prefixed(v) + more;
  }

  lemma {:induction false} TaggedReadBack(fs: seq<bytes>, tag: nat)
    requires Short(fs) && tag + |fs| <= 256
    ensures ReadTagged(Tagged(fs, tag), tag) == Some(fs)
    decreases fs
  {
    hide ReadTagged, Prefixed;
    if fs == [] {
      NothingTagged(tag);
    } else {
      TaggedReadBack(fs[1..], tag + 1);
      TaggedStep(fs[0], tag, Tagged(fs[1..], tag + 1), fs[1..]);
      assert fs == [fs[0]] + fs[1..];
    }
  }

  lemma NothingTagged(tag: nat)
    ensures ReadTagged([], tag) == Some([])
  {
  }

  /** What one frame list says can be said by no other. */
  lemma FramesInjective(fs: seq<bytes>, gs: seq<bytes>)
    requires Short(fs) && Short(gs) && Frames(fs) == Frames(gs)
    ensures fs == gs
  {
    FramesReadBack(fs);
    FramesReadBack(gs);
  }

  lemma {:induction false} FramesSnoc(fs: seq<bytes>, v: bytes)
    ensures Frames(fs + [v]) == Frames(fs) + Prefixed(v)
  {
    hide Prefixed;
    if fs == [] {
      assert ([v])[1..] == [];
    } else {
      assert (fs + [v])[1..] == fs[1..] + [v];
      FramesSnoc(fs[1..], v);
    }
  }

  lemma {:induction false} TaggedSnoc(fs: seq<bytes>, tag: nat, v: bytes)
    requires tag + |fs| + 1 <= 256
    ensures Tagged(fs + [v], tag) == Tagged(fs, tag) + ([tag + |fs|] + Prefixed(v))
    decreases fs
  {
    hide Prefixed;
    if fs == [] {
      assert ([v])[1..] == [];
    } else {
      assert (fs + [v])[1..] == fs[1..] + [v];
      TaggedSnoc(fs[1..], tag + 1, v);
    }
  }

  // ------------------------------------------------------------ writing to a buffer

  /** Fails, writing nothing, exactly when the length does not fit 32 bits. */
  method WritePrefixed(out: Buffer, v: bytes) returns (r: Result<(), HybridError>)
    modifies out
    ensures r == if |v| < U32_LIMIT then Ok(()) else Err(ResourceLimitExceeded)
    ensures out.data == if r.Ok? then old(out.data) + Prefixed(v) else old(out.data)
  {
    hide ToBe;
    if |v| >= U32_LIMIT { return Err(ResourceLimitExceeded); }
    out.Extend(ToBe(|v|, 4));
    out.Extend(v);
    r := Ok(());
  }

  /** A message after its first `n` frames. */
  ghost function UpTo(domain: bytes, fs: seq<bytes>, n: nat): (s: bytes)
    requires n <= |fs|
  {
    domain + Frames(fs[..n])
  }

  lemma UpToEnds(domain: bytes, fs: seq<bytes>)
    ensures UpTo(domain, fs, 0) == domain && UpTo(domain, fs, |fs|) == domain + Frames(fs)
  {
    hide Prefixed;
    assert fs[..0] == [] && fs[..|fs|] == fs;
  }

  /** Appends frame `n` of `fs`. */
  method WriteNext(out: Buffer, v: bytes, ghost domain: bytes, ghost fs: seq<bytes>, ghost n: nat)
    returns (r: Result<(), HybridError>)
    requires n < |fs|
    modifies out
    ensures r == if |v| < U32_LIMIT then Ok(()) else Err(ResourceLimitExceeded)
    ensures r.Ok? && v == fs[n] && old(out.data) == UpTo(domain, fs, n) ==> out.data == UpTo(domain, fs, n + 1)
  {
    hide Prefixed, Frames;
    r := WritePrefixed(out, v);
    FramesSnoc(fs[..n], v);
    assert v == fs[n] ==> fs[..n] + [v] == fs[..n + 1];
  }
}
