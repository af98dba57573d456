/** The self-test every factory runs before it is handed out: for each of its
    two compressors, compress a fixed 20-byte vector, restore it with the
    known-size decompressor, zero the destination, restore it again with the
    unknown-size decompressor, and demand the exact bytes (and, for the
    unknown-size path, the exact length) back. */
module Certification {
  import opened Capabilities

  /** The test vector "abcd      abcdefghij": a literal run, six spaces, and
      "abcd" again so that a match can be copied. */
  const Original: seq<byte> :=
    [0x61, 0x62, 0x63, 0x64, 0x20, 0x20, 0x20, 0x20, 0x20, 0x20,
     0x61, 0x62, 0x63, 0x64, 0x65, 0x66, 0x67, 0x68, 0x69, 0x6a]

  /** The `compressed` buffer after compression and the length `compress` returned. */
  datatype Block = Block(buffer: seq<byte>, length: int)

  /** Steps 1-2 of the round trip: size the buffer with `maxCompressedLength`,
      allocate it zeroed, and let the compressor write into it. */
  function Compressed(c: Compressor): (r: Result<Block>)
    ensures r.Ok? <==> c.maxCompressedLength(|Original|).Some?
                       && c.maxCompressedLength(|Original|).value >= 0
                       && c.compress(Original, c.maxCompressedLength(|Original|).value).Some?
                       && |c.compress(Original, c.maxCompressedLength(|Original|).value).value.bytes|
                          <= c.maxCompressedLength(|Original|).value
    ensures r.Ok? ==> var m := c.maxCompressedLength(|Original|).value;
      var e := c.compress(Original, m).value;
      && |r.value.buffer| == m
      && r.value.buffer[..|e.bytes|] == e.bytes
      && (forall i :: |e.bytes| <= i < |r.value.buffer| ==> r.value.buffer[i] == 0)
      && r.value.length == e.returned
    ensures c.maxCompressedLength(|Original|).None? ==> r == Err(EngineFailed(CompressStage))
  {
    match c.maxCompressedLength(|Original|)
    case None => Err(EngineFailed(CompressStage))
    case Some(m) =>
    if m < 0 then Err(NegativeBufferSize(m))
    else match c.compress(Original, m)
      case None => Err(EngineFailed(CompressStage))
      case Some(e) =>
        if |e.bytes| > m then Err(EngineFailed(CompressStage))
        else Ok(Block(Overlay(Zeros(m), e.bytes), e.returned))
  }

  /** The round trip of one compressor against the two decompressors. Both
      destinations start zeroed: the first because Java zeroes new arrays, the
      second because of `Arrays.fill(restored, (byte) 0)`. */
  function RoundTrip(c: Compressor, d: Decompressor, u: UnknownSizeDecompressor): Outcome
  {
    match Compressed(c)
    case Err(f) => Fail(f)
    case Ok(b) =>
      match d.decompress(b.buffer, |Original|)
      case None => Fail(EngineFailed(KnownSizeStage))
      case Some(known) =>
        if |known.bytes| > |Original| then Fail(EngineFailed(KnownSizeStage))
        else if Overlay(Zeros(|Original|), known.bytes) != Original then Fail(SelfTestMismatch(KnownSizeStage))
        else
          match u.decompress(b.buffer, b.length, |Original|)
          case None => Fail(EngineFailed(UnknownSizeStage))
          case Some(unknown) =>
            if |unknown.bytes| > |Original| then Fail(EngineFailed(UnknownSizeStage))
            else if unknown.returned != |Original| || Overlay(Zeros(|Original|), unknown.bytes) != Original
            then Fail(SelfTestMismatch(UnknownSizeStage))
            else Pass
  }

  /** The engine call completed and wrote exactly the test vector. */
  predicate WritesOriginal(o: Option<Emitted>)
  {
    o.Some? && o.value.bytes == Original
  }

  /** Because the destination is zeroed first and the vector's last byte is not
      zero, comparing the whole buffer catches an engine that writes too little:
      the check passes exactly when the engine wrote the whole vector. */
  lemma ZeroFilledMatchIsExact(w: seq<byte>)
    requires |w| <= |Original|
    ensures Overlay(Zeros(|Original|), w) == Original <==> w == Original
  {
    var r := Overlay(Zeros(|Original|), w);
    if |w| < |Original| {
      var last := |Original| - 1;
      assert r[last] == r[|w|..][last - |w|] == Zeros(|Original|)[|w|..][last - |w|] == 0;
      assert r[last] != Original[last];
    }
  }

  /** What certification of one compressor means, in terms of the engines alone:
      the vector compresses into a buffer of `maxCompressedLength` bytes, the
      known-size decompressor writes back exactly the vector, and the unknown-size
      decompressor writes back exactly the vector and reports its length. */
  lemma RoundTripCharacterized(c: Compressor, d: Decompressor, u: UnknownSizeDecompressor)
    ensures RoundTrip(c, d, u).Pass? <==>
      Compressed(c).Ok?
      && WritesOriginal(d.decompress(Compressed(c).value.buffer, |Original|))
      && WritesOriginal(u.decompress(Compressed(c).value.buffer, Compressed(c).value.length, |Original|))
      && u.decompress(Compressed(c).value.buffer, Compressed(c).value.length, |Original|).value.returned
         == |Original|
  {
    if Compressed(c).Ok? {
      var b := Compressed(c).value;
      var known := d.decompress(b.buffer, |Original|);
      if known.Some? && |known.value.bytes| <= |Original| {
        ZeroFilledMatchIsExact(known.value.bytes);
        var unknown := u.decompress(b.buffer, b.length, |Original|);
        if unknown.Some? && |unknown.value.bytes| <= |Original| {
          ZeroFilledMatchIsExact(unknown.value.bytes);
        }
      }
    }
  }

  /** The self-test over the compressors in order: the first failure, or Pass. */
  function Certify(cs: seq<Compressor>, d: Decompressor, u: UnknownSizeDecompressor): Outcome
    decreases |cs|
  {
    if |cs| == 0 then Pass
    else match RoundTrip(cs[0], d, u)
      case Fail(f) => Fail(f)
      case Pass => Certify(cs[1..], d, u)
  }

  /** No partial certification: the set passes exactly when every compressor
      passes its round trip. */
  lemma {:induction false} CertifyPassIff(cs: seq<Compressor>, d: Decompressor, u: UnknownSizeDecompressor)
    ensures Certify(cs, d, u).Pass? <==> forall i :: 0 <= i < |cs| ==> RoundTrip(cs[i], d, u).Pass?
    decreases |cs|
  {
    if |cs| > 0 {
      CertifyPassIff(cs[1..], d, u);
      assert forall i :: 1 <= i < |cs| ==> cs[1..][i - 1] == cs[i];
    }
  }

  /** A failing self-test reports the failure of the first compressor that fails. */
  lemma {:induction false} CertifyFirstFailure(cs: seq<Compressor>, k: nat, d: Decompressor, u: UnknownSizeDecompressor)
    requires k < |cs|
    requires forall j :: 0 <= j < k ==> RoundTrip(cs[j], d, u).Pass?
    requires RoundTrip(cs[k], d, u).Fail?
    ensures Certify(cs, d, u) == RoundTrip(cs[k], d, u)
    decreases k
  {
    if k > 0 {
      assert RoundTrip(cs[0], d, u).Pass?;
      assert forall j :: 0 <= j < k - 1 ==> cs[1..][j] == cs[j + 1];
      CertifyFirstFailure(cs[1..], k - 1, d, u);
    }
  }

  /** An engine writes `w` into `a` starting at offset 0. */
  method Write(a: array<byte>, w: seq<byte>)
    requires |w| <= a.Length
    modifies a
    ensures a[..] == Overlay(old(a[..]), w)
  {
    forall i | 0 <= i < |w| {
      a[i] := w[i];
    }
  }

  /** `Arrays.fill(a, v)`. */
  method Fill(a: array<byte>, v: byte)
    modifies a
    ensures forall i :: 0 <= i < a.Length ==> a[i] == v
  {
    forall i | 0 <= i < a.Length {
      a[i] := v;
    }
  }

  /** One pass of the self-test loop body, over real buffers. */
  method CheckCompressor(original: array<byte>, c: Compressor, d: Decompressor, u: UnknownSizeDecompressor)
    returns (o: Outcome)
    requires original[..] == Original
    ensures o == RoundTrip(c, d, u)
  {
    var sized := c.maxCompressedLength(original.Length);
    if sized.None? {
      return Fail(EngineFailed(CompressStage));
    }
    var maxCompressedLength := sized.value;
    if maxCompressedLength < 0 {
      return Fail(NegativeBufferSize(maxCompressedLength));
    }
    var compressed := new byte[maxCompressedLength](_ => 0);
    var written := c.compress(original[..], maxCompressedLength);
    if written.None? || |written.value.bytes| > compressed.Length {
      return Fail(EngineFailed(CompressStage));
    }
    Write(compressed, written.value.bytes);
    var compressedLength := written.value.returned;
    ghost var block := Compressed(c).value;
    assert block == Block(compressed[..], compressedLength);

    var restored := new byte[original.Length](_ => 0);
    written := d.decompress(compressed[..], original.Length);
    if written.None? || |written.value.bytes| > restored.Length {
      return Fail(EngineFailed(KnownSizeStage));
    }
    Write(restored, written.value.bytes);
    assert restored[..] == Overlay(Zeros(|Original|), written.value.bytes);
    if restored[..] != original[..] {
      return Fail(SelfTestMismatch(KnownSizeStage));
    }

    Fill(restored, 0);
    assert restored[..] == Zeros(|Original|);
    written := u.decompress(compressed[..], compressedLength, restored.Length);
    if written.None? || |written.value.bytes| > restored.Length {
      return Fail(EngineFailed(UnknownSizeStage));
    }
    ghost var unknown := written.value;
    assert written == u.decompress(block.buffer, block.length, |Original|);
    Write(restored, written.value.bytes);
    assert restored[..] == Overlay(Zeros(|Original|), unknown.bytes) && original[..] == Original;
    var decompressedLength := written.value.returned;
    if decompressedLength != original.Length || restored[..] != original[..] {
      return Fail(SelfTestMismatch(UnknownSizeStage));
    }
    return Pass;
  }

  /** The self-test loop over `[fastCompressor, highCompressor]`. */
  method RunSelfTest(fast: Compressor, high: Compressor, d: Decompressor, u: UnknownSizeDecompressor)
    returns (o: Outcome)
    ensures o == Certify([fast, high], d, u)
  {
    var original := new byte[|Original|](i requires 0 <= i < |Original| => Original[i]);
    assert original[..] == Original;
    var compressors := [fast, high];
    o := Pass;
    for i := 0 to |compressors|
      invariant o == Pass && original[..] == Original
      invariant forall j :: 0 <= j < i ==> RoundTrip(compressors[j], d, u).Pass?
    {
      o := CheckCompressor(original, compressors[i], d, u);
      if o.Fail? {
        CertifyFirstFailure(compressors, i, d, u);
        return;
      }
    }
    CertifyPassIff(compressors, d, u);
  }
}
