/** Concrete backends and registries that exercise the selection policy: a
    "stored" codec that copies bytes through (it satisfies the capability
    contracts on the test vector), and faulty engines built from it. */
module Scenarios {
  import opened Capabilities
  import opened Certification
  import opened Factory
  import opened Selection

  /** Writes the source unchanged and returns its length. */
  const StoredCompressor: Compressor :=
    Compressor(n => Some(n), (src, maxDestLen) => Some(Emitted(src, |src|)))

  /** Reads `destLen` bytes back. */
  const StoredDecompressor: Decompressor :=
    Decompressor((src, destLen) =>
      Some(Emitted(if 0 <= destLen <= |src| then src[..destLen] else src, destLen)))

  /** Copies `srcLen` bytes back and reports how many it wrote. */
  const StoredUnknownSize: UnknownSizeDecompressor :=
    UnknownSizeDecompressor((src, srcLen, room) =>
      Some(Emitted(if 0 <= srcLen <= |src| then src[..srcLen] else [], srcLen)))

  /** Reports a full restore but writes nothing. */
  const LazyUnknownSize: UnknownSizeDecompressor :=
    UnknownSizeDecompressor((src, srcLen, room) => Some(Emitted([], srcLen)))

  /** Always throws. */
  const ThrowingUnknownSize: UnknownSizeDecompressor :=
    UnknownSizeDecompressor((src, srcLen, room) => None)

  /** Writes a zero block instead of the data. */
  const CorruptDecompressor: Decompressor :=
    Decompressor((src, destLen) => Some(Emitted(Zeros(|Original|), destLen)))

  /** The three classes of one implementation. */
  function Backend(impl: string, cs: seq<Compressor>, ds: seq<Decompressor>, us: seq<UnknownSizeDecompressor>): Registry
  {
    map[ClassName(impl, "Compressor") := CompressorEnum(cs),
        ClassName(impl, "Decompressor") := DecompressorEnum(ds),
        ClassName(impl, "UnknownSizeDecompressor") := UnknownSizeEnum(us)]
  }

  /** The stored compressor leaves exactly the vector in its buffer. */
  lemma StoredCompresses()
    ensures Compressed(StoredCompressor) == Ok(Block(Original, |Original|))
  {
    assert StoredCompressor.maxCompressedLength(|Original|) == Some(|Original|);
    assert StoredCompressor.compress(Original, |Original|) == Some(Emitted(Original, |Original|));
    assert Overlay(Zeros(|Original|), Original) == Original + [] == Original;
    assert Compressed(StoredCompressor).value.buffer == Original;
  }

  /** The stored codec certifies: the self-test accepts a correct backend. */
  lemma StoredRoundTripPasses()
    ensures RoundTrip(StoredCompressor, StoredDecompressor, StoredUnknownSize) == Pass
  {
    StoredCompresses();
    assert Original[..|Original|] == Original;
  }

  /** Without `Arrays.fill` the buffer would still hold the vector from the
      known-size pass, and an unknown-size decompressor that writes nothing
      would be taken for a correct one; with it, the self-test rejects it. */
  lemma ZeroFillCatchesSilentDecompressor()
    ensures Overlay(Original, LazyUnknownSize.decompress(Original, |Original|, |Original|).value.bytes) == Original
    ensures RoundTrip(StoredCompressor, StoredDecompressor, LazyUnknownSize) == Fail(SelfTestMismatch(UnknownSizeStage))
  {
    StoredCompresses();
    assert Original[..|Original|] == Original;
    ZeroFilledMatchIsExact([]);
  }

  /** An unknown-size enum with two constants still constructs, and the
      second constant is never used, not even by the self-test. */
  lemma TwoUnknownSizeConstantsAccepted()
    ensures var reg := Backend(JavaSafe, [StoredCompressor, StoredCompressor], [StoredDecompressor],
                                         [StoredUnknownSize, ThrowingUnknownSize]);
      && Construct(JavaSafe, reg).Ok?
      && Construct(JavaSafe, reg).value.UnknwonSizeDecompressor() == StoredUnknownSize
  {
    var reg := Backend(JavaSafe, [StoredCompressor, StoredCompressor], [StoredDecompressor],
                                 [StoredUnknownSize, ThrowingUnknownSize]);
    StoredRoundTripPasses();
    CertifyPassIff([StoredCompressor, StoredCompressor], StoredDecompressor, StoredUnknownSize);
    UnknownSizeCountNotChecked(JavaSafe, reg);
  }

  /** An implementation whose three classes are the stored codec constructs. */
  lemma StoredBackendConstructs(impl: string, reg: Registry)
    requires ClassName(impl, "Compressor") in reg
    requires reg[ClassName(impl, "Compressor")] == CompressorEnum([StoredCompressor, StoredCompressor])
    requires ClassName(impl, "Decompressor") in reg
    requires reg[ClassName(impl, "Decompressor")] == DecompressorEnum([StoredDecompressor])
    requires ClassName(impl, "UnknownSizeDecompressor") in reg
    requires reg[ClassName(impl, "UnknownSizeDecompressor")] == UnknownSizeEnum([StoredUnknownSize])
    ensures Construct(impl, reg).Ok? && Construct(impl, reg).value.impl == impl
  {
    StoredRoundTripPasses();
    CertifyPassIff([StoredCompressor, StoredCompressor], StoredDecompressor, StoredUnknownSize);
    UnknownSizeCountNotChecked(impl, reg);
  }

  /** A runtime whose native classes fail to initialise and whose unsafe port
      is the stored codec. */
  function NativeBrokenRegistry(): Registry
  {
    map[ClassName(JNI, "Compressor") := FailingInitializer]
    + Backend(JavaUnsafe, [StoredCompressor, StoredCompressor], [StoredDecompressor], [StoredUnknownSize])
  }

  /** In that runtime the native compressor class fails to load. */
  lemma NativeBrokenNativeFails()
    ensures NativeInstance(NativeBrokenRegistry()) == Err(InitializerFailed(ClassName(JNI, "Compressor")))
  {
    var reg := NativeBrokenRegistry();
    var unsafeClasses := Backend(JavaUnsafe, [StoredCompressor, StoredCompressor], [StoredDecompressor], [StoredUnknownSize]);
    // The JNI key is shorter than every unsafe key, so the maps do not overlap.
    assert |ClassName(JNI, "Compressor")| == 32;
    assert ClassName(JNI, "Compressor") !in unsafeClasses;
    assert reg[ClassName(JNI, "Compressor")] == FailingInitializer;
    assert Compressors(reg, JNI) == Err(InitializerFailed(ClassName(JNI, "Compressor")));
  }

  /** In that runtime the unsafe port constructs. */
  lemma NativeBrokenUnsafeWorks()
    ensures UnsafeInstance(NativeBrokenRegistry()).Ok?
    ensures UnsafeInstance(NativeBrokenRegistry()).value.ToString() == "LZ4Factory:JavaUnsafe"
  {
    var reg := NativeBrokenRegistry();
    // `+` on maps keeps the right operand's entries, so the unsafe classes survive.
    assert reg[ClassName(JavaUnsafe, "Compressor")] == CompressorEnum([StoredCompressor, StoredCompressor]);
    assert reg[ClassName(JavaUnsafe, "Decompressor")] == DecompressorEnum([StoredDecompressor]);
    assert reg[ClassName(JavaUnsafe, "UnknownSizeDecompressor")] == UnknownSizeEnum([StoredUnknownSize]);
    StoredBackendConstructs(JavaUnsafe, reg);
    assert UnsafeInstance(reg) == Instance(JavaUnsafe, reg);
    assert "LZ4Factory:" + JavaUnsafe == "LZ4Factory:JavaUnsafe";
  }

  /** The native library cannot be loaded: with the gate open, native is tried,
      fails, and the certified unsafe port is returned; nothing escapes. */
  lemma NativeLoadFailureFallsBack()
    ensures FastestRun(true, true, NativeBrokenRegistry()).attempts == [JNI, JavaUnsafe]
    ensures FastestInstance(true, true, NativeBrokenRegistry()).Ok?
    ensures FastestInstance(true, true, NativeBrokenRegistry()).value.ToString() == "LZ4Factory:JavaUnsafe"
  {
    NativeBrokenNativeFails();
    NativeBrokenUnsafeWorks();
  }

  /** Neither native nor the unsafe port is present and the safe port fails its
      self-test: the failure reaches the caller, after every tier was tried once. */
  lemma SafeCertificationFailureIsFatal()
    ensures var reg := Backend(JavaSafe, [StoredCompressor, StoredCompressor], [CorruptDecompressor], [StoredUnknownSize]);
      && FastestRun(true, true, reg).attempts == [JNI, JavaUnsafe, JavaSafe]
      && FastestInstance(true, true, reg) == Err(SelfTestMismatch(KnownSizeStage))
  {
    var reg := Backend(JavaSafe, [StoredCompressor, StoredCompressor], [CorruptDecompressor], [StoredUnknownSize]);
    StoredCompresses();
    assert Zeros(|Original|) != Original by { assert Original[0] != 0; }
    assert RoundTrip(StoredCompressor, CorruptDecompressor, StoredUnknownSize) == Fail(SelfTestMismatch(KnownSizeStage));
    CertifyFirstFailure([StoredCompressor, StoredCompressor], 0, CorruptDecompressor, StoredUnknownSize);
    assert ClassName(JNI, "Compressor") !in reg;
    // Keys of equal length still differ right after "LZ4Java": 'U' for unsafe, 'S' for safe.
    assert ClassName(JavaUnsafe, "Compressor")[|Package| + 4] == 'U';
    assert ClassName(JavaSafe, "Decompressor")[|Package| + 4] == 'S';
    assert ClassName(JavaUnsafe, "Compressor") !in reg;
  }
}
