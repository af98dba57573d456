/** An LZ4Factory binds, for one implementation name, two compressors, a
    decompressor and an unknown-size decompressor, and exists only once all of
    them have passed the self-test. Its fields are final, so it is a value. */
module Factory {
  import opened Capabilities
  import opened Certification

  datatype LZ4Factory = LZ4Factory(
    impl: string,
    fastCompressor: Compressor,
    highCompressor: Compressor,
    decompressor: Decompressor,
    unknownSizeDecompressor: UnknownSizeDecompressor)
  {
    /** The fast compressor: constant 0 of the compressor enum. */
    function FastCompressor(): Compressor { fastCompressor }

    /** The high-compression compressor: constant 1 of the compressor enum. */
    function HighCompressor(): Compressor { highCompressor }

    /** The known-size decompressor. */
    function Decompressor(): Capabilities.Decompressor { decompressor }

    /** The unknown-size decompressor (the public accessor keeps the
        library's own spelling). */
    function UnknwonSizeDecompressor(): UnknownSizeDecompressor { unknownSizeDecompressor }

    /** The simple class name, a colon, and the implementation name. */
    function ToString(): string { "LZ4Factory:" + impl }
  }

  /** Every bound engine has passed the round trip, for both compressors. */
  ghost predicate Certified(f: LZ4Factory)
  {
    Certify([f.fastCompressor, f.highCompressor], f.decompressor, f.unknownSizeDecompressor).Pass?
  }

  /** The private constructor `LZ4Factory(impl)`: load the three enums of the
      implementation, check their sizes, bind the constants by position and
      run the self-test. The count of unknown-size decompressors is not
      checked: the guard that should check it tests the decompressors again,
      which at that point number exactly one, so only an empty enum fails
      (when its element 0 is read). */
  function Construct(impl: string, reg: Registry): (r: Result<LZ4Factory>)
    ensures r.Ok? ==> r.value.impl == impl && Certified(r.value)
  {
    match Compressors(reg, impl)
    case Err(f) => Err(f)
    case Ok(cs) =>
      if |cs| != 2 then Err(ShapeMismatch(ClassName(impl, "Compressor"), |cs|))
      else match Decompressors(reg, impl)
      case Err(f) => Err(f)
      case Ok(ds) =>
        if |ds| != 1 then Err(ShapeMismatch(ClassName(impl, "Decompressor"), |ds|))
        else match UnknownSizeDecompressors(reg, impl)
        case Err(f) => Err(f)
        case Ok(us) =>
          if |us| == 0 then Err(NoConstant(ClassName(impl, "UnknownSizeDecompressor")))
          else match Certify([cs[0], cs[1]], ds[0], us[0])
          case Fail(f) => Err(f)
          case Pass => Ok(LZ4Factory(impl, cs[0], cs[1], ds[0], us[0]))
  }

  /** The constructor as it runs: the self-test works on freshly allocated
      buffers. Either it fails, or it yields exactly the certified value that
      `Construct` describes. */
  method NewFactory(impl: string, reg: Registry) returns (r: Result<LZ4Factory>)
    ensures r == Construct(impl, reg)
  {
    var compressors := Compressors(reg, impl);
    if compressors.Err? {
      return Err(compressors.error);
    }
    if |compressors.value| != 2 {
      return Err(ShapeMismatch(ClassName(impl, "Compressor"), |compressors.value|));
    }
    var fastCompressor := compressors.value[0];
    var highCompressor := compressors.value[1];

    var decompressors := Decompressors(reg, impl);
    if decompressors.Err? {
      return Err(decompressors.error);
    }
    if |decompressors.value| != 1 {
      return Err(ShapeMismatch(ClassName(impl, "Decompressor"), |decompressors.value|));
    }
    var decompressor := decompressors.value[0];

    var unknownSizeDecompressors := UnknownSizeDecompressors(reg, impl);
    if unknownSizeDecompressors.Err? {
      return Err(unknownSizeDecompressors.error);
    }
    // The size guard at this point re-tests the decompressors, already known
    // to number one, so it never fires and is not repeated here.
    if |unknownSizeDecompressors.value| == 0 {
      return Err(NoConstant(ClassName(impl, "UnknownSizeDecompressor")));
    }
    var unknownSizeDecompressor := unknownSizeDecompressors.value[0];

    var outcome := RunSelfTest(fastCompressor, highCompressor, decompressor, unknownSizeDecompressor);
    if outcome.Fail? {
      return Err(outcome.error);
    }
    return Ok(LZ4Factory(impl, fastCompressor, highCompressor, decompressor, unknownSizeDecompressor));
  }

  /** Certification of a factory is the round trip of each of its two
      compressors: neither one alone is enough. */
  lemma CertifiedIffBothRoundTrips(f: LZ4Factory)
    ensures Certified(f) <==>
      RoundTrip(f.fastCompressor, f.decompressor, f.unknownSizeDecompressor).Pass?
      && RoundTrip(f.highCompressor, f.decompressor, f.unknownSizeDecompressor).Pass?
  {
    CertifyPassIff([f.fastCompressor, f.highCompressor], f.decompressor, f.unknownSizeDecompressor);
  }

  /** Exactly when construction succeeds: all three enums load with the right
      kinds, there are two compressors and one decompressor, the unknown-size
      enum is not empty (its size is otherwise unchecked), and the constants at
      index 0 (and 1 for the compressors) pass the self-test. */
  lemma ConstructSucceedsIff(impl: string, reg: Registry)
    ensures Construct(impl, reg).Ok? <==>
      Compressors(reg, impl).Ok? && |Compressors(reg, impl).value| == 2
      && Decompressors(reg, impl).Ok? && |Decompressors(reg, impl).value| == 1
      && UnknownSizeDecompressors(reg, impl).Ok? && |UnknownSizeDecompressors(reg, impl).value| >= 1
      && Certify([Compressors(reg, impl).value[0], Compressors(reg, impl).value[1]],
                 Decompressors(reg, impl).value[0],
                 UnknownSizeDecompressors(reg, impl).value[0]).Pass?
  {
  }

  /** A successfully built factory hands out the enum constants by position,
      names its implementation in `toString`, and is certified. */
  lemma AccessorsReturnBoundConstants(impl: string, reg: Registry)
    requires Construct(impl, reg).Ok?
    ensures var f := Construct(impl, reg).value;
      && f.FastCompressor() == reg[ClassName(impl, "Compressor")].compressors[0]
      && f.HighCompressor() == reg[ClassName(impl, "Compressor")].compressors[1]
      && f.Decompressor() == reg[ClassName(impl, "Decompressor")].decompressors[0]
      && f.UnknwonSizeDecompressor() == reg[ClassName(impl, "UnknownSizeDecompressor")].unknownSizeDecompressors[0]
      && f.ToString() == "LZ4Factory:" + impl
      && RoundTrip(f.FastCompressor(), f.Decompressor(), f.UnknwonSizeDecompressor()).Pass?
      && RoundTrip(f.HighCompressor(), f.Decompressor(), f.UnknwonSizeDecompressor()).Pass?
  {
    CertifiedIffBothRoundTrips(Construct(impl, reg).value);
  }

  /** Wrong enum sizes are errors of their own, reported for the class at fault. */
  lemma ShapeMismatchReported(impl: string, reg: Registry)
    ensures Compressors(reg, impl).Ok? && |Compressors(reg, impl).value| != 2 ==>
      Construct(impl, reg) == Err(ShapeMismatch(ClassName(impl, "Compressor"), |Compressors(reg, impl).value|))
    ensures Compressors(reg, impl).Ok? && |Compressors(reg, impl).value| == 2
            && Decompressors(reg, impl).Ok? && |Decompressors(reg, impl).value| != 1 ==>
      Construct(impl, reg) == Err(ShapeMismatch(ClassName(impl, "Decompressor"), |Decompressors(reg, impl).value|))
  {
  }

  /** As written, an unknown-size enum with any non-zero number of constants is
      accepted, and its constant 0 is bound. */
  lemma UnknownSizeCountNotChecked(impl: string, reg: Registry)
    requires Compressors(reg, impl).Ok? && |Compressors(reg, impl).value| == 2
    requires Decompressors(reg, impl).Ok? && |Decompressors(reg, impl).value| == 1
    requires UnknownSizeDecompressors(reg, impl).Ok? && |UnknownSizeDecompressors(reg, impl).value| >= 1
    requires Certify([Compressors(reg, impl).value[0], Compressors(reg, impl).value[1]],
                     Decompressors(reg, impl).value[0],
                     UnknownSizeDecompressors(reg, impl).value[0]).Pass?
    ensures Construct(impl, reg).Ok?
    ensures Construct(impl, reg).value.UnknwonSizeDecompressor() == UnknownSizeDecompressors(reg, impl).value[0]
  {
  }
}
