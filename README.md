# LZ4Factory: backend selection and certification, in Dafny

This project models the entry point of the lz4-java library, `LZ4Factory`.
The class chooses one of three implementations of the LZ4 codec:

- `JNI`, a native binding to the C library;
- `JavaUnsafe`, a Java port that uses `sun.misc.Unsafe`;
- `JavaSafe`, a Java port written against the official API.

It builds an immutable factory for the chosen implementation and certifies it
with a round-trip self-test before handing it out. The compression engines are
outside the model. Each engine is a record of function values, so every
property below holds for any engine.

Modules, one per part of the class:

- `Capabilities` (`capabilities.dfy`): the three capability contracts
  (compressor, known-size decompressor, unknown-size decompressor), the
  failures construction can raise, and the class registry. The registry maps a
  fully qualified class name `net.jpountz.lz4.LZ4<impl><role>` to an enum of
  engines, to a class of another kind, or to a class whose initializer throws.
  This stands in for `Class.forName` and `getEnumConstants`.
- `Certification` (`certification.dfy`): the self-test on the 20-byte vector
  `"abcd      abcdefghij"`. `RoundTrip` and `Certify` are the specification.
  `CheckCompressor` and `RunSelfTest` run it over zero-initialised arrays, with
  `Arrays.fill` between the two decompressions, and are proved equal to it.
- `Factory` (`factory.dfy`): the factory value, with accessors and `toString`.
  `Construct` is the private constructor as a function returning either a
  certified factory or a failure; no partially built factory exists.
  `NewFactory` is the same constructor run over buffers.
- `Selection` (`selection.dfy`): `instance`, the three named entry points,
  `fastestJavaInstance` and `fastestInstance`. Each selector also records the
  implementation names it tried, in order. `FirstSuccess` is an independent
  reference definition of the fallback policy ("try the allowed tiers in order
  and stop at the first that constructs"). `FastestRunIsFirstSuccess` proves the
  selectors equal to it.
- `Scenarios` (`scenarios.dfy`): a concrete "stored" codec that copies bytes
  through, plus faulty engines derived from it. They drive the concrete cases:
  a native load failure, a failing safe tier, a silent unknown-size
  decompressor, and a two-constant unknown-size enum.

Behaviour of `LZ4Factory` worth knowing:

- **Unknown-size count.** The count of unknown-size decompressors is never
  checked. The guard meant for it (`LZ4Factory.java:161`) tests
  `decompressors.length` again, and that is already known to be 1. An enum with
  two constants therefore constructs, and constant 0 is bound. An empty one
  fails only when its element 0 is read. See `Factory.UnknownSizeCountNotChecked`
  and `Scenarios.TwoUnknownSizeConstantsAccepted`.
- **Shape mismatches are recoverable.** A shape mismatch or a self-test failure
  is an `AssertionError`. `fastestJavaInstance` and `fastestInstance` catch every
  `Throwable`, so at the native and unsafe tiers these failures fall through to
  the next tier like an unavailable backend. Only the safe tier's failure
  reaches the caller.
- **Sentinel.** The sentinel written before the unknown-size decompression is
  the zero byte.
- **Accessor spelling.** The accessor keeps its source spelling,
  `unknwonSizeDecompressor` (`UnknwonSizeDecompressor` here).

## Model

| member | source | states |
|---|---|---|
| `Capabilities.ClassName` | src/java/net/jpountz/lz4/LZ4Factory.java:132 | the class looked up is the package prefix `net.jpountz.lz4.LZ4`, then the implementation name, then the role suffix, each at its own position |
| `Capabilities.Load` | src/java/net/jpountz/lz4/LZ4Factory.java:132 | `Class.forName` succeeds exactly when the class exists and its initializer does not throw; a missing class is `ClassNotFound` of that name, a throwing initializer `InitializerFailed`; a loaded class is the registered one |
| `Capabilities.Compressors` | src/java/net/jpountz/lz4/LZ4Factory.java:132-137 | the compressor lookup succeeds exactly when the class is a compressor enum, and yields its constants in declaration order |
| `Capabilities.Decompressors` | src/java/net/jpountz/lz4/LZ4Factory.java:144-149 | the decompressor lookup succeeds exactly when the class is a decompressor enum, and yields its constants |
| `Capabilities.UnknownSizeDecompressors` | src/java/net/jpountz/lz4/LZ4Factory.java:155-160 | the unknown-size lookup succeeds exactly when the class is an unknown-size decompressor enum, and yields its constants |
| `Certification.Compressed` | src/java/net/jpountz/lz4/LZ4Factory.java:169-171 | compression succeeds exactly when `maxCompressedLength(20)` returns normally with a non-negative size and `compress` returns normally with output that fits; the buffer then has that length, starts with the bytes the compressor wrote and is zero after them, and `length` is the int `compress` returned; a throwing `maxCompressedLength` is an engine failure |
| `Certification.ZeroFilledMatchIsExact` | src/java/net/jpountz/lz4/LZ4Factory.java:177-179 | on a zeroed 20-byte buffer, the comparison with the vector passes exactly when the engine wrote the whole vector, so an under-write is caught |
| `Certification.RoundTripCharacterized` | src/java/net/jpountz/lz4/LZ4Factory.java:167-182 | one compressor passes exactly when the vector compresses, the known-size decompressor writes back exactly the vector, and the unknown-size decompressor writes back exactly the vector and reports length 20 |
| `Certification.CertifyPassIff` | src/java/net/jpountz/lz4/LZ4Factory.java:168-182 | the self-test over the compressors passes exactly when every compressor passes its round trip (no partial certification) |
| `Certification.CertifyFirstFailure` | src/java/net/jpountz/lz4/LZ4Factory.java:168-182 | a failing self-test reports the failure of the first compressor that fails, in list order |
| `Certification.Fill` | src/java/net/jpountz/lz4/LZ4Factory.java:177 | `Arrays.fill` sets every element of the buffer to the given byte |
| `Certification.CheckCompressor` | src/java/net/jpountz/lz4/LZ4Factory.java:169-181 | the loop body over real buffers (zero-initialised allocation, engine writes, fill, comparisons) gives exactly the outcome `RoundTrip` specifies |
| `Certification.RunSelfTest` | src/java/net/jpountz/lz4/LZ4Factory.java:166-182 | the loop over `[fastCompressor, highCompressor]` stops at the first failure and otherwise passes, as `Certify` specifies |
| `Factory.Construct` | src/java/net/jpountz/lz4/LZ4Factory.java:130-184 | a constructed factory carries the requested implementation name and is certified |
| `Factory.NewFactory` | src/java/net/jpountz/lz4/LZ4Factory.java:130-184 | the constructor running its self-test on buffers fails, or yields exactly the certified factory `Construct` describes |
| `Factory.CertifiedIffBothRoundTrips` | src/java/net/jpountz/lz4/LZ4Factory.java:168-182 | a factory is certified exactly when both its fast and its high compressor pass the round trip with its two decompressors |
| `Factory.ConstructSucceedsIff` | src/java/net/jpountz/lz4/LZ4Factory.java:132-182 | construction succeeds exactly when the three enums load with the right kinds, there are 2 compressors and 1 decompressor, the unknown-size enum is non-empty, and the bound constants certify |
| `Factory.ShapeMismatchReported` | src/java/net/jpountz/lz4/LZ4Factory.java:137-153 | a compressor enum without exactly 2 constants, or a decompressor enum without exactly 1, fails construction with a shape mismatch naming that class and count |
| `Factory.UnknownSizeCountNotChecked` | src/java/net/jpountz/lz4/LZ4Factory.java:159-164 | any non-empty unknown-size enum is accepted when the rest certifies, and its constant 0 is bound |
| `Factory.AccessorsReturnBoundConstants` | src/java/net/jpountz/lz4/LZ4Factory.java:186-215 | the accessors return compressor constants 0 and 1, decompressor constant 0 and unknown-size constant 0; `toString` is `LZ4Factory:` plus the name; the bound engines pass the round trip |
| `Selection.Instance` | src/java/net/jpountz/lz4/LZ4Factory.java:43-49 | `instance` succeeds exactly when construction does, with the requested name and a certified factory whose `toString` names it; a missing class, whichever of the three it is, becomes an assertion failure (`Unavailable` of that class), never an instance, and every other failure passes through unchanged |
| `Selection.TierNames` | src/java/net/jpountz/lz4/LZ4Factory.java:69-84 | the native, safe and unsafe entry points resolve `JNI`, `JavaSafe` and `JavaUnsafe`, and each succeeds exactly when its implementation constructs |
| `Selection.FastestJavaPrefersUnsafe` | src/java/net/jpountz/lz4/LZ4Factory.java:93-99 | the unsafe instance is returned whenever it constructs; on any failure the safe instance's result is returned, its failure included |
| `Selection.GateClosedSkipsNative` | src/java/net/jpountz/lz4/LZ4Factory.java:111-122 | when the native library is not loaded and the loader is not the system loader, native is neither tried nor returned, and the result is `fastestJavaInstance`'s |
| `Selection.GateOpenPrefersNative` | src/java/net/jpountz/lz4/LZ4Factory.java:111-118 | with the gate open, a working native instance is returned, and a failing one leaves the result to `fastestJavaInstance` |
| `Selection.SafeFailurePropagates` | src/java/net/jpountz/lz4/LZ4Factory.java:93-122 | the selectors fail exactly when every allowed tier fails, and their failure is then the safe tier's |
| `Selection.FirstSuccessTriesPrefix` | src/java/net/jpountz/lz4/LZ4Factory.java:93-122 | the reference policy tries an in-order prefix of the tiers, every tier before the last one tried failed, the result is the last one's, and a failure means all were tried |
| `Selection.FastestRunIsFirstSuccess` | src/java/net/jpountz/lz4/LZ4Factory.java:111-122 | `fastestInstance` equals the reference policy over `[JNI, JavaUnsafe, JavaSafe]` when the gate is open, and over `[JavaUnsafe, JavaSafe]` when it is closed |
| `Selection.AttemptsInTierOrder` | src/java/net/jpountz/lz4/LZ4Factory.java:111-122 | the tiers tried are an ordered prefix of the allowed ones, none twice, each but the last failed, and the result is the last one's |
| `Selection.EveryResultCertified` | src/java/net/jpountz/lz4/LZ4Factory.java:111-122 | whatever `fastestInstance` returns is a certified factory of one of the three implementations, and its `toString` names it |
| `Selection.InstanceReadsOwnClasses` | src/java/net/jpountz/lz4/LZ4Factory.java:130-164 | constructing an implementation looks at no class but its own three |
| `Selection.GateClosedIgnoresNativeClasses` | src/java/net/jpountz/lz4/LZ4Factory.java:111-121 | with the gate closed the result does not depend on the native classes at all |
| `Scenarios.StoredRoundTripPasses` | src/java/net/jpountz/lz4/LZ4Factory.java:166-182 | a correct codec (the stored codec) passes the self-test |
| `Scenarios.ZeroFillCatchesSilentDecompressor` | src/java/net/jpountz/lz4/LZ4Factory.java:177-181 | an unknown-size decompressor that writes nothing but reports 20 would pass on the stale buffer, and fails because of the zero fill |
| `Scenarios.TwoUnknownSizeConstantsAccepted` | src/java/net/jpountz/lz4/LZ4Factory.java:155-164 | a backend whose unknown-size enum has two constants (the second one always throwing) constructs, with constant 0 bound |
| `Scenarios.NativeLoadFailureFallsBack` | src/java/net/jpountz/lz4/LZ4Factory.java:111-118 | when the native classes cannot be initialised, `fastestInstance` tries `JNI` and then `JavaUnsafe`, and returns the certified `LZ4Factory:JavaUnsafe` |
| `Scenarios.SafeCertificationFailureIsFatal` | src/java/net/jpountz/lz4/LZ4Factory.java:93-122 | with native and unsafe missing and a corrupting safe decompressor, all three tiers are tried once and the self-test failure reaches the caller |

## Left out

- `main` (`LZ4Factory.java:208-210`) only prints the selected factory to standard output.
- `Native.isLoaded()` and class-loader identity are two boolean inputs of
  `fastestInstance`. The process-wide, load-once native library and its
  concurrency are not modelled.
- The LZ4 engines and `maxCompressedLength` are external. Their classes are
  not part of this model. Each engine is an uninterpreted function of the
  arguments the self-test passes it. It returns the bytes it writes at
  destination offset 0 and its int result, or throws; `maxCompressedLength`
  returns a size or throws. An engine therefore
  cannot read its destination or modify its source, and a write past the
  destination counts as the engine throwing.
- The exception classes are collapsed into one `Failure` datatype. The
  selectors catch every `Throwable`, so they treat all variants alike.
- A class that is assignable to the capability interface but is not an enum
  (`getEnumConstants` returns null, then a `NullPointerException`) has no
  registry entry of its own. `OtherClass` stands for the non-assignable case
  only.
- Lengths are unbounded integers. The 32-bit `int` range and an
  `OutOfMemoryError` on a huge `maxCompressedLength` are not modelled.
- Each call returns a factory value. Java object identity (a new object per
  call) is not modelled.
