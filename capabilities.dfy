/** The capability contracts of the LZ4 backends, the failures construction can
    raise, and the name-keyed registry of backend classes that `Class.forName`
    consults. The engines themselves are external: each one is a record of
    function values, so every statement proved about them holds for ANY engine. */
module Capabilities {

  type byte = bv8

  datatype Option<+T> = None | Some(value: T)

  datatype Result<+T> = Ok(value: T) | Err(error: Failure)

  /** Outcome of a check that produces no value. */
  datatype Outcome = Pass | Fail(error: Failure)

  /** The engine call that went wrong during the self-test. */
  datatype Stage = CompressStage | KnownSizeStage | UnknownSizeStage

  /** Everything the construction of a factory can throw. The selectors catch
      every Throwable alike; the variants only say where a failure came from. */
  datatype Failure =
    | ClassNotFound(className: string)          // Class.forName finds no class
    | InitializerFailed(className: string)      // loading the class throws (native library missing)
    | NotAssignable(className: string)          // isAssignableFrom is false: AssertionError
    | ShapeMismatch(className: string, count: nat)  // wrong number of enum constants: AssertionError
    | NoConstant(className: string)             // element 0 of an empty constants array
    | NegativeBufferSize(size: int)             // new byte[n] with n < 0
    | EngineFailed(stage: Stage)                // the engine threw, or wrote past its destination
    | SelfTestMismatch(stage: Stage)            // round trip gave other bytes or length: AssertionError
    | Unavailable(className: string)            // instance(): AssertionError wrapping ClassNotFoundException

  /** What an engine call leaves behind: the bytes it wrote at destination
      offset 0 and the int it returned. */
  datatype Emitted = Emitted(bytes: seq<byte>, returned: int)

  /** LZ4Compressor: `maxCompressedLength(length)` and
      `compress(src, 0, src.length, dest, 0, maxDestLen)`; None means the call threw. */
  datatype Compressor = Compressor(
    maxCompressedLength: int -> Option<int>,
    compress: (seq<byte>, int) -> Option<Emitted>)

  /** LZ4Decompressor: `decompress(src, 0, dest, 0, destLen)`; the returned int
      is the number of source bytes read. */
  datatype Decompressor = Decompressor(
    decompress: (seq<byte>, int) -> Option<Emitted>)

  /** LZ4UnknownSizeDecompressor: `decompress(src, 0, srcLen, dest, 0)` with the
      room left in dest as third argument; the returned int is the number of
      bytes written. */
  datatype UnknownSizeDecompressor = UnknownSizeDecompressor(
    decompress: (seq<byte>, int, int) -> Option<Emitted>)

  /** A class as reflection sees it. */
  datatype ClassEntry =
    | CompressorEnum(compressors: seq<Compressor>)
    | DecompressorEnum(decompressors: seq<Decompressor>)
    | UnknownSizeEnum(unknownSizeDecompressors: seq<UnknownSizeDecompressor>)
    | FailingInitializer
    | OtherClass

  /** The classes loadable in this runtime, by fully qualified name. */
  type Registry = map<string, ClassEntry>

  const Package: string := "net.jpountz.lz4.LZ4"

  /** The class name the factory asks for: `"net.jpountz.lz4.LZ4" + impl + role`. */
  function ClassName(impl: string, role: string): (name: string)
    ensures |name| == |Package| + |impl| + |role|
    ensures name[..|Package|] == Package
    ensures name[|Package|..|Package| + |impl|] == impl
    ensures name[|Package| + |impl|..] == role
  {
    Package + impl + role
  }

  /** `Class.forName(name)`: the entry, or the failure loading it raises. */
  function Load(reg: Registry, name: string): (r: Result<ClassEntry>)
    ensures r.Ok? <==> name in reg && !reg[name].FailingInitializer?
    ensures name !in reg ==> r == Err(ClassNotFound(name))
    ensures name in reg && reg[name].FailingInitializer? ==> r == Err(InitializerFailed(name))
    ensures r.Ok? ==> r.value == reg[name]
  {
    if name !in reg then Err(ClassNotFound(name))
    else if reg[name].FailingInitializer? then Err(InitializerFailed(name))
    else Ok(reg[name])
  }

  /** Loads `LZ4<impl>Compressor`, checks it is a compressor class and returns
      its enum constants in declaration order. */
  function Compressors(reg: Registry, impl: string): (r: Result<seq<Compressor>>)
    ensures r.Ok? <==> ClassName(impl, "Compressor") in reg && reg[ClassName(impl, "Compressor")].CompressorEnum?
    ensures r.Ok? ==> r.value == reg[ClassName(impl, "Compressor")].compressors
  {
    var name := ClassName(impl, "Compressor");
    match Load(reg, name)
    case Err(f) => Err(f)
    case Ok(CompressorEnum(cs)) => Ok(cs)
    case Ok(_) => Err(NotAssignable(name))
  }

  /** Loads `LZ4<impl>Decompressor`, checks its kind, returns its constants. */
  function Decompressors(reg: Registry, impl: string): (r: Result<seq<Decompressor>>)
    ensures r.Ok? <==> ClassName(impl, "Decompressor") in reg && reg[ClassName(impl, "Decompressor")].DecompressorEnum?
    ensures r.Ok? ==> r.value == reg[ClassName(impl, "Decompressor")].decompressors
  {
    var name := ClassName(impl, "Decompressor");
    match Load(reg, name)
    case Err(f) => Err(f)
    case Ok(DecompressorEnum(ds)) => Ok(ds)
    case Ok(_) => Err(NotAssignable(name))
  }

  /** Loads `LZ4<impl>UnknownSizeDecompressor`, checks its kind, returns its constants. */
  function UnknownSizeDecompressors(reg: Registry, impl: string): (r: Result<seq<UnknownSizeDecompressor>>)
    ensures r.Ok? <==> ClassName(impl, "UnknownSizeDecompressor") in reg
                       && reg[ClassName(impl, "UnknownSizeDecompressor")].UnknownSizeEnum?
    ensures r.Ok? ==> r.value == reg[ClassName(impl, "UnknownSizeDecompressor")].unknownSizeDecompressors
  {
    var name := ClassName(impl, "UnknownSizeDecompressor");
    match Load(reg, name)
    case Err(f) => Err(f)
    case Ok(UnknownSizeEnum(us)) => Ok(us)
    case Ok(_) => Err(NotAssignable(name))
  }

  /** A zero-initialised Java byte array of length n. */
  function Zeros(n: nat): (z: seq<byte>)
    ensures |z| == n && forall i :: 0 <= i < n ==> z[i] == 0
  {
    seq(n, _ => 0)
  }

  /** The contents of a buffer after an engine wrote `w` at offset 0: the bytes
      past `w` keep their old values. */
  function Overlay(buf: seq<byte>, w: seq<byte>): (r: seq<byte>)
    requires |w| <= |buf|
    ensures |r| == |buf| && r[..|w|] == w && r[|w|..] == buf[|w|..]
  {
    w + buf[|w|..]
  }
}
