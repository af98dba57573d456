/** The static entry points of LZ4Factory: one per implementation, and the two
    fallback selectors. A `Run` records, beside the result, the implementation
    names in the order the selector tried to construct them. */
module Selection {
  import opened Capabilities
  import opened Certification
  import opened Factory

  const JNI: string := "JNI"
  const JavaUnsafe: string := "JavaUnsafe"
  const JavaSafe: string := "JavaSafe"

  /** `instance(impl)`: construct, turning a missing class into an assertion
      failure. A missing backend is never a returned instance. */
  function Instance(impl: string, reg: Registry): (r: Result<LZ4Factory>)
    ensures r.Ok? <==> Construct(impl, reg).Ok?
    ensures r.Ok? ==> r == Construct(impl, reg) && r.value.impl == impl && Certified(r.value)
    ensures r.Ok? ==> r.value.ToString() == "LZ4Factory:" + impl
    ensures r.Err? ==> !r.error.ClassNotFound?
    ensures Construct(impl, reg).Err? && Construct(impl, reg).error.ClassNotFound? ==>
      r == Err(Unavailable(Construct(impl, reg).error.className))
    ensures Construct(impl, reg).Err? && !Construct(impl, reg).error.ClassNotFound? ==> r == Construct(impl, reg)
    ensures ClassName(impl, "Compressor") !in reg ==> r == Err(Unavailable(ClassName(impl, "Compressor")))
  {
    match Construct(impl, reg)
    case Err(ClassNotFound(name)) => Err(Unavailable(name))
    case other => other
  }

  /** The JNI binding to the C library. */
  function NativeInstance(reg: Registry): Result<LZ4Factory>
  {
    Instance(JNI, reg)
  }

  /** The port written against Java's official API. */
  function SafeInstance(reg: Registry): Result<LZ4Factory>
  {
    Instance(JavaSafe, reg)
  }

  /** The port that uses sun.misc.Unsafe. */
  function UnsafeInstance(reg: Registry): Result<LZ4Factory>
  {
    Instance(JavaUnsafe, reg)
  }

  datatype Run = Run(result: Result<LZ4Factory>, attempts: seq<string>)

  /** `fastestJavaInstance()`: the unsafe port, or on any failure the safe port,
      whose failure is not caught. */
  function FastestJavaRun(reg: Registry): Run
  {
    var unsafe := UnsafeInstance(reg);
    if unsafe.Ok? then Run(unsafe, [JavaUnsafe])
    else Run(SafeInstance(reg), [JavaUnsafe, JavaSafe])
  }

  function FastestJavaInstance(reg: Registry): Result<LZ4Factory>
  {
    FastestJavaRun(reg).result
  }

  /** `fastestInstance()`: the native binding is tried only when the native
      library is already loaded or the system class loader loaded the library;
      if it fails, or is not tried, the fastest Java instance is used. */
  function FastestRun(nativeLoaded: bool, systemLoader: bool, reg: Registry): Run
  {
    if nativeLoaded || systemLoader then
      var native := NativeInstance(reg);
      if native.Ok? then Run(native, [JNI])
      else
        var java := FastestJavaRun(reg);
        Run(java.result, [JNI] + java.attempts)
    else FastestJavaRun(reg)
  }

  function FastestInstance(nativeLoaded: bool, systemLoader: bool, reg: Registry): Result<LZ4Factory>
  {
    FastestRun(nativeLoaded, systemLoader, reg).result
  }

  /** The tiers in order of preference, native only when the gate allows it. */
  function Candidates(gate: bool): (tiers: seq<string>)
    ensures |tiers| > 0
  {
    if gate then [JNI, JavaUnsafe, JavaSafe] else [JavaUnsafe, JavaSafe]
  }

  /** Reference policy: try the tiers in order with `attempt` and stop at the
      first that constructs; the last tier's failure is the result when none does. */
  function FirstSuccess(tiers: seq<string>, attempt: string -> Result<LZ4Factory>): Run
    requires |tiers| > 0
    decreases |tiers|
  {
    var r := attempt(tiers[0]);
    if r.Ok? || |tiers| == 1 then Run(r, [tiers[0]])
    else
      var rest := FirstSuccess(tiers[1..], attempt);
      Run(rest.result, [tiers[0]] + rest.attempts)
  }

  /** The reference policy tries a prefix of the tiers, one at a time and in
      order; every tier before the last one tried failed; the result is the
      last tried tier's; and a failure means every tier was tried. */
  lemma {:induction false} FirstSuccessTriesPrefix(tiers: seq<string>, attempt: string -> Result<LZ4Factory>)
    requires |tiers| > 0
    ensures 0 < |FirstSuccess(tiers, attempt).attempts| <= |tiers|
    ensures FirstSuccess(tiers, attempt).attempts == tiers[..|FirstSuccess(tiers, attempt).attempts|]
    ensures var a := FirstSuccess(tiers, attempt).attempts;
      FirstSuccess(tiers, attempt).result == attempt(a[|a| - 1])
    ensures var a := FirstSuccess(tiers, attempt).attempts;
      forall i :: 0 <= i < |a| - 1 ==> attempt(a[i]).Err?
    ensures FirstSuccess(tiers, attempt).result.Err? ==> FirstSuccess(tiers, attempt).attempts == tiers
    decreases |tiers|
  {
    var run := FirstSuccess(tiers, attempt);
    if attempt(tiers[0]).Ok? || |tiers| == 1 {
      assert run == Run(attempt(tiers[0]), [tiers[0]]);
      assert tiers[..1] == [tiers[0]];
    } else {
      FirstSuccessTriesPrefix(tiers[1..], attempt);
      var rest := FirstSuccess(tiers[1..], attempt);
      var n := |rest.attempts|;
      assert run == Run(rest.result, [tiers[0]] + rest.attempts);
      assert tiers[..n + 1] == [tiers[0]] + tiers[1..][..n];
      assert run.attempts[n] == rest.attempts[n - 1];
      assert forall i :: 1 <= i < n + 1 ==> run.attempts[i] == rest.attempts[i - 1];
      assert rest.result.Err? ==> tiers == [tiers[0]] + tiers[1..];
    }
  }

  /** The attempt the selectors make for an implementation name. */
  function Attempt(reg: Registry): string -> Result<LZ4Factory>
  {
    impl => Instance(impl, reg)
  }

  /** `fastestInstance()` is exactly the reference policy over the tiers the gate allows. */
  lemma FastestRunIsFirstSuccess(nativeLoaded: bool, systemLoader: bool, reg: Registry)
    ensures FastestRun(nativeLoaded, systemLoader, reg) == FirstSuccess(Candidates(nativeLoaded || systemLoader), Attempt(reg))
  {
    assert [JavaUnsafe, JavaSafe][1..] == [JavaSafe];
    assert [JNI, JavaUnsafe, JavaSafe][1..] == [JavaUnsafe, JavaSafe];
    assert FirstSuccess([JavaSafe], Attempt(reg)) == Run(SafeInstance(reg), [JavaSafe]);
    assert FirstSuccess([JavaUnsafe, JavaSafe], Attempt(reg)) == FastestJavaRun(reg);
  }

  /** Order and no retry: the attempts are an ordered prefix of the allowed
      tiers, no name occurs twice, each attempt but the last failed, and the
      result is that of the last attempt. */
  lemma AttemptsInTierOrder(nativeLoaded: bool, systemLoader: bool, reg: Registry)
    ensures var run := FastestRun(nativeLoaded, systemLoader, reg);
      && 0 < |run.attempts|
      && run.attempts == Candidates(nativeLoaded || systemLoader)[..|run.attempts|]
      && (forall i, j :: 0 <= i < j < |run.attempts| ==> run.attempts[i] != run.attempts[j])
      && (forall i :: 0 <= i < |run.attempts| - 1 ==> Instance(run.attempts[i], reg).Err?)
      && run.result == Instance(run.attempts[|run.attempts| - 1], reg)
  {
    FastestRunIsFirstSuccess(nativeLoaded, systemLoader, reg);
    FirstSuccessTriesPrefix(Candidates(nativeLoaded || systemLoader), Attempt(reg));
  }

  /** With the gate closed, native is neither tried nor returned, and the
      result is the fastest Java instance. */
  lemma GateClosedSkipsNative(nativeLoaded: bool, systemLoader: bool, reg: Registry)
    requires !nativeLoaded && !systemLoader
    ensures JNI !in FastestRun(nativeLoaded, systemLoader, reg).attempts
    ensures FastestInstance(nativeLoaded, systemLoader, reg) == FastestJavaInstance(reg)
    ensures FastestInstance(nativeLoaded, systemLoader, reg).Ok? ==>
      FastestInstance(nativeLoaded, systemLoader, reg).value.impl != JNI
  {
  }

  /** With the gate open, a working native binding wins; a failing one leaves
      the result to the fastest Java instance. */
  lemma GateOpenPrefersNative(nativeLoaded: bool, systemLoader: bool, reg: Registry)
    requires nativeLoaded || systemLoader
    ensures NativeInstance(reg).Ok? ==> FastestInstance(nativeLoaded, systemLoader, reg) == NativeInstance(reg)
    ensures NativeInstance(reg).Err? ==> FastestInstance(nativeLoaded, systemLoader, reg) == FastestJavaInstance(reg)
  {
  }

  /** The unsafe port is returned whenever it constructs; otherwise the safe
      port, its failure included. */
  lemma FastestJavaPrefersUnsafe(reg: Registry)
    ensures UnsafeInstance(reg).Ok? ==> FastestJavaInstance(reg) == UnsafeInstance(reg)
    ensures UnsafeInstance(reg).Err? ==> FastestJavaInstance(reg) == SafeInstance(reg)
  {
  }

  /** The only failure that escapes the selectors is the safe port's: the result
      is an error exactly when every allowed tier fails, and it is then the
      safe port's error. */
  lemma SafeFailurePropagates(nativeLoaded: bool, systemLoader: bool, reg: Registry)
    ensures FastestInstance(nativeLoaded, systemLoader, reg).Err? <==>
      ((nativeLoaded || systemLoader) ==> NativeInstance(reg).Err?)
      && UnsafeInstance(reg).Err? && SafeInstance(reg).Err?
    ensures FastestInstance(nativeLoaded, systemLoader, reg).Err? ==>
      FastestInstance(nativeLoaded, systemLoader, reg) == SafeInstance(reg)
    ensures FastestJavaInstance(reg).Err? <==> UnsafeInstance(reg).Err? && SafeInstance(reg).Err?
  {
  }

  /** Whatever the selectors return is a certified factory of one of the three
      implementations, whose `toString` names it. */
  lemma EveryResultCertified(nativeLoaded: bool, systemLoader: bool, reg: Registry)
    ensures var r := FastestInstance(nativeLoaded, systemLoader, reg);
      r.Ok? ==> Certified(r.value) && r.value.impl in {JNI, JavaUnsafe, JavaSafe}
                && r.value.ToString() == "LZ4Factory:" + r.value.impl
  {
  }

  /** Each named entry point resolves its own implementation name, and
      succeeds exactly when that implementation constructs. */
  lemma TierNames(reg: Registry)
    ensures NativeInstance(reg).Ok? <==> Construct(JNI, reg).Ok?
    ensures SafeInstance(reg).Ok? <==> Construct(JavaSafe, reg).Ok?
    ensures UnsafeInstance(reg).Ok? <==> Construct(JavaUnsafe, reg).Ok?
    ensures NativeInstance(reg).Ok? ==> NativeInstance(reg).value.ToString() == "LZ4Factory:JNI"
    ensures SafeInstance(reg).Ok? ==> SafeInstance(reg).value.ToString() == "LZ4Factory:JavaSafe"
    ensures UnsafeInstance(reg).Ok? ==> UnsafeInstance(reg).value.ToString() == "LZ4Factory:JavaUnsafe"
  {
    assert NativeInstance(reg) == Instance(JNI, reg);
    assert "LZ4Factory:" + JNI == "LZ4Factory:JNI";
    assert SafeInstance(reg) == Instance(JavaSafe, reg);
    assert "LZ4Factory:" + JavaSafe == "LZ4Factory:JavaSafe";
    assert UnsafeInstance(reg) == Instance(JavaUnsafe, reg);
    assert "LZ4Factory:" + JavaUnsafe == "LZ4Factory:JavaUnsafe";
  }

  /** Two registries hold the same class (or both lack it) under `name`. */
  ghost predicate SameClass(r1: Registry, r2: Registry, name: string)
  {
    (name in r1 <==> name in r2) && (name in r1 ==> r1[name] == r2[name])
  }

  /** Two registries agree on the three classes of one implementation. */
  ghost predicate SameBackend(r1: Registry, r2: Registry, impl: string)
  {
    SameClass(r1, r2, ClassName(impl, "Compressor"))
    && SameClass(r1, r2, ClassName(impl, "Decompressor"))
    && SameClass(r1, r2, ClassName(impl, "UnknownSizeDecompressor"))
  }

  /** Constructing an implementation looks at no class but its own three. */
  lemma InstanceReadsOwnClasses(impl: string, r1: Registry, r2: Registry)
    requires SameBackend(r1, r2, impl)
    ensures Instance(impl, r1) == Instance(impl, r2)
  {
    assert Compressors(r1, impl) == Compressors(r2, impl);
    assert Decompressors(r1, impl) == Decompressors(r2, impl);
    assert UnknownSizeDecompressors(r1, impl) == UnknownSizeDecompressors(r2, impl);
  }

  /** With the gate closed the native classes are never loaded: registries that
      agree on the two Java implementations give the same result, whatever
      they hold for JNI. */
  lemma GateClosedIgnoresNativeClasses(r1: Registry, r2: Registry)
    requires SameBackend(r1, r2, JavaUnsafe) && SameBackend(r1, r2, JavaSafe)
    ensures FastestInstance(false, false, r1) == FastestInstance(false, false, r2)
  {
    InstanceReadsOwnClasses(JavaUnsafe, r1, r2);
    InstanceReadsOwnClasses(JavaSafe, r1, r2);
  }
}
