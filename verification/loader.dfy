/**
 * `runLoader` of src/index.ts and the option handling of its webpack entry point: the search
 * path is built, the dependency walk runs from the compiled module, the runtime path and every
 * loaded module's path are reported to the build, and the bundle text is emitted.
 */
module Loader {
  import opened Wrappers
  import opened Buffers
  import opened OrderedSet
  import opened OrderedMap
  import opened Imports
  import opened Resolve
  import opened Reach
  import opened Walker
  import DedupWalker
  import Runtime

  /** Where the browser runtime lives under the Grain installation. */
  const RuntimeLookupPath := "runtime/dist/grain-runtime-browser.js"

  /** The loader's inputs: the directory of the source file, `includeDirs` and `grainHome`. */
  datatype Options = Options(sourceDir: string, includeDirs: seq<string>, grainHome: string)

  /**
   * What one run hands back to webpack: the module text, or the error the run stopped at, and
   * the dependencies reported to the build either way (`addDependency` calls are not undone).
   */
  datatype Output = Output(code: Result<string, Error>, dependencies: seq<string>)

  function RuntimePath(opts: Options): string {
    PathJoin(opts.grainHome, RuntimeLookupPath)
  }

  function Dirs(opts: Options): seq<string> {
    SearchPath(opts.sourceDir, opts.includeDirs, opts.grainHome)
  }

  /** The walk `runLoader` performs, as written, from an empty `loadedImports`. */
  function Walk(fs: FileSystem, decode: Buffer -> seq<Field>, opts: Options, wasm: Buffer, fuel: nat): Outcome {
    Walker.LoadImports(fs, decode, Dirs(opts), wasm, Initial, fuel)
  }

  /** The walk with the corrected "already loaded" test. */
  function FixedWalk(fs: FileSystem, decode: Buffer -> seq<Field>, opts: Options, wasm: Buffer): Outcome {
    DedupWalker.LoadImports(fs, decode, Dirs(opts), wasm, Initial)
  }

  /**
   * Turns a walk into the loader's output; `grainRuntime` is the runtime file's text. The
   * runtime path was reported before the walk began, so it heads the dependencies whatever
   * the outcome; the runtime file is read only once the walk has ended without error.
   */
  function Finish(opts: Options, walk: Outcome, grainRuntime: Option<string>, wasm: Buffer): (r: Output)
    ensures r.dependencies == [RuntimePath(opts)] + walk.st.report
    ensures walk.error.Some? ==> r.code == Failure(walk.error.value)
    ensures walk.error.None? && grainRuntime.None? ==> r.code == Failure(ReadFailed(RuntimePath(opts)))
    ensures r.code.Success? <==> walk.error.None? && grainRuntime.Some?
    ensures r.code.Success? ==> Runtime.Decode(r.code.value, grainRuntime.value) == Some((walk.st.loaded, wasm))
  {
    var deps := [RuntimePath(opts)] + walk.st.report;
    match walk.error
    case Some(e) => Output(Failure(e), deps)
    case None =>
      match grainRuntime
      case None => Output(Failure(ReadFailed(RuntimePath(opts))), deps)
      case Some(text) =>
        Runtime.BundleRoundTrip(text, walk.st.loaded, wasm);
        Output(Success(Runtime.Bundle(text, walk.st.loaded, wasm)), deps)
  }

  /**
   * `runLoader` as written. `wasm` is what the compiler produced for the source file, and
   * `grainRuntime` the text of the runtime file (`None` when it cannot be read). A run that
   * fails on an import names one that no directory has and that the walk reached; a run that
   * succeeds emits a bundle registering exactly the modules the walk stored, and every import
   * of the compiled module and of every stored module looks loaded to the raw-name lookup.
   */
  function RunLoader(fs: FileSystem, decode: Buffer -> seq<Field>, opts: Options, wasm: Buffer,
                     grainRuntime: Option<string>, fuel: nat): (r: Output)
    ensures r.code.Success? <==> Walk(fs, decode, opts, wasm, fuel).error.None? && grainRuntime.Some?
    ensures r.code.Failure? && r.code.error.Unresolved? ==>
      && ResolveImport(fs.stat, Dirs(opts), r.code.error.name).None? && r.code.error.name !in RuntimeModules
      && Reached(ImportEdge(fs, decode, Dirs(opts)), DetectImports(decode(wasm)),
                 Walk(fs, decode, opts, wasm, fuel).st.loads + [r.code.error.name])
    ensures r.code.Success? ==>
      var st := Walk(fs, decode, opts, wasm, fuel).st;
      && Runtime.Decode(r.code.value, grainRuntime.value) == Some((st.loaded, wasm))
      && (forall n :: n in DetectImports(decode(wasm)) ==> Seen(KeySet(st.loaded), n, true))
      && (forall e, m :: e in st.loaded && m in DetectImports(decode(e.1)) ==> Seen(KeySet(st.loaded), m, true))
  {
    var walk := Walk(fs, decode, opts, wasm, fuel);
    assert WalkInv(fs, Dirs(opts), Initial);
    assert walk.st.loads[|Initial.loads|..] == walk.st.loads;
    Walker.WalkReaches(fs, decode, Dirs(opts), wasm, Initial, fuel);
    Walker.WalkCloses(fs, decode, Dirs(opts), wasm, Initial, fuel);
    if walk.error.None? then
      RegisteredClosed(fs, decode, Dirs(opts), walk.st, true);
      Finish(opts, walk, grainRuntime, wasm)
    else Finish(opts, walk, grainRuntime, wasm)
  }

  /**
   * The dependencies `runLoader` reports, whether or not the run succeeds: the runtime path
   * first, then one path per module loaded, in load order, each the resolved path of that
   * module without `.wasm`.
   */
  lemma RunLoaderDependencies(fs: FileSystem, decode: Buffer -> seq<Field>, opts: Options, wasm: Buffer,
                              grainRuntime: Option<string>, fuel: nat)
    ensures var deps := RunLoader(fs, decode, opts, wasm, grainRuntime, fuel).dependencies;
      var st := Walk(fs, decode, opts, wasm, fuel).st;
      && |deps| == 1 + |st.loads|
      && deps[0] == RuntimePath(opts)
      && forall i :: 0 <= i < |st.loads| ==> deps[i + 1] == ReportedPath(fs, Dirs(opts), st.loads[i])
  {
    var st := Walk(fs, decode, opts, wasm, fuel).st;
    assert WalkInv(fs, Dirs(opts), Initial);
    ReportsFollowRuntime(fs, Dirs(opts), RuntimePath(opts), st);
  }

  /**
   * What `runLoader` stores, whether or not the run succeeds: one entry per key, each key the
   * qualified name of a module loaded, each entry the bytes of that module's resolved file,
   * and each module loaded an import of the compiled module or of a module loaded before it.
   */
  lemma RunLoaderRegistered(fs: FileSystem, decode: Buffer -> seq<Field>, opts: Options, wasm: Buffer, fuel: nat)
    ensures var st := Walk(fs, decode, opts, wasm, fuel).st;
      && UniqueKeys(st.loaded)
      && (forall e :: e in st.loaded ==>
            && IsQualified(e.0) && Unqualify(e.0) in st.loads && Loadable(fs, Dirs(opts), Unqualify(e.0))
            && e.1 == LoadedBytes(fs, Dirs(opts), Unqualify(e.0)))
      && Reached(ImportEdge(fs, decode, Dirs(opts)), DetectImports(decode(wasm)), st.loads)
  {
    var st := Walk(fs, decode, opts, wasm, fuel).st;
    assert WalkInv(fs, Dirs(opts), Initial);
    QualifiedKeys(fs, Dirs(opts), st);
    Walker.WalkReaches(fs, decode, Dirs(opts), wasm, Initial, fuel);
    assert st.loads[|Initial.loads|..] == st.loads;
  }

  /** Behind the runtime path, the reported paths are those of the loaded imports, in order. */
  lemma ReportsFollowRuntime(fs: FileSystem, dirs: seq<string>, runtimePath: string, st: State)
    requires |st.report| == |st.loads|
    requires forall i :: 0 <= i < |st.loads| ==> Loadable(fs, dirs, st.loads[i]) && st.report[i] == ReportedPath(fs, dirs, st.loads[i])
    ensures |[runtimePath] + st.report| == 1 + |st.loads|
    ensures forall i :: 0 <= i < |st.loads| ==>
      ([runtimePath] + st.report)[i + 1] == ReportedPath(fs, dirs, st.loads[i])
  {
    forall i | 0 <= i < |st.loads|
      ensures ([runtimePath] + st.report)[i + 1] == ReportedPath(fs, dirs, st.loads[i])
    {
      assert ([runtimePath] + st.report)[i + 1] == st.report[i];
    }
  }

  /** Every key of a walk's map has the qualified form. */
  lemma QualifiedKeys(fs: FileSystem, dirs: seq<string>, st: State)
    requires WalkInv(fs, dirs, st)
    ensures forall e :: e in st.loaded ==> IsQualified(e.0)
  {
    forall e | e in st.loaded ensures IsQualified(e.0) {
      QualifiedIff(e.0);
    }
  }

  /**
   * The loader with the corrected walk. It never runs out of fuel. Whatever the outcome, the
   * dependencies are the runtime path and then one report per load, no import is loaded twice,
   * and every load is reached from the compiled module's imports. On success every import of
   * the compiled module and of every registered module is registered.
   */
  function RunLoaderFixed(fs: FileSystem, decode: Buffer -> seq<Field>, opts: Options, wasm: Buffer,
                          grainRuntime: Option<string>): (r: Output)
    ensures r.code.Success? <==> FixedWalk(fs, decode, opts, wasm).error.None? && grainRuntime.Some?
    ensures r.code.Failure? ==> !r.code.error.OutOfFuel?
    ensures r.code.Failure? && r.code.error.Unresolved? ==>
      && ResolveImport(fs.stat, Dirs(opts), r.code.error.name).None? && r.code.error.name !in RuntimeModules
      && Reached(ImportEdge(fs, decode, Dirs(opts)), DetectImports(decode(wasm)),
                 FixedWalk(fs, decode, opts, wasm).st.loads + [r.code.error.name])
    ensures var st := FixedWalk(fs, decode, opts, wasm).st;
      && r.dependencies == [RuntimePath(opts)] + st.report
      && NoDuplicates(st.loads)
      && |st.report| == |st.loaded| == |st.loads|
      && Reached(ImportEdge(fs, decode, Dirs(opts)), DetectImports(decode(wasm)), st.loads)
    ensures r.code.Success? ==>
      var st := FixedWalk(fs, decode, opts, wasm).st;
      && Runtime.Decode(r.code.value, grainRuntime.value) == Some((st.loaded, wasm))
      && UniqueKeys(st.loaded)
      && (forall n :: n in DetectImports(decode(wasm)) ==> WasmImportName(n) in KeySet(st.loaded))
      && (forall e, m :: e in st.loaded && m in DetectImports(decode(e.1)) ==>
            WasmImportName(m) in KeySet(st.loaded))
  {
    var walk := FixedWalk(fs, decode, opts, wasm);
    assert WalkInv(fs, Dirs(opts), Initial) && DedupWalker.InLoadOrder(Initial);
    assert walk.st.loads[|Initial.loads|..] == walk.st.loads;
    DedupWalker.LoadedOnce(fs, Dirs(opts), walk.st);
    DedupWalker.WalkReaches(fs, decode, Dirs(opts), wasm, Initial);
    DedupWalker.WalkCloses(fs, decode, Dirs(opts), wasm, Initial);
    if walk.error.None? then
      RegisteredClosed(fs, decode, Dirs(opts), walk.st, false);
      Finish(opts, walk, grainRuntime, wasm)
    else Finish(opts, walk, grainRuntime, wasm)
  }

  /**
   * The corrected loader loads nothing beyond the reachable closure: any set of names that
   * holds the compiled module's imports and every import of each of its members holds every
   * module loaded. With the closure facts of `RunLoaderFixed`, a successful run registers
   * exactly the modules reachable from the compiled module.
   */
  lemma FixedLoadsWithin(fs: FileSystem, decode: Buffer -> seq<Field>, opts: Options, wasm: Buffer, closure: set<string>)
    requires forall n :: n in DetectImports(decode(wasm)) ==> n in closure
    requires forall m, n :: n in closure && ImportedBy(fs, decode, Dirs(opts), m, n) ==> m in closure
    ensures forall n :: n in FixedWalk(fs, decode, opts, wasm).st.loads ==> n in closure
  {
    var st := FixedWalk(fs, decode, opts, wasm).st;
    DedupWalker.WalkReaches(fs, decode, Dirs(opts), wasm, Initial);
    assert st.loads[|Initial.loads|..] == st.loads;
    forall m, n | n in closure && ImportEdge(fs, decode, Dirs(opts))(m, n) ensures m in closure {
      assert ImportedBy(fs, decode, Dirs(opts), m, n);
    }
    ReachedWithin(ImportEdge(fs, decode, Dirs(opts)), DetectImports(decode(wasm)), st.loads, closure);
  }

  /** After a complete walk, every import of every registered module is seen among the keys. */
  lemma RegisteredClosed(fs: FileSystem, decode: Buffer -> seq<Field>, dirs: seq<string>, st: State, raw: bool)
    requires WalkInv(fs, dirs, st)
    requires Closed(fs, decode, dirs, st.loads, KeySet(st.loaded), raw)
    ensures forall e, m :: e in st.loaded && m in DetectImports(decode(e.1)) ==> Seen(KeySet(st.loaded), m, raw)
  {
    forall e, m | e in st.loaded && m in DetectImports(decode(e.1))
      ensures Seen(KeySet(st.loaded), m, raw)
    {
      var n := Unqualify(e.0);
      var i :| 0 <= i < |st.loads| && st.loads[i] == n;
      assert ImportsStored(fs, decode, dirs, st.loads[i], KeySet(st.loaded), raw);
    }
  }
}
