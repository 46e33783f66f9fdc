/**
 * Concrete runs of the loader: the single-import example, an import cycle, and an import whose
 * name is also a property every JavaScript object inherits.
 */
module Scenarios {
  import opened Wrappers
  import opened Buffers
  import opened Strings
  import opened OrderedMap
  import opened Imports
  import opened Resolve
  import opened Walker
  import opened Loader
  import DedupWalker
  import Runtime

  /** The field the Grain compiler emits for an import of module `n`. */
  function GrainImport(n: string): Field {
    Field(ModuleImport, Marker + n, "main")
  }

  /** Detecting the imports of a module that imports exactly `n`. */
  lemma DetectOne(n: string)
    requires n !in RuntimeModules
    ensures DetectImports([GrainImport(n)]) == [n]
  {
    var fields := [GrainImport(n)];
    StripMarkerOf(n);
    assert fields[1..] == [];
    assert Candidates(fields) == [n];
    assert [n][..0] == [];
    assert OrderedSet.FromSeq([n]) == [n];
  }

  const Root: Buffer := [0]

  // The root module imports `foo`; only the second search directory has it.
  const FooPath := "dirB/foo.gr.wasm"
  const FooBytes: Buffer := [1, 2, 3]
  const FooFs := FileSystem({FooPath}, map[FooPath := FooBytes])
  const FooOpts := Options("dirA", ["dirB"], "grain")

  function FooDecode(b: Buffer): seq<Field> {
    if b == Root then [GrainImport("foo")] else []
  }

  lemma FooResolves()
    ensures ResolveImport(FooFs.stat, Dirs(FooOpts), "foo") == Some(FooPath)
  {
    var dirs := Dirs(FooOpts);
    assert dirs[0] == "dirA" && dirs[1] == "dirB" && dirs[1..][0] == "dirB";
    assert Candidate("dirA", "foo") != FooPath by {
      assert Candidate("dirA", "foo")[3] == 'A';
    }
    assert Candidate("dirB", "foo") == FooPath;
  }

  /** Every name `Object.prototype` supplies has at least seven characters. */
  lemma ShortNotInherited(n: string)
    requires |n| < 7
    ensures n !in InheritedKeys
  {
  }

  /** A name shorter than `stdlib-external` gets the marker. */
  lemma ShortNameQualified(n: string)
    requires |n| < |StdlibExternal|
    ensures WasmImportName(n) == Marker + n
  {
    assert !Contains(n, StdlibExternal) by {
      if Contains(n, StdlibExternal) {
        ContainsIff(n, StdlibExternal, 0);
      }
    }
  }

  /** `path.replace(/\.wasm$/, '')` on a module path drops the final `.wasm` only. */
  lemma DependencyPathOf(stem: string)
    ensures DependencyPath(stem + ".gr.wasm") == stem + ".gr"
  {
    var p := stem + ".gr.wasm";
    assert p == (stem + ".gr") + ".wasm";
    assert p[|p| - 5..] == ".wasm";
  }

  const FooState := State([(Marker + "foo", FooBytes)], ["dirB/foo.gr"], ["foo"])

  /** A module whose only import looks loaded is walked without a change. */
  lemma SoleSkipped(fs: FileSystem, decode: Buffer -> seq<Field>, dirs: seq<string>, wasm: Buffer,
                    st: State, n: string, fuel: nat)
    requires DetectImports(decode(wasm)) == [n] && n !in RuntimeModules && Truthy(st.loaded, n)
    ensures Walker.LoadImports(fs, decode, dirs, wasm, st, fuel + 1) == Outcome(st, None)
  {
    Walker.HeadSkips(fs, decode, dirs, [n], st, fuel);
    Walker.ImportsStep(fs, decode, dirs, wasm, st, fuel);
    assert [n][1..] == [];
  }

  /** A module whose only import is loaded ends where the walk of that import ends. */
  lemma SoleLoaded(fs: FileSystem, decode: Buffer -> seq<Field>, dirs: seq<string>, wasm: Buffer,
                   st: State, n: string, fuel: nat, st2: State)
    requires DetectImports(decode(wasm)) == [n] && n !in RuntimeModules
    requires !Truthy(st.loaded, n) && Loadable(fs, dirs, n)
    requires Walker.LoadImports(fs, decode, dirs, LoadedBytes(fs, dirs, n), Load(fs, dirs, st, n), fuel) == Outcome(st2, None)
    ensures Walker.LoadImports(fs, decode, dirs, wasm, st, fuel + 1) == Outcome(st2, None)
  {
    Walker.HeadLoads(fs, decode, dirs, [n], st, fuel, st2);
    Walker.ImportsStep(fs, decode, dirs, wasm, st, fuel);
    assert [n][1..] == [];
  }

  /** A module without imports is walked without a change. */
  lemma Leaf(fs: FileSystem, decode: Buffer -> seq<Field>, dirs: seq<string>, wasm: Buffer, st: State, fuel: nat)
    requires DetectImports(decode(wasm)) == []
    ensures Walker.LoadImports(fs, decode, dirs, wasm, st, fuel + 1) == Outcome(st, None)
  {
    Walker.ImportsStep(fs, decode, dirs, wasm, st, fuel);
  }

  /** SoleSkipped for the corrected walk. */
  lemma FixedSoleSkipped(fs: FileSystem, decode: Buffer -> seq<Field>, dirs: seq<string>, wasm: Buffer,
                         st: State, n: string)
    requires DetectImports(decode(wasm)) == [n] && n !in RuntimeModules && WasmImportName(n) in KeySet(st.loaded)
    ensures DedupWalker.LoadImports(fs, decode, dirs, wasm, st) == Outcome(st, None)
  {
    DedupWalker.HeadSkips(fs, decode, dirs, [n], st);
    DedupWalker.ImportsStep(fs, decode, dirs, wasm, st);
    assert [n][1..] == [];
  }

  /** SoleLoaded for the corrected walk. */
  lemma FixedSoleLoaded(fs: FileSystem, decode: Buffer -> seq<Field>, dirs: seq<string>, wasm: Buffer,
                        st: State, n: string, st2: State)
    requires DetectImports(decode(wasm)) == [n] && n !in RuntimeModules
    requires WasmImportName(n) !in KeySet(st.loaded) && Loadable(fs, dirs, n)
    requires DedupWalker.LoadImports(fs, decode, dirs, LoadedBytes(fs, dirs, n), Load(fs, dirs, st, n)) == Outcome(st2, None)
    ensures DedupWalker.LoadImports(fs, decode, dirs, wasm, st) == Outcome(st2, None)
  {
    DedupWalker.HeadLoads(fs, decode, dirs, [n], st, st2);
    DedupWalker.ImportsStep(fs, decode, dirs, wasm, st);
    assert [n][1..] == [];
  }

  /** Leaf for the corrected walk. */
  lemma FixedLeaf(fs: FileSystem, decode: Buffer -> seq<Field>, dirs: seq<string>, wasm: Buffer, st: State)
    requires DetectImports(decode(wasm)) == []
    ensures DedupWalker.LoadImports(fs, decode, dirs, wasm, st) == Outcome(st, None)
  {
    DedupWalker.ImportsStep(fs, decode, dirs, wasm, st);
  }

  lemma InitialEmpty()
    ensures KeySet(Initial.loaded) == {}
  {
  }

  lemma FooDetects()
    ensures DetectImports(FooDecode(Root)) == ["foo"]
    ensures DetectImports(FooDecode(FooBytes)) == []
  {
    DetectOne("foo");
  }

  /**
   * The walk of the example: `foo` is found in the second directory, stored under its
   * qualified name with the bytes of that file, and reported without the `.wasm` suffix.
   */
  lemma FooWalk(fuel: nat)
    ensures Walk(FooFs, FooDecode, FooOpts, Root, fuel + 2) == Outcome(FooState, None)
  {
    var dirs := Dirs(FooOpts);
    FooDetects();
    FooLoad();
    ShortNotInherited("foo");
    InitialEmpty();
    Leaf(FooFs, FooDecode, dirs, FooBytes, FooState, fuel);
    SoleLoaded(FooFs, FooDecode, dirs, Root, Initial, "foo", fuel + 1, FooState);
    assert fuel + 1 + 1 == fuel + 2;
  }

  lemma FooLoad()
    ensures Loadable(FooFs, Dirs(FooOpts), "foo")
    ensures LoadedBytes(FooFs, Dirs(FooOpts), "foo") == FooBytes
    ensures Load(FooFs, Dirs(FooOpts), Initial, "foo") == FooState
  {
    var dirs := Dirs(FooOpts);
    FooResolves();
    ShortNameQualified("foo");
    assert FooPath == "dirB/foo" + ".gr.wasm";
    DependencyPathOf("dirB/foo");
    assert ReportedPath(FooFs, dirs, "foo") == "dirB/foo.gr";
    InitialEmpty();
  }

  lemma Pair<T>(a: T, xs: seq<T>, b: T)
    requires xs == [b]
    ensures [a] + xs == [a, b]
  {
  }

  /** A successful walk and a readable runtime give the bundle of what was stored and the reports behind the runtime path. */
  lemma Finished(opts: Options, st: State, grainRuntime: string, wasm: Buffer)
    ensures Finish(opts, Outcome(st, None), Some(grainRuntime), wasm)
      == Output(Success(Runtime.Bundle(grainRuntime, st.loaded, wasm)), [RuntimePath(opts)] + st.report)
  {
  }

  /** The loader's output for the example: the runtime path, then `dirB/foo.gr`; one registration. */
  lemma FooOutput(grainRuntime: string, fuel: nat)
    ensures RunLoader(FooFs, FooDecode, FooOpts, Root, Some(grainRuntime), fuel + 2)
      == Output(Success(Runtime.Bundle(grainRuntime, [(Marker + "foo", FooBytes)], Root)),
                [RuntimePath(FooOpts), "dirB/foo.gr"])
  {
    FooWalk(fuel);
    Finished(FooOpts, FooState, grainRuntime, Root);
    Pair(RuntimePath(FooOpts), FooState.report, "dirB/foo.gr");
  }

  // The root imports `foo`, and `foo` imports `bar`, which no directory has.
  function MissingDecode(b: Buffer): seq<Field> {
    if b == Root then [GrainImport("foo")]
    else if b == FooBytes then [GrainImport("bar")]
    else []
  }

  lemma BarMissing()
    ensures ResolveImport(FooFs.stat, Dirs(FooOpts), "bar").None?
  {
    forall d | d in Dirs(FooOpts) ensures Candidate(d, "bar") !in FooFs.stat {
      var c := Candidate(d, "bar");
      assert c == d + "/" + "bar.gr.wasm";
      assert c[|d| + 1] == 'b' && FooPath[5] == 'f';
    }
  }

  /** A module whose only import resolves nowhere: the walk stops there, with nothing added. */
  lemma SoleUnresolved(fs: FileSystem, decode: Buffer -> seq<Field>, dirs: seq<string>, wasm: Buffer,
                       st: State, n: string, fuel: nat)
    requires DetectImports(decode(wasm)) == [n] && n !in RuntimeModules
    requires !Truthy(st.loaded, n) && ResolveImport(fs.stat, dirs, n).None?
    ensures Walker.LoadImports(fs, decode, dirs, wasm, st, fuel + 1) == Outcome(st, Some(Unresolved(n)))
  {
    Walker.ImportsStep(fs, decode, dirs, wasm, st, fuel);
  }

  /**
   * A missing import two levels down: the loader throws, but the runtime path and the path of
   * `foo`, loaded before the throw, have already been reported to the build.
   */
  lemma MissingOutput(grainRuntime: string, fuel: nat)
    ensures RunLoader(FooFs, MissingDecode, FooOpts, Root, Some(grainRuntime), fuel + 2)
      == Output(Failure(Unresolved("bar")), [RuntimePath(FooOpts), "dirB/foo.gr"])
  {
    MissingWalk(fuel);
    Pair(RuntimePath(FooOpts), FooState.report, "dirB/foo.gr");
  }

  lemma MissingWalk(fuel: nat)
    ensures Walk(FooFs, MissingDecode, FooOpts, Root, fuel + 2) == Outcome(FooState, Some(Unresolved("bar")))
  {
    var dirs := Dirs(FooOpts);
    DetectOne("foo");
    DetectOne("bar");
    FooLoad();
    BarMissing();
    ShortNotInherited("foo");
    ShortNotInherited("bar");
    InitialEmpty();
    assert "bar" !in KeySet(FooState.loaded) by {
      assert KeySet(FooState.loaded) == {Marker + "foo"};
    }
    SoleUnresolved(FooFs, MissingDecode, dirs, FooBytes, FooState, "bar", fuel);
    FirstFails(FooFs, MissingDecode, dirs, Root, Initial, fuel + 1);
    assert fuel + 1 + 1 == fuel + 2;
  }

  // An import cycle: the root imports `a`, `a` imports `b`, and `b` imports `a` again.
  const APath := "src/a.gr.wasm"
  const BPath := "src/b.gr.wasm"
  const ABytes: Buffer := [1]
  const BBytes: Buffer := [2]
  const CycleFs := FileSystem({APath, BPath}, map[APath := ABytes, BPath := BBytes])
  const CycleOpts := Options("src", [], "grain")

  function CycleDecode(b: Buffer): seq<Field> {
    if b == Root || b == BBytes then [GrainImport("a")]
    else if b == ABytes then [GrainImport("b")]
    else []
  }

  /** The module `CycleDecode` finds in each module of the cycle. */
  function CycleImport(b: Buffer): string {
    if b == ABytes then "b" else "a"
  }

  lemma CycleFacts(b: Buffer)
    requires b == Root || b == ABytes || b == BBytes
    ensures DetectImports(CycleDecode(b)) == [CycleImport(b)]
  {
    DetectOne(CycleImport(b));
  }

  lemma CycleName(n: string)
    requires n == "a" || n == "b"
    ensures Loadable(CycleFs, Dirs(CycleOpts), n)
    ensures LoadedBytes(CycleFs, Dirs(CycleOpts), n) == (if n == "a" then ABytes else BBytes)
    ensures ReportedPath(CycleFs, Dirs(CycleOpts), n) == (if n == "a" then "src/a.gr" else "src/b.gr")
    ensures WasmImportName(n) == Marker + n
    ensures n !in InheritedKeys
  {
    CycleResolves(n);
    DependencyPathOf("src/" + n);
    assert "src/" + n + ".gr" == (if n == "a" then "src/a.gr" else "src/b.gr");
    ShortNameQualified(n);
    ShortNotInherited(n);
  }

  lemma CycleResolves(n: string)
    requires n == "a" || n == "b"
    ensures ResolveImport(CycleFs.stat, Dirs(CycleOpts), n) == Some(if n == "a" then APath else BPath)
  {
    var dirs := Dirs(CycleOpts);
    assert dirs[0] == "src";
    var p := Candidate("src", n);
    assert p == "src/" + n + ".gr.wasm";
    assert p == (if n == "a" then APath else BPath);
  }

  /** `a` and `b` form a cycle of ordinary modules. */
  lemma CycleIsOrdinary()
    ensures OrdinaryCycle(CycleFs, CycleDecode, Dirs(CycleOpts), {"a", "b"})
  {
    forall n | n in {"a", "b"}
      ensures Loadable(CycleFs, Dirs(CycleOpts), n) && n in {"a", "b"}
      ensures !IsQualified(n)
      ensures n !in InheritedKeys
      ensures FirstImportIn(CycleDecode, LoadedBytes(CycleFs, Dirs(CycleOpts), n), {"a", "b"})
    {
      CycleName(n);
      ShortNameUnqualified(n);
      var next := LoadedBytes(CycleFs, Dirs(CycleOpts), n);
      CycleFacts(next);
    }
  }

  /** A name shorter than the marker and than `stdlib-external` has no qualified form. */
  lemma ShortNameUnqualified(n: string)
    requires |n| < |Marker|
    ensures !IsQualified(n)
  {
    if Contains(n, StdlibExternal) {
      ContainsIff(n, StdlibExternal, 0);
    }
  }

  /**
   * As written, the loader never finishes on the cycle: whatever the depth bound, the walk
   * uses it up, because the raw names `a` and `b` are never keys.
   */
  lemma CycleNeverLoads(grainRuntime: string, fuel: nat)
    ensures RunLoader(CycleFs, CycleDecode, CycleOpts, Root, Some(grainRuntime), fuel).code == Failure(OutOfFuel)
  {
    CycleIsOrdinary();
    CycleFacts(Root);
    CycleNeverEnds(CycleFs, CycleDecode, Dirs(CycleOpts), {"a", "b"}, Root, Initial, fuel);
  }

  const CycleOne := State([(Marker + "a", ABytes)], ["src/a.gr"], ["a"])
  const CycleBoth := State([(Marker + "a", ABytes), (Marker + "b", BBytes)], ["src/a.gr", "src/b.gr"], ["a", "b"])

  lemma LoadA()
    ensures Loadable(CycleFs, Dirs(CycleOpts), "a")
    ensures Load(CycleFs, Dirs(CycleOpts), Initial, "a") == CycleOne
  {
    CycleName("a");
    assert KeySet(Initial.loaded) == {};
  }

  lemma LoadB()
    ensures Loadable(CycleFs, Dirs(CycleOpts), "b")
    ensures Load(CycleFs, Dirs(CycleOpts), CycleOne, "b") == CycleBoth
  {
    CycleName("b");
    OtherKey();
  }

  lemma OtherKey()
    ensures Marker + "b" !in KeySet(CycleOne.loaded)
  {
    assert (Marker + "a")[13] != (Marker + "b")[13];
    forall e | e in CycleOne.loaded ensures e.0 != Marker + "b" {
      assert e == CycleOne.loaded[0];
    }
  }

  /**
   * With the corrected test the cycle is walked once: `a` and `b` are each loaded and reported
   * once, and the walk stops when `b` imports `a` again.
   */
  lemma FixedCycle()
    ensures FixedWalk(CycleFs, CycleDecode, CycleOpts, Root) == Outcome(CycleBoth, None)
  {
    var dirs := Dirs(CycleOpts);
    FixedFromA();
    LoadA();
    CycleFacts(Root);
    CycleName("a");
    InitialEmpty();
    FixedSoleLoaded(CycleFs, CycleDecode, dirs, Root, Initial, "a", CycleBoth);
  }

  /** Walking `a` from the state where only `a` is stored ends with both stored. */
  lemma FixedFromA()
    ensures DedupWalker.LoadImports(CycleFs, CycleDecode, Dirs(CycleOpts), ABytes, CycleOne) == Outcome(CycleBoth, None)
  {
    var dirs := Dirs(CycleOpts);
    FixedFromB();
    LoadB();
    CycleFacts(ABytes);
    CycleName("b");
    OtherKey();
    FixedSoleLoaded(CycleFs, CycleDecode, dirs, ABytes, CycleOne, "b", CycleBoth);
  }

  /** Walking `b` once both are stored finds `a` already there and stops. */
  lemma FixedFromB()
    ensures DedupWalker.LoadImports(CycleFs, CycleDecode, Dirs(CycleOpts), BBytes, CycleBoth) == Outcome(CycleBoth, None)
  {
    CycleFacts(BBytes);
    CycleName("a");
    assert CycleBoth.loaded[0].0 == Marker + "a";
    FixedSoleSkipped(CycleFs, CycleDecode, Dirs(CycleOpts), BBytes, CycleBoth, "a");
  }

  /** The corrected loader bundles the cycle: two registrations, `a` first, and two reports. */
  lemma FixedCycleOutput(grainRuntime: string)
    ensures RunLoaderFixed(CycleFs, CycleDecode, CycleOpts, Root, Some(grainRuntime))
      == Output(Success(Runtime.Bundle(grainRuntime, CycleBoth.loaded, Root)),
                [RuntimePath(CycleOpts), "src/a.gr", "src/b.gr"])
  {
    FixedCycle();
    Finished(CycleOpts, CycleBoth, grainRuntime, Root);
    assert [RuntimePath(CycleOpts)] + CycleBoth.report == [RuntimePath(CycleOpts), "src/a.gr", "src/b.gr"];
  }

  // The root imports a module named `constructor`, a name every JavaScript object inherits.
  const CtorPath := "src/constructor.gr.wasm"
  const CtorBytes: Buffer := [3]
  const CtorFs := FileSystem({CtorPath}, map[CtorPath := CtorBytes])
  const CtorOpts := Options("src", [], "grain")
  const CtorLoaded := State([(Marker + "constructor", CtorBytes)], ["src/constructor.gr"], ["constructor"])

  function CtorDecode(b: Buffer): seq<Field> {
    if b == Root then [GrainImport("constructor")] else []
  }

  /**
   * As written, `loadedImports['constructor']` is the inherited `Object` constructor, so the
   * import looks loaded: the walk succeeds without loading it, the bundle registers nothing,
   * and only the runtime is reported, although the file is there to be found.
   */
  lemma CtorSkipped(grainRuntime: string, fuel: nat)
    ensures ResolveImport(CtorFs.stat, Dirs(CtorOpts), "constructor") == Some(CtorPath)
    ensures Walk(CtorFs, CtorDecode, CtorOpts, Root, fuel + 1) == Outcome(Initial, None)
    ensures RunLoader(CtorFs, CtorDecode, CtorOpts, Root, Some(grainRuntime), fuel + 1)
      == Output(Success(Runtime.Bundle(grainRuntime, [], Root)), [RuntimePath(CtorOpts)])
  {
    CtorResolves();
    CtorWalkSkips(fuel);
    Finished(CtorOpts, Initial, grainRuntime, Root);
    assert [RuntimePath(CtorOpts)] + Initial.report == [RuntimePath(CtorOpts)];
  }

  lemma CtorWalkSkips(fuel: nat)
    ensures Walk(CtorFs, CtorDecode, CtorOpts, Root, fuel + 1) == Outcome(Initial, None)
  {
    CtorDetects();
    assert "constructor" in InheritedKeys;
    SoleSkipped(CtorFs, CtorDecode, Dirs(CtorOpts), Root, Initial, "constructor", fuel);
  }

  lemma CtorDetects()
    ensures DetectImports(CtorDecode(Root)) == ["constructor"]
    ensures DetectImports(CtorDecode(CtorBytes)) == []
  {
    DetectOne("constructor");
  }

  lemma CtorResolves()
    ensures ResolveImport(CtorFs.stat, Dirs(CtorOpts), "constructor") == Some(CtorPath)
  {
    var dirs := Dirs(CtorOpts);
    assert dirs[0] == "src";
    assert Candidate("src", "constructor") == CtorPath;
  }

  lemma CtorLoadable()
    ensures Loadable(CtorFs, Dirs(CtorOpts), "constructor")
    ensures LoadedBytes(CtorFs, Dirs(CtorOpts), "constructor") == CtorBytes
  {
    CtorResolves();
  }

  lemma CtorReported()
    ensures Loadable(CtorFs, Dirs(CtorOpts), "constructor")
    ensures ReportedPath(CtorFs, Dirs(CtorOpts), "constructor") == "src/constructor.gr"
  {
    CtorLoadable();
    CtorResolves();
    assert DependencyPath(CtorPath) == "src/constructor.gr" by {
      DependencyPathOf("src/constructor");
      assert "src/constructor" + ".gr.wasm" == CtorPath;
      assert "src/constructor" + ".gr" == "src/constructor.gr";
    }
  }

  lemma CtorFacts()
    ensures Loadable(CtorFs, Dirs(CtorOpts), "constructor")
    ensures LoadedBytes(CtorFs, Dirs(CtorOpts), "constructor") == CtorBytes
    ensures ReportedPath(CtorFs, Dirs(CtorOpts), "constructor") == "src/constructor.gr"
    ensures WasmImportName("constructor") == Marker + "constructor"
  {
    CtorLoadable();
    CtorReported();
    ShortNameQualified("constructor");
  }

  /** The corrected test looks for an own key `GRAIN$MODULE$constructor`, and loads the module. */
  lemma CtorLoadedWhenFixed(grainRuntime: string)
    ensures FixedWalk(CtorFs, CtorDecode, CtorOpts, Root) == Outcome(CtorLoaded, None)
    ensures RunLoaderFixed(CtorFs, CtorDecode, CtorOpts, Root, Some(grainRuntime))
      == Output(Success(Runtime.Bundle(grainRuntime, CtorLoaded.loaded, Root)),
                [RuntimePath(CtorOpts), "src/constructor.gr"])
  {
    CtorFixedWalk();
    Finished(CtorOpts, CtorLoaded, grainRuntime, Root);
    Pair(RuntimePath(CtorOpts), CtorLoaded.report, "src/constructor.gr");
  }

  lemma CtorFixedWalk()
    ensures FixedWalk(CtorFs, CtorDecode, CtorOpts, Root) == Outcome(CtorLoaded, None)
  {
    var dirs := Dirs(CtorOpts);
    CtorDetects();
    CtorFacts();
    CtorLoad();
    InitialEmpty();
    FixedLeaf(CtorFs, CtorDecode, dirs, CtorBytes, CtorLoaded);
    FixedSoleLoaded(CtorFs, CtorDecode, dirs, Root, Initial, "constructor", CtorLoaded);
  }

  lemma CtorLoad()
    ensures Loadable(CtorFs, Dirs(CtorOpts), "constructor")
    ensures Load(CtorFs, Dirs(CtorOpts), Initial, "constructor") == CtorLoaded
  {
    CtorFacts();
    InitialEmpty();
  }
}
