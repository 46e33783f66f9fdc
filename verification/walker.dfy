/**
 * The dependency walk of src/index.ts as it is written (`loadImports`). Two traits of the
 * original are kept: the "already loaded" test looks up the RAW import name while modules are
 * stored under their QUALIFIED name, and the lookup is JavaScript property access on a plain
 * object, so names inherited from `Object.prototype` look loaded too. Because of the first, a
 * cycle among ordinary modules never ends; the walk therefore carries a depth bound `fuel`
 * and reports `OutOfFuel` when it is used up.
 */
module Walker {
  import opened Wrappers
  import opened Buffers
  import opened Strings
  import opened OrderedMap
  import opened Imports
  import opened Resolve
  import opened Reach

  /**
   * What the walk has done so far: `loadedImports` (entries in `Object.keys` order), the paths
   * given to `addDependency`, and the import names loaded, in the order they were loaded.
   */
  datatype State = State(loaded: seq<(string, Buffer)>, report: seq<string>, loads: seq<string>)

  datatype Error =
    | Unresolved(name: string)   // no directory has the import: the loader throws
    | ReadFailed(path: string)   // `fs.readFile` rejected a path `fs.stat` accepted
    | OutOfFuel                  // the walk did not finish within the depth bound

  const Initial := State([], [], [])

  /** The properties every plain object inherits from `Object.prototype`. */
  const InheritedKeys: set<string> := {
    "constructor", "__defineGetter__", "__defineSetter__", "hasOwnProperty",
    "__lookupGetter__", "__lookupSetter__", "isPrototypeOf", "propertyIsEnumerable",
    "toString", "valueOf", "__proto__", "toLocaleString"
  }

  /** `loadedImports[name]` is truthy: an own key (a Buffer is an object), or an inherited property. */
  predicate Truthy(loaded: seq<(string, Buffer)>, name: string) {
    name in KeySet(loaded) || name in InheritedKeys
  }

  /** `fs.readFile(path)`. */
  function ReadFile(fs: FileSystem, path: string): (r: Result<Buffer, Error>)
    ensures r.Success? <==> path in fs.contents
    ensures r.Success? ==> r.value == fs.contents[path]
    ensures r.Failure? ==> r.error == ReadFailed(path)
  {
    if path in fs.contents then Success(fs.contents[path]) else Failure(ReadFailed(path))
  }

  /** `path.replace(/\.wasm$/, '')`: the path reported to the build for a loaded module. */
  function DependencyPath(path: string): string {
    RemoveSuffix(path, ".wasm")
  }

  /** Import `n` is not a runtime module, resolves, and its file can be read. */
  predicate Loadable(fs: FileSystem, dirs: seq<string>, n: string) {
    n !in RuntimeModules && ResolveImport(fs.stat, dirs, n).Some?
    && ResolveImport(fs.stat, dirs, n).value in fs.contents
  }

  /** The bytes loaded for import `n`: the contents of its resolved path. */
  function LoadedBytes(fs: FileSystem, dirs: seq<string>, n: string): Buffer
    requires Loadable(fs, dirs, n)
  {
    fs.contents[ResolveImport(fs.stat, dirs, n).value]
  }

  /** The path reported for import `n`: its resolved path without `.wasm`. */
  function ReportedPath(fs: FileSystem, dirs: seq<string>, n: string): string
    requires Loadable(fs, dirs, n)
  {
    DependencyPath(ResolveImport(fs.stat, dirs, n).value)
  }

  /**
   * The invariant of the walk: one report per load, naming the loaded import's resolved path;
   * every loaded import has an entry under its qualified name; every entry is keyed by the
   * qualified name of a loaded import and holds the bytes of that import's resolved path.
   */
  predicate WalkInv(fs: FileSystem, dirs: seq<string>, st: State) {
    && UniqueKeys(st.loaded)
    && |st.report| == |st.loads|
    && (forall i :: 0 <= i < |st.loads| ==>
          && Loadable(fs, dirs, st.loads[i])
          && st.report[i] == ReportedPath(fs, dirs, st.loads[i])
          && WasmImportName(st.loads[i]) in KeySet(st.loaded))
    && (forall e :: e in st.loaded ==>
          && Unqualify(e.0) in st.loads
          && WasmImportName(Unqualify(e.0)) == e.0
          && Loadable(fs, dirs, Unqualify(e.0))
          && e.1 == LoadedBytes(fs, dirs, Unqualify(e.0)))
  }

  /** `b` extends `a`: reports and loads are appended to, keys are never dropped. */
  predicate Grows(a: State, b: State) {
    IsPrefix(a.report, b.report) && IsPrefix(a.loads, b.loads) && KeySet(a.loaded) <= KeySet(b.loaded)
  }

  lemma GrowsTransitive(a: State, b: State, c: State)
    requires Grows(a, b) && Grows(b, c)
    ensures Grows(a, c)
  {
    assert c.report[..|a.report|] == c.report[..|b.report|][..|a.report|];
    assert c.loads[..|a.loads|] == c.loads[..|b.loads|][..|a.loads|];
  }

  /** Lines 135-140: store the module under its qualified name, then report its path. */
  function Load(fs: FileSystem, dirs: seq<string>, st: State, n: string): (st': State)
    requires Loadable(fs, dirs, n)
    ensures Grows(st, st')
    ensures Get(st'.loaded, WasmImportName(n)) == Some(LoadedBytes(fs, dirs, n))
    ensures KeySet(st'.loaded) == KeySet(st.loaded) + {WasmImportName(n)}
    ensures WasmImportName(n) !in KeySet(st.loaded) ==>
      st'.loaded == st.loaded + [(WasmImportName(n), LoadedBytes(fs, dirs, n))]
    ensures st'.report == st.report + [ReportedPath(fs, dirs, n)]
    ensures st'.loads == st.loads + [n]
  {
    PutAppends(st.loaded, WasmImportName(n), LoadedBytes(fs, dirs, n));
    State(Put(st.loaded, WasmImportName(n), LoadedBytes(fs, dirs, n)),
          st.report + [ReportedPath(fs, dirs, n)],
          st.loads + [n])
  }

  lemma LoadKeepsInv(fs: FileSystem, dirs: seq<string>, st: State, n: string)
    requires Loadable(fs, dirs, n)
    ensures WalkInv(fs, dirs, st) ==> WalkInv(fs, dirs, Load(fs, dirs, st, n))
  {
    if WalkInv(fs, dirs, st) {
      var q := WasmImportName(n);
      var b := LoadedBytes(fs, dirs, n);
      var st' := Load(fs, dirs, st, n);
      PutKeepsUniqueKeys(st.loaded, q, b);
      forall i | 0 <= i < |st'.loads|
        ensures Loadable(fs, dirs, st'.loads[i])
        ensures st'.report[i] == ReportedPath(fs, dirs, st'.loads[i])
        ensures WasmImportName(st'.loads[i]) in KeySet(st'.loaded)
      {
        if i < |st.loads| {
          assert st'.loads[i] == st.loads[i] && st'.report[i] == st.report[i];
        }
      }
      forall e | e in st'.loaded
        ensures Unqualify(e.0) in st'.loads
        ensures WasmImportName(Unqualify(e.0)) == e.0
        ensures Loadable(fs, dirs, Unqualify(e.0))
        ensures e.1 == LoadedBytes(fs, dirs, Unqualify(e.0))
      {
        if e != (q, b) {
          assert e in st.loaded;
        }
      }
    }
  }

  /**
   * How a walk ended: the state it left behind and the error that stopped it, if any. The map
   * and the reports belong to the caller, so whatever was stored and reported before a throw
   * stays stored and reported.
   */
  datatype Outcome = Outcome(st: State, error: Option<Error>)

  /**
   * `loadImports`: walks the imports of `wasm` depth first. Each import not already (as far
   * as the raw-name lookup can tell) loaded is resolved, read, stored, reported, and walked.
   * An error names an import no directory has, or a path `fs.stat` accepted and `fs.readFile`
   * rejected.
   */
  function LoadImports(fs: FileSystem, decode: Buffer -> seq<Field>, dirs: seq<string>, wasm: Buffer, st: State, fuel: nat)
    : (r: Outcome)
    ensures Grows(st, r.st)
    ensures WalkInv(fs, dirs, st) ==> WalkInv(fs, dirs, r.st)
    ensures r.error.Some? && r.error.value.Unresolved? ==>
      ResolveImport(fs.stat, dirs, r.error.value.name).None? && r.error.value.name !in RuntimeModules
    ensures r.error.Some? && r.error.value.ReadFailed? ==>
      r.error.value.path in fs.stat && r.error.value.path !in fs.contents
    decreases fuel, 0, 0
  {
    if fuel == 0 then Outcome(st, Some(OutOfFuel))
    else LoadEach(fs, decode, dirs, DetectImports(decode(wasm)), st, fuel - 1)
  }

  /** The `for … of foundImports` loop of `loadImports`, over the names still to visit. */
  function LoadEach(fs: FileSystem, decode: Buffer -> seq<Field>, dirs: seq<string>, names: seq<string>, st: State, fuel: nat)
    : (r: Outcome)
    requires forall n :: n in names ==> n !in RuntimeModules
    ensures Grows(st, r.st)
    ensures WalkInv(fs, dirs, st) ==> WalkInv(fs, dirs, r.st)
    ensures r.error.Some? && r.error.value.Unresolved? ==>
      ResolveImport(fs.stat, dirs, r.error.value.name).None? && r.error.value.name !in RuntimeModules
    ensures r.error.Some? && r.error.value.ReadFailed? ==>
      r.error.value.path in fs.stat && r.error.value.path !in fs.contents
    decreases fuel, 1, |names|
  {
    if names == [] then Outcome(st, None)
    else
      var n := names[0];
      if Truthy(st.loaded, n) then LoadEach(fs, decode, dirs, names[1..], st, fuel)
      else
        match ResolveImport(fs.stat, dirs, n)
        case None => Outcome(st, Some(Unresolved(n)))
        case Some(p) =>
          match ReadFile(fs, p)
          case Failure(e) => Outcome(st, Some(e))
          case Success(bytes) =>
            var st1 := Load(fs, dirs, st, n);
            LoadKeepsInv(fs, dirs, st, n);
            var sub := LoadImports(fs, decode, dirs, bytes, st1, fuel);
            GrowsTransitive(st, st1, sub.st);
            if sub.error.Some? then sub
            else
              var r := LoadEach(fs, decode, dirs, names[1..], sub.st, fuel);
              GrowsTransitive(st, sub.st, r.st);
              r
  }

  /** The module loaded for `n` imports `m`. */
  predicate ImportedBy(fs: FileSystem, decode: Buffer -> seq<Field>, dirs: seq<string>, m: string, n: string) {
    Loadable(fs, dirs, n) && m in DetectImports(decode(LoadedBytes(fs, dirs, n)))
  }

  /** The import relation as an edge function: `ImportEdge(fs, decode, dirs)(m, n)` when `n`'s module imports `m`. */
  function ImportEdge(fs: FileSystem, decode: Buffer -> seq<Field>, dirs: seq<string>): (string, string) -> bool {
    (m, n) => ImportedBy(fs, decode, dirs, m, n)
  }

  lemma EdgesOf(fs: FileSystem, decode: Buffer -> seq<Field>, dirs: seq<string>, n: string)
    requires Loadable(fs, dirs, n)
    ensures forall m :: m in DetectImports(decode(LoadedBytes(fs, dirs, n))) ==> ImportEdge(fs, decode, dirs)(m, n)
  {
  }

  /**
   * Import `m` looks loaded given the stored keys: under its qualified name, or, for the raw-name
   * lookup of the walk as written (`raw`), under its own name or as an inherited property.
   */
  predicate Seen(keys: set<string>, m: string, raw: bool) {
    WasmImportName(m) in keys || (raw && (m in keys || m in InheritedKeys))
  }

  /** Every import of the module loaded for `n` is seen among `keys`. */
  predicate ImportsStored(fs: FileSystem, decode: Buffer -> seq<Field>, dirs: seq<string>, n: string, keys: set<string>, raw: bool) {
    Loadable(fs, dirs, n) ==>
      forall m :: m in DetectImports(decode(LoadedBytes(fs, dirs, n))) ==> Seen(keys, m, raw)
  }

  /** Every import of every module in `loads` is seen among `keys`. */
  predicate Closed(fs: FileSystem, decode: Buffer -> seq<Field>, dirs: seq<string>, loads: seq<string>, keys: set<string>, raw: bool) {
    forall i :: 0 <= i < |loads| ==> ImportsStored(fs, decode, dirs, loads[i], keys, raw)
  }

  lemma ClosedMonotone(fs: FileSystem, decode: Buffer -> seq<Field>, dirs: seq<string>, loads: seq<string>,
                       keys: set<string>, keys': set<string>, raw: bool)
    requires Closed(fs, decode, dirs, loads, keys, raw) && keys <= keys'
    ensures Closed(fs, decode, dirs, loads, keys', raw)
  {
    forall i | 0 <= i < |loads| ensures ImportsStored(fs, decode, dirs, loads[i], keys', raw) {
      assert ImportsStored(fs, decode, dirs, loads[i], keys, raw);
    }
  }

  lemma ClosedConcat(fs: FileSystem, decode: Buffer -> seq<Field>, dirs: seq<string>, a: seq<string>, b: seq<string>,
                     keys: set<string>, raw: bool)
    requires Closed(fs, decode, dirs, a, keys, raw) && Closed(fs, decode, dirs, b, keys, raw)
    ensures Closed(fs, decode, dirs, a + b, keys, raw)
  {
    forall i | 0 <= i < |a + b|
      ensures ImportsStored(fs, decode, dirs, (a + b)[i], keys, raw)
    {
      if i >= |a| {
        assert (a + b)[i] == b[i - |a|];
      } else {
        assert (a + b)[i] == a[i];
      }
    }
  }

  /** Gluing the closure facts of one loop step: the module loaded, its sub-walk, the rest of the loop. */
  lemma StepClosed(fs: FileSystem, decode: Buffer -> seq<Field>, dirs: seq<string>, n: string,
                   l0: seq<string>, l1: seq<string>, l2: seq<string>, l3: seq<string>,
                   keys2: set<string>, keys3: set<string>, raw: bool)
    requires l1 == l0 + [n] && IsPrefix(l1, l2) && IsPrefix(l2, l3) && keys2 <= keys3
    requires ImportsStored(fs, decode, dirs, n, keys2, raw)
    requires Closed(fs, decode, dirs, l2[|l1|..], keys2, raw)
    requires Closed(fs, decode, dirs, l3[|l2|..], keys3, raw)
    ensures Closed(fs, decode, dirs, l3[|l0|..], keys3, raw)
  {
    Segments(l0, n, l1, l2, l3);
    assert ImportsStored(fs, decode, dirs, n, keys3, raw);
    assert Closed(fs, decode, dirs, [n], keys3, raw);
    ClosedMonotone(fs, decode, dirs, l2[|l1|..], keys2, keys3, raw);
    ClosedConcat(fs, decode, dirs, [n], l2[|l1|..], keys3, raw);
    ClosedConcat(fs, decode, dirs, [n] + l2[|l1|..], l3[|l2|..], keys3, raw);
  }

  /** What `WalkReaches` promises of outcome `r` of a walk from `roots` that began with `loads`. */
  predicate ReachedFrom(fs: FileSystem, decode: Buffer -> seq<Field>, dirs: seq<string>, roots: seq<string>, loads: seq<string>, r: Outcome)
    requires |loads| <= |r.st.loads|
  {
    && Reached(ImportEdge(fs, decode, dirs), roots, r.st.loads[|loads|..])
    && (r.error.Some? && r.error.value.Unresolved? ==>
          Reached(ImportEdge(fs, decode, dirs), roots, r.st.loads[|loads|..] + [r.error.value.name]))
  }

  /**
   * One turn of either walk's loop that loads `names[0]`: its sub-walk `sub` and, when that
   * ends without error, the rest `rest` of the loop each keep to what they were started on,
   * so the turn `r` keeps to `names`.
   */
  lemma StepReaches(fs: FileSystem, decode: Buffer -> seq<Field>, dirs: seq<string>, names: seq<string>,
                    st: State, st1: State, sub: Outcome, rest: Outcome, r: Outcome)
    requires names != [] && Loadable(fs, dirs, names[0]) && st1.loads == st.loads + [names[0]]
    requires Grows(st1, sub.st) && Grows(sub.st, rest.st)
    requires r == if sub.error.Some? then sub else rest
    requires ReachedFrom(fs, decode, dirs, DetectImports(decode(LoadedBytes(fs, dirs, names[0]))), st1.loads, sub)
    requires ReachedFrom(fs, decode, dirs, names[1..], sub.st.loads, rest)
    ensures |st.loads| <= |r.st.loads|
    ensures ReachedFrom(fs, decode, dirs, names, st.loads, r)
  {
    var n := names[0];
    var edge := ImportEdge(fs, decode, dirs);
    var imp := DetectImports(decode(LoadedBytes(fs, dirs, n)));
    EdgesOf(fs, decode, dirs, n);
    if sub.error.Some? {
      ReachedStep(edge, n, names, imp, st.loads, st1.loads, sub.st.loads, sub.st.loads);
      if r.error.value.Unresolved? {
        ReachedStop(edge, n, names, imp, st.loads, st1.loads, sub.st.loads, r.error.value.name);
      }
    } else {
      var s2 := r.st.loads[|sub.st.loads|..];
      ReachedWider(edge, names[1..], names, s2);
      ReachedStep(edge, n, names, imp, st.loads, st1.loads, sub.st.loads, r.st.loads);
      if r.error.Some? && r.error.value.Unresolved? {
        var x := r.error.value.name;
        ReachedWider(edge, names[1..], names, s2 + [x]);
        ReachedStepThen(edge, n, names, imp, st.loads, st1.loads, sub.st.loads, r.st.loads, x);
      }
    }
  }

  /** What `WalkCloses` promises of outcome `r` of a walk from `roots` that began with `loads`. */
  predicate ClosedFrom(fs: FileSystem, decode: Buffer -> seq<Field>, dirs: seq<string>, roots: seq<string>, loads: seq<string>,
                       r: Outcome, raw: bool)
    requires |loads| <= |r.st.loads|
  {
    r.error.None? ==>
      && (forall m :: m in roots ==> Seen(KeySet(r.st.loaded), m, raw))
      && Closed(fs, decode, dirs, r.st.loads[|loads|..], KeySet(r.st.loaded), raw)
  }

  /** The closure counterpart of `StepReaches`. */
  lemma StepCloses(fs: FileSystem, decode: Buffer -> seq<Field>, dirs: seq<string>, names: seq<string>,
                   st: State, st1: State, sub: Outcome, rest: Outcome, r: Outcome, raw: bool)
    requires names != [] && Loadable(fs, dirs, names[0]) && st1.loads == st.loads + [names[0]]
    requires WasmImportName(names[0]) in KeySet(st1.loaded)
    requires Grows(st1, sub.st) && Grows(sub.st, rest.st)
    requires r == if sub.error.Some? then sub else rest
    requires ClosedFrom(fs, decode, dirs, DetectImports(decode(LoadedBytes(fs, dirs, names[0]))), st1.loads, sub, raw)
    requires ClosedFrom(fs, decode, dirs, names[1..], sub.st.loads, rest, raw)
    ensures |st.loads| <= |r.st.loads|
    ensures ClosedFrom(fs, decode, dirs, names, st.loads, r, raw)
  {
    if r.error.None? {
      var n := names[0];
      assert names == [n] + names[1..];
      assert Seen(KeySet(r.st.loaded), n, raw);
      StepClosed(fs, decode, dirs, n, st.loads, st1.loads, sub.st.loads, r.st.loads,
                 KeySet(sub.st.loaded), KeySet(r.st.loaded), raw);
    }
  }

  /**
   * Every module the walk from `wasm` loads is an import of `wasm` or of a module it loaded
   * earlier; so is an import it fails to resolve.
   */
  lemma {:induction false} WalkReaches(fs: FileSystem, decode: Buffer -> seq<Field>, dirs: seq<string>, wasm: Buffer, st: State, fuel: nat)
    ensures ReachedFrom(fs, decode, dirs, DetectImports(decode(wasm)), st.loads, LoadImports(fs, decode, dirs, wasm, st, fuel))
    decreases fuel, 0, 0
  {
    if fuel == 0 {
      assert st.loads[|st.loads|..] == [];
    } else {
      EachReaches(fs, decode, dirs, DetectImports(decode(wasm)), st, fuel - 1);
    }
  }

  lemma {:induction false} EachReaches(fs: FileSystem, decode: Buffer -> seq<Field>, dirs: seq<string>, names: seq<string>, st: State, fuel: nat)
    requires forall n :: n in names ==> n !in RuntimeModules
    ensures ReachedFrom(fs, decode, dirs, names, st.loads, LoadEach(fs, decode, dirs, names, st, fuel))
    decreases fuel, 1, |names|
  {
    var r := LoadEach(fs, decode, dirs, names, st, fuel);
    if names == [] {
      assert r.st.loads[|st.loads|..] == [];
    } else {
      var n := names[0];
      if Truthy(st.loaded, n) {
        EachReaches(fs, decode, dirs, names[1..], st, fuel);
        ReachedWider(ImportEdge(fs, decode, dirs), names[1..], names, r.st.loads[|st.loads|..]);
        if r.error.Some? && r.error.value.Unresolved? {
          ReachedWider(ImportEdge(fs, decode, dirs), names[1..], names, r.st.loads[|st.loads|..] + [r.error.value.name]);
        }
      } else if !Loadable(fs, dirs, n) {
        assert r.st == st;
        assert r.st.loads[|st.loads|..] + [n] == [n];
      } else {
        var st1 := Load(fs, dirs, st, n);
        var sub := LoadImports(fs, decode, dirs, LoadedBytes(fs, dirs, n), st1, fuel);
        WalkReaches(fs, decode, dirs, LoadedBytes(fs, dirs, n), st1, fuel);
        var rest := LoadEach(fs, decode, dirs, names[1..], sub.st, fuel);
        EachReaches(fs, decode, dirs, names[1..], sub.st, fuel);
        StepReaches(fs, decode, dirs, names, st, st1, sub, rest, r);
      }
    }
  }

  /**
   * A walk that ends without error leaves every import of `wasm`, and every import of every
   * module it loaded, looking loaded to the raw-name lookup: stored under its qualified name,
   * stored under its raw name, or inherited.
   */
  lemma {:induction false} WalkCloses(fs: FileSystem, decode: Buffer -> seq<Field>, dirs: seq<string>, wasm: Buffer, st: State, fuel: nat)
    ensures ClosedFrom(fs, decode, dirs, DetectImports(decode(wasm)), st.loads, LoadImports(fs, decode, dirs, wasm, st, fuel), true)
    decreases fuel, 0, 0
  {
    if fuel > 0 {
      var f: nat := fuel - 1;
      ImportsStep(fs, decode, dirs, wasm, st, f);
      EachCloses(fs, decode, dirs, DetectImports(decode(wasm)), st, f);
    }
  }

  lemma {:induction false} EachCloses(fs: FileSystem, decode: Buffer -> seq<Field>, dirs: seq<string>, names: seq<string>, st: State, fuel: nat)
    requires forall n :: n in names ==> n !in RuntimeModules
    ensures ClosedFrom(fs, decode, dirs, names, st.loads, LoadEach(fs, decode, dirs, names, st, fuel), true)
    decreases fuel, 1, |names|
  {
    var r := LoadEach(fs, decode, dirs, names, st, fuel);
    if names == [] {
      assert r.st.loads[|st.loads|..] == [];
    } else {
      var n := names[0];
      if Truthy(st.loaded, n) {
        EachCloses(fs, decode, dirs, names[1..], st, fuel);
        assert names == [n] + names[1..];
      } else if Loadable(fs, dirs, n) {
        var st1 := Load(fs, dirs, st, n);
        var sub := LoadImports(fs, decode, dirs, LoadedBytes(fs, dirs, n), st1, fuel);
        WalkCloses(fs, decode, dirs, LoadedBytes(fs, dirs, n), st1, fuel);
        var rest := LoadEach(fs, decode, dirs, names[1..], sub.st, fuel);
        EachCloses(fs, decode, dirs, names[1..], sub.st, fuel);
        StepCloses(fs, decode, dirs, names, st, st1, sub, rest, r, true);
      }
    }
  }

  /**
   * More fuel changes nothing once the walk has ended without running out: the outcome is
   * then final.
   */
  lemma {:induction false} MoreFuel(fs: FileSystem, decode: Buffer -> seq<Field>, dirs: seq<string>, wasm: Buffer, st: State, fuel: nat)
    requires LoadImports(fs, decode, dirs, wasm, st, fuel).error != Some(OutOfFuel)
    ensures LoadImports(fs, decode, dirs, wasm, st, fuel + 1) == LoadImports(fs, decode, dirs, wasm, st, fuel)
    decreases fuel, 0, 0
  {
    var f: nat := fuel - 1;
    EachMoreFuel(fs, decode, dirs, DetectImports(decode(wasm)), st, f);
    assert f + 1 == fuel;
  }

  lemma {:induction false} EachMoreFuel(fs: FileSystem, decode: Buffer -> seq<Field>, dirs: seq<string>, names: seq<string>, st: State, fuel: nat)
    requires forall n :: n in names ==> n !in RuntimeModules
    requires LoadEach(fs, decode, dirs, names, st, fuel).error != Some(OutOfFuel)
    ensures LoadEach(fs, decode, dirs, names, st, fuel + 1) == LoadEach(fs, decode, dirs, names, st, fuel)
    decreases fuel, 1, |names|
  {
    if names != [] {
      var n := names[0];
      var rest := names[1..];
      if Truthy(st.loaded, n) {
        EachMoreFuel(fs, decode, dirs, rest, st, fuel);
      } else if Loadable(fs, dirs, n) {
        var st1 := Load(fs, dirs, st, n);
        var sub := LoadImports(fs, decode, dirs, LoadedBytes(fs, dirs, n), st1, fuel);
        MoreFuel(fs, decode, dirs, LoadedBytes(fs, dirs, n), st1, fuel);
        if sub.error.None? {
          EachMoreFuel(fs, decode, dirs, rest, sub.st, fuel);
        }
      }
    }
  }

  /** Any outcome other than `OutOfFuel` is the outcome at every larger bound. */
  lemma FuelSettles(fs: FileSystem, decode: Buffer -> seq<Field>, dirs: seq<string>, wasm: Buffer, st: State,
                    fuel: nat, k: nat)
    requires LoadImports(fs, decode, dirs, wasm, st, fuel).error != Some(OutOfFuel)
    ensures LoadImports(fs, decode, dirs, wasm, st, fuel + k) == LoadImports(fs, decode, dirs, wasm, st, fuel)
  {
    var walk := (f: nat) => LoadImports(fs, decode, dirs, wasm, st, f);
    forall f: nat | walk(f).error != Some(OutOfFuel) ensures walk(f + 1) == walk(f) {
      MoreFuel(fs, decode, dirs, wasm, st, f);
    }
    Settles(walk, fuel, k);
  }

  /** A sequence of outcomes that stays put once it is not `OutOfFuel` stays put for good. */
  lemma {:induction false} Settles(walk: nat -> Outcome, fuel: nat, k: nat)
    requires forall f: nat :: walk(f).error != Some(OutOfFuel) ==> walk(f + 1) == walk(f)
    requires walk(fuel).error != Some(OutOfFuel)
    ensures walk(fuel + k) == walk(fuel)
    decreases k
  {
    if k > 0 {
      Settles(walk, fuel, k - 1);
    }
  }

  /** When loading the first import of `imports` fails, the whole loop ends there, the same way. */
  lemma HeadFails(fs: FileSystem, decode: Buffer -> seq<Field>, dirs: seq<string>, imports: seq<string>,
                  st: State, fuel: nat)
    requires imports != [] && forall m :: m in imports ==> m !in RuntimeModules
    requires !Truthy(st.loaded, imports[0]) && Loadable(fs, dirs, imports[0])
    requires LoadImports(fs, decode, dirs, LoadedBytes(fs, dirs, imports[0]), Load(fs, dirs, st, imports[0]), fuel).error.Some?
    ensures LoadEach(fs, decode, dirs, imports, st, fuel)
         == LoadImports(fs, decode, dirs, LoadedBytes(fs, dirs, imports[0]), Load(fs, dirs, st, imports[0]), fuel)
  {
  }

  /** An import that does not look loaded is loaded and walked; when that succeeds, the loop goes on. */
  lemma HeadLoads(fs: FileSystem, decode: Buffer -> seq<Field>, dirs: seq<string>, imports: seq<string>,
                  st: State, fuel: nat, st2: State)
    requires imports != [] && forall m :: m in imports ==> m !in RuntimeModules
    requires !Truthy(st.loaded, imports[0]) && Loadable(fs, dirs, imports[0])
    requires LoadImports(fs, decode, dirs, LoadedBytes(fs, dirs, imports[0]), Load(fs, dirs, st, imports[0]), fuel) == Outcome(st2, None)
    ensures LoadEach(fs, decode, dirs, imports, st, fuel) == LoadEach(fs, decode, dirs, imports[1..], st2, fuel)
  {
  }

  /** An import that looks loaded is skipped. */
  lemma HeadSkips(fs: FileSystem, decode: Buffer -> seq<Field>, dirs: seq<string>, imports: seq<string>,
                  st: State, fuel: nat)
    requires imports != [] && forall m :: m in imports ==> m !in RuntimeModules
    requires Truthy(st.loaded, imports[0])
    ensures LoadEach(fs, decode, dirs, imports, st, fuel) == LoadEach(fs, decode, dirs, imports[1..], st, fuel)
  {
  }

  /** The first import of `wasm` is one of `names`. */
  predicate FirstImportIn(decode: Buffer -> seq<Field>, wasm: Buffer, names: set<string>) {
    DetectImports(decode(wasm)) != [] && DetectImports(decode(wasm))[0] in names
  }

  /**
   * `names` is a cycle of ordinary modules: each resolves and can be read, has neither the
   * qualified form nor the name of an inherited property, and imports first another of `names`.
   */
  predicate OrdinaryCycle(fs: FileSystem, decode: Buffer -> seq<Field>, dirs: seq<string>, names: set<string>) {
    forall n {:trigger Loadable(fs, dirs, n)} :: n in names ==>
      && Loadable(fs, dirs, n)
      && !IsQualified(n)
      && n !in InheritedKeys
      && FirstImportIn(decode, LoadedBytes(fs, dirs, n), names)
  }

  /**
   * A walk that reaches an import cycle of ordinary modules never ends: the raw names are never
   * keys, so the cycle is entered again on every visit, and the walk runs out of fuel whatever
   * the bound.
   */
  lemma {:induction false} CycleNeverEnds(fs: FileSystem, decode: Buffer -> seq<Field>, dirs: seq<string>,
                                          names: set<string>, wasm: Buffer, st: State, fuel: nat)
    requires OrdinaryCycle(fs, decode, dirs, names)
    requires FirstImportIn(decode, wasm, names)
    requires forall n :: n in names ==> n !in KeySet(st.loaded)
    ensures LoadImports(fs, decode, dirs, wasm, st, fuel).error == Some(OutOfFuel)
    decreases fuel
  {
    if fuel > 0 {
      var f: nat := fuel - 1;
      var n := DetectImports(decode(wasm))[0];
      assert Loadable(fs, dirs, n);
      var st1 := Load(fs, dirs, st, n);
      forall m | m in names ensures m !in KeySet(st1.loaded) {
        assert Loadable(fs, dirs, m) && !IsQualified(m);
      }
      CycleNeverEnds(fs, decode, dirs, names, LoadedBytes(fs, dirs, n), st1, f);
      assert n in names && n !in KeySet(st.loaded);
      FirstFails(fs, decode, dirs, wasm, st, f);
      assert LoadImports(fs, decode, dirs, wasm, st, f + 1).error == Some(OutOfFuel);
      assert fuel == f + 1;
    } else {
      NoFuel(fs, decode, dirs, wasm, st);
    }
  }

  /** Without fuel, the walk stops at once. */
  lemma NoFuel(fs: FileSystem, decode: Buffer -> seq<Field>, dirs: seq<string>, wasm: Buffer, st: State)
    ensures LoadImports(fs, decode, dirs, wasm, st, 0) == Outcome(st, Some(OutOfFuel))
  {
  }

  /** If walking the first import of `wasm` fails, walking `wasm` with one more unit of fuel ends the same way. */
  lemma FirstFails(fs: FileSystem, decode: Buffer -> seq<Field>, dirs: seq<string>, wasm: Buffer, st: State, fuel: nat)
    requires DetectImports(decode(wasm)) != []
    requires var n := DetectImports(decode(wasm))[0];
      && !Truthy(st.loaded, n) && Loadable(fs, dirs, n)
      && LoadImports(fs, decode, dirs, LoadedBytes(fs, dirs, n), Load(fs, dirs, st, n), fuel).error.Some?
    ensures var n := DetectImports(decode(wasm))[0];
      LoadImports(fs, decode, dirs, wasm, st, fuel + 1)
        == LoadImports(fs, decode, dirs, LoadedBytes(fs, dirs, n), Load(fs, dirs, st, n), fuel)
  {
    HeadFails(fs, decode, dirs, DetectImports(decode(wasm)), st, fuel);
    ImportsStep(fs, decode, dirs, wasm, st, fuel);
  }

  /** With fuel left, walking a module is the loop over its imports with one less unit. */
  lemma ImportsStep(fs: FileSystem, decode: Buffer -> seq<Field>, dirs: seq<string>, wasm: Buffer, st: State, fuel: nat)
    ensures LoadImports(fs, decode, dirs, wasm, st, fuel + 1) == LoadEach(fs, decode, dirs, DetectImports(decode(wasm)), st, fuel)
  {
  }

  /**
   * The raw-name lookup can only hit an own key that has the qualified form: a name containing
   * `stdlib-external`, or one that itself starts with the marker (a module field that carried
   * the marker twice). Every other ordinary name is resolved again whenever it is met.
   */
  lemma RawKeyHit(fs: FileSystem, dirs: seq<string>, st: State, n: string)
    requires WalkInv(fs, dirs, st)
    requires n in KeySet(st.loaded)
    ensures Contains(n, StdlibExternal) || IsPrefix(Marker, n)
  {
    var e :| e in st.loaded && e.0 == n;
    QualifiedIff(n);
  }
}
