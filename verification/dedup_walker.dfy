/**
 * The dependency walk with the "already loaded" test made on the qualified name, as an own key
 * of the map of loaded modules: the walk the loader evidently intends. Each qualified name is
 * then stored at most once, so the walk ends on every import graph, cycles included, with no
 * depth bound: the measure is the number of storable keys not stored yet.
 */
module DedupWalker {
  import opened Wrappers
  import opened Buffers
  import opened Strings
  import opened OrderedSet
  import opened OrderedMap
  import opened Imports
  import opened Resolve
  import opened Reach
  import opened Walker

  /** Every key the walk could ever store: the qualified names of the names that resolve. */
  function Storable(fs: FileSystem, dirs: seq<string>): set<string> {
    set n | n in ResolvableNames(fs.stat, dirs) :: WasmImportName(n)
  }

  /** How many storable keys are not stored yet. */
  function Remaining(fs: FileSystem, dirs: seq<string>, st: State): nat {
    |Storable(fs, dirs) - KeySet(st.loaded)|
  }

  lemma LoadShrinksRemaining(fs: FileSystem, dirs: seq<string>, st: State, n: string)
    requires Loadable(fs, dirs, n) && WasmImportName(n) !in KeySet(st.loaded)
    ensures Remaining(fs, dirs, Load(fs, dirs, st, n)) < Remaining(fs, dirs, st)
  {
    var q := WasmImportName(n);
    ResolvedIsResolvable(fs.stat, dirs, n);
    assert q in Storable(fs, dirs);
    var u := Storable(fs, dirs);
    var k := KeySet(st.loaded);
    assert u - (k + {q}) == (u - k) - {q};
  }

  lemma GrowthKeepsRemaining(fs: FileSystem, dirs: seq<string>, a: State, b: State)
    requires KeySet(a.loaded) <= KeySet(b.loaded)
    ensures Remaining(fs, dirs, b) <= Remaining(fs, dirs, a)
  {
    var u := Storable(fs, dirs);
    SubsetSize(u - KeySet(b.loaded), u - KeySet(a.loaded));
  }

  lemma {:induction false} SubsetSize<T>(a: set<T>, b: set<T>)
    requires a <= b
    ensures |a| <= |b|
    decreases |b|
  {
    if a != {} {
      var x :| x in a;
      SubsetSize(a - {x}, b - {x});
    }
  }

  /** Entries follow the loads one to one: entry `i` is the qualified name of the `i`-th load. */
  predicate InLoadOrder(st: State) {
    |st.loaded| == |st.loads| && forall i :: 0 <= i < |st.loads| ==> st.loaded[i].0 == WasmImportName(st.loads[i])
  }

  lemma LoadKeepsOrder(fs: FileSystem, dirs: seq<string>, st: State, n: string)
    requires Loadable(fs, dirs, n) && WasmImportName(n) !in KeySet(st.loaded)
    ensures InLoadOrder(st) ==> InLoadOrder(Load(fs, dirs, st, n))
  {
    var st' := Load(fs, dirs, st, n);
    if InLoadOrder(st) {
      forall i | 0 <= i < |st'.loads| ensures st'.loaded[i].0 == WasmImportName(st'.loads[i]) {
        if i < |st.loads| {
          assert st'.loaded[i] == st.loaded[i] && st'.loads[i] == st.loads[i];
        }
      }
    }
  }

  /**
   * The walk from module `wasm`. It never runs out of fuel, it keeps the walk's invariant and
   * the one-entry-per-load order, and an error names an import no directory has or a path
   * `fs.stat` accepted and `fs.readFile` rejected.
   */
  function LoadImports(fs: FileSystem, decode: Buffer -> seq<Field>, dirs: seq<string>, wasm: Buffer, st: State)
    : (r: Outcome)
    ensures Grows(st, r.st)
    ensures WalkInv(fs, dirs, st) ==> WalkInv(fs, dirs, r.st)
    ensures InLoadOrder(st) ==> InLoadOrder(r.st)
    ensures r.error != Some(OutOfFuel)
    ensures r.error.Some? && r.error.value.Unresolved? ==>
      ResolveImport(fs.stat, dirs, r.error.value.name).None? && r.error.value.name !in RuntimeModules
    ensures r.error.Some? && r.error.value.ReadFailed? ==>
      r.error.value.path in fs.stat && r.error.value.path !in fs.contents
    decreases Remaining(fs, dirs, st), 1, 0, 0
  {
    LoadEach(fs, decode, dirs, DetectImports(decode(wasm)), st)
  }

  /** The loop over one module's imports, skipping those whose qualified name is already stored. */
  function LoadEach(fs: FileSystem, decode: Buffer -> seq<Field>, dirs: seq<string>, names: seq<string>, st: State)
    : (r: Outcome)
    requires forall n :: n in names ==> n !in RuntimeModules
    ensures Grows(st, r.st)
    ensures WalkInv(fs, dirs, st) ==> WalkInv(fs, dirs, r.st)
    ensures InLoadOrder(st) ==> InLoadOrder(r.st)
    ensures r.error != Some(OutOfFuel)
    ensures r.error.Some? && r.error.value.Unresolved? ==>
      ResolveImport(fs.stat, dirs, r.error.value.name).None? && r.error.value.name !in RuntimeModules
    ensures r.error.Some? && r.error.value.ReadFailed? ==>
      r.error.value.path in fs.stat && r.error.value.path !in fs.contents
    decreases Remaining(fs, dirs, st), 0, |names|, 1
  {
    if names == [] then Outcome(st, None)
    else
      var n := names[0];
      if WasmImportName(n) in KeySet(st.loaded) then LoadEach(fs, decode, dirs, names[1..], st)
      else
        match ResolveImport(fs.stat, dirs, n)
        case None => Outcome(st, Some(Unresolved(n)))
        case Some(p) =>
          match ReadFile(fs, p)
          case Failure(e) => Outcome(st, Some(e))
          case Success(_) => LoadNew(fs, decode, dirs, names, st)
  }

  /** One turn of the loop for an import not stored yet: store it, report it, walk it, go on. */
  function LoadNew(fs: FileSystem, decode: Buffer -> seq<Field>, dirs: seq<string>, names: seq<string>, st: State)
    : (r: Outcome)
    requires names != [] && forall n :: n in names ==> n !in RuntimeModules
    requires WasmImportName(names[0]) !in KeySet(st.loaded) && Loadable(fs, dirs, names[0])
    ensures Grows(st, r.st)
    ensures WalkInv(fs, dirs, st) ==> WalkInv(fs, dirs, r.st)
    ensures InLoadOrder(st) ==> InLoadOrder(r.st)
    ensures r.error != Some(OutOfFuel)
    ensures r.error.Some? && r.error.value.Unresolved? ==>
      ResolveImport(fs.stat, dirs, r.error.value.name).None? && r.error.value.name !in RuntimeModules
    ensures r.error.Some? && r.error.value.ReadFailed? ==>
      r.error.value.path in fs.stat && r.error.value.path !in fs.contents
    decreases Remaining(fs, dirs, st), 0, |names|, 0
  {
    var n := names[0];
    var st1 := Load(fs, dirs, st, n);
    LoadKeepsInv(fs, dirs, st, n);
    LoadKeepsOrder(fs, dirs, st, n);
    LoadShrinksRemaining(fs, dirs, st, n);
    var sub := LoadImports(fs, decode, dirs, LoadedBytes(fs, dirs, n), st1);
    GrowsTransitive(st, st1, sub.st);
    if sub.error.Some? then sub
    else
      GrowthKeepsRemaining(fs, dirs, st1, sub.st);
      var r := LoadEach(fs, decode, dirs, names[1..], sub.st);
      GrowsTransitive(st, sub.st, r.st);
      r
  }

  /**
   * Every module the walk from `wasm` loads is an import of `wasm` or of a module it loaded
   * earlier; so is an import it fails to resolve.
   */
  lemma {:induction false} WalkReaches(fs: FileSystem, decode: Buffer -> seq<Field>, dirs: seq<string>, wasm: Buffer, st: State)
    ensures ReachedFrom(fs, decode, dirs, DetectImports(decode(wasm)), st.loads, LoadImports(fs, decode, dirs, wasm, st))
    decreases Remaining(fs, dirs, st), 1, 0, 0
  {
    EachReaches(fs, decode, dirs, DetectImports(decode(wasm)), st);
  }

  lemma {:induction false} EachReaches(fs: FileSystem, decode: Buffer -> seq<Field>, dirs: seq<string>, names: seq<string>, st: State)
    requires forall n :: n in names ==> n !in RuntimeModules
    ensures ReachedFrom(fs, decode, dirs, names, st.loads, LoadEach(fs, decode, dirs, names, st))
    decreases Remaining(fs, dirs, st), 0, |names|, 1
  {
    var r := LoadEach(fs, decode, dirs, names, st);
    if names == [] {
      assert r.st.loads[|st.loads|..] == [];
    } else {
      var n := names[0];
      if WasmImportName(n) in KeySet(st.loaded) {
        EachReaches(fs, decode, dirs, names[1..], st);
        ReachedWider(ImportEdge(fs, decode, dirs), names[1..], names, r.st.loads[|st.loads|..]);
        if r.error.Some? && r.error.value.Unresolved? {
          ReachedWider(ImportEdge(fs, decode, dirs), names[1..], names, r.st.loads[|st.loads|..] + [r.error.value.name]);
        }
      } else if !Loadable(fs, dirs, n) {
        assert r.st == st;
        assert r.st.loads[|st.loads|..] + [n] == [n];
      } else {
        NewReaches(fs, decode, dirs, names, st);
      }
    }
  }

  lemma {:induction false} NewReaches(fs: FileSystem, decode: Buffer -> seq<Field>, dirs: seq<string>, names: seq<string>, st: State)
    requires names != [] && forall n :: n in names ==> n !in RuntimeModules
    requires WasmImportName(names[0]) !in KeySet(st.loaded) && Loadable(fs, dirs, names[0])
    ensures ReachedFrom(fs, decode, dirs, names, st.loads, LoadNew(fs, decode, dirs, names, st))
    decreases Remaining(fs, dirs, st), 0, |names|, 0
  {
    var n := names[0];
    var st1 := Load(fs, dirs, st, n);
    LoadShrinksRemaining(fs, dirs, st, n);
    var sub := LoadImports(fs, decode, dirs, LoadedBytes(fs, dirs, n), st1);
    WalkReaches(fs, decode, dirs, LoadedBytes(fs, dirs, n), st1);
    GrowthKeepsRemaining(fs, dirs, st1, sub.st);
    var rest := LoadEach(fs, decode, dirs, names[1..], sub.st);
    EachReaches(fs, decode, dirs, names[1..], sub.st);
    StepReaches(fs, decode, dirs, names, st, st1, sub, rest, LoadNew(fs, decode, dirs, names, st));
  }

  /**
   * A walk that ends without error has stored the qualified name of every import of `wasm`
   * and of every import of every module it loaded.
   */
  lemma {:induction false} WalkCloses(fs: FileSystem, decode: Buffer -> seq<Field>, dirs: seq<string>, wasm: Buffer, st: State)
    ensures ClosedFrom(fs, decode, dirs, DetectImports(decode(wasm)), st.loads, LoadImports(fs, decode, dirs, wasm, st), false)
    decreases Remaining(fs, dirs, st), 1, 0, 0
  {
    EachCloses(fs, decode, dirs, DetectImports(decode(wasm)), st);
  }

  lemma {:induction false} EachCloses(fs: FileSystem, decode: Buffer -> seq<Field>, dirs: seq<string>, names: seq<string>, st: State)
    requires forall n :: n in names ==> n !in RuntimeModules
    ensures ClosedFrom(fs, decode, dirs, names, st.loads, LoadEach(fs, decode, dirs, names, st), false)
    decreases Remaining(fs, dirs, st), 0, |names|, 1
  {
    var r := LoadEach(fs, decode, dirs, names, st);
    if names == [] {
      assert r.st.loads[|st.loads|..] == [];
    } else {
      var n := names[0];
      if WasmImportName(n) in KeySet(st.loaded) {
        EachCloses(fs, decode, dirs, names[1..], st);
        assert names == [n] + names[1..];
      } else if Loadable(fs, dirs, n) {
        NewCloses(fs, decode, dirs, names, st);
      }
    }
  }

  lemma {:induction false} NewCloses(fs: FileSystem, decode: Buffer -> seq<Field>, dirs: seq<string>, names: seq<string>, st: State)
    requires names != [] && forall n :: n in names ==> n !in RuntimeModules
    requires WasmImportName(names[0]) !in KeySet(st.loaded) && Loadable(fs, dirs, names[0])
    ensures ClosedFrom(fs, decode, dirs, names, st.loads, LoadNew(fs, decode, dirs, names, st), false)
    decreases Remaining(fs, dirs, st), 0, |names|, 0
  {
    var n := names[0];
    var st1 := Load(fs, dirs, st, n);
    LoadShrinksRemaining(fs, dirs, st, n);
    var sub := LoadImports(fs, decode, dirs, LoadedBytes(fs, dirs, n), st1);
    WalkCloses(fs, decode, dirs, LoadedBytes(fs, dirs, n), st1);
    GrowthKeepsRemaining(fs, dirs, st1, sub.st);
    var rest := LoadEach(fs, decode, dirs, names[1..], sub.st);
    EachCloses(fs, decode, dirs, names[1..], sub.st);
    StepCloses(fs, decode, dirs, names, st, st1, sub, rest, LoadNew(fs, decode, dirs, names, st), false);
  }

  /**
   * Consequences of the invariants: no import is loaded twice, and there is exactly one
   * report and one stored module per load.
   */
  lemma LoadedOnce(fs: FileSystem, dirs: seq<string>, st: State)
    requires WalkInv(fs, dirs, st) && InLoadOrder(st)
    ensures NoDuplicates(st.loads)
    ensures |st.report| == |st.loaded| == |st.loads|
  {
    forall i, j | 0 <= i < j < |st.loads| ensures st.loads[i] != st.loads[j] {
      assert st.loaded[i].0 != st.loaded[j].0;
    }
  }

  /** One step of the loop: an import whose qualified name is stored is skipped. */
  lemma HeadSkips(fs: FileSystem, decode: Buffer -> seq<Field>, dirs: seq<string>, imports: seq<string>, st: State)
    requires imports != [] && forall m :: m in imports ==> m !in RuntimeModules
    requires WasmImportName(imports[0]) in KeySet(st.loaded)
    ensures LoadEach(fs, decode, dirs, imports, st) == LoadEach(fs, decode, dirs, imports[1..], st)
  {
  }

  /** One step of the loop: an import not stored yet is loaded, walked, and the loop goes on. */
  lemma HeadLoads(fs: FileSystem, decode: Buffer -> seq<Field>, dirs: seq<string>, imports: seq<string>, st: State, st2: State)
    requires imports != [] && forall m :: m in imports ==> m !in RuntimeModules
    requires WasmImportName(imports[0]) !in KeySet(st.loaded) && Loadable(fs, dirs, imports[0])
    requires LoadImports(fs, decode, dirs, LoadedBytes(fs, dirs, imports[0]), Load(fs, dirs, st, imports[0])) == Outcome(st2, None)
    ensures LoadEach(fs, decode, dirs, imports, st) == LoadEach(fs, decode, dirs, imports[1..], st2)
  {
  }

  /** Walking a module is the loop over its imports. */
  lemma ImportsStep(fs: FileSystem, decode: Buffer -> seq<Field>, dirs: seq<string>, wasm: Buffer, st: State)
    ensures LoadImports(fs, decode, dirs, wasm, st) == LoadEach(fs, decode, dirs, DetectImports(decode(wasm)), st)
  {
  }
}
