# grain-loader: the bundling core

This project models the part of the Grain webpack loader that turns one compiled Grain module
into a single self-running JavaScript module:

- **Import discovery** (`detectImports`). It reads the module import fields of a compiled
  WebAssembly binary and strips the first `GRAIN$MODULE$` marker from each module name. It drops
  the runtime modules `grainRuntime`, `grainBuiltins`, `console` and `env`, and removes
  duplicates, keeping the order of first appearance.
- **Naming** (`wasmImportName`). Every import gets the marker prefix, except names that contain
  `stdlib-external`.
- **Resolution** (`resolveImport`). An import is found at the first `<dir>/<name>.gr.wasm` along
  the search path. That path is the source file's directory, then `includeDirs`, then
  `<grainHome>/stdlib`.
- **The dependency walk** (`loadImports`). The walk is depth first. Each module found is stored
  in `loadedImports` under its qualified name and reported to the build without `.wasm`. Then
  its own imports are walked.
- **The loader** (`runLoader`). It reports the runtime file first, runs the walk from the
  compiled module and reads the runtime text.
- **The emitter** (`wasmToString` and the default export of `runtime.ts`). It produces the bundle
  text: the runtime shim, one `grainModules[...] = runner.loadBuffer(...)` registration per
  stored module, and the root module run through the runner.

The walk is modelled twice:

- `Walker` follows the code as written. Its "already loaded" test looks up the **raw** import
  name, as a JavaScript property access on a plain object. Modules, however, are stored under
  their **qualified** name.
- `DedupWalker` makes that test on the qualified name, as an own key. That is the behaviour the
  loader evidently intends, and `Loader.RunLoaderFixed` builds on it.

Because the as-written walk does not terminate on import cycles, it carries a depth bound
`fuel`. `OutOfFuel` at every bound (`Walker.CycleNeverEnds`) stands for the original's
non-termination. Any other outcome is final: a larger bound gives the same outcome
(`Walker.MoreFuel`, `Walker.FuelSettles`). The corrected walk needs no bound. It terminates on every file system because the number of storable keys not yet
stored decreases at each load.

The emitter is modelled to the exact text of the template, whitespace included. A reader,
`Runtime.Decode`, recovers the registered modules and the root binary from a bundle.
`Runtime.BundleRoundTrip` proves that this reading succeeds for every input, so the embedding
loses nothing.

A walk that throws keeps what it did before the throw. `loadedImports` belongs to the caller,
and every `addDependency` call has already reached the build. So a walk's `Outcome` carries the
state reached next to its error, and the loader reports that state's dependencies on failure
too.

Three facts about the code shape the model:

- Registrations are emitted in `Object.keys` order. That is insertion order, because no
  qualified name is an array index (`Imports.QualifiedIsNotIndex`). They are not sorted.
- The path reported for a loaded module is its resolved path with `.wasm` removed, e.g.
  `dir/foo.gr`.
- The walk as written does not terminate on import cycles (see Findings).

Files:

- `wrappers.dfy`, `buffers.dfy`: `Option` and `Result`, and bytes.
- `strings.dfy`: the JavaScript string operations used.
- `decimal.dfy`: `${n}` and its inverse.
- `json.dfy`: `JSON.stringify` on strings and its inverse.
- `ordered_set.dfy`: `new Set(xs)`.
- `ordered_map.dfy`: a plain object used as a record.
- `reach.dfy`: "reached through an edge relation", the shape of the walk's load order.
- `imports.dfy`, `resolve.dfy`, `walker.dfy`, `dedup_walker.dfy`, `runtime.dfy`, `loader.dfy`:
  the core.
- `scenarios.dfy`: concrete runs.

## Model

| member | source | states |
|---|---|---|
| Imports.DetectImports | src/index.ts:59-68 | The result lists exactly the marker-stripped module names of module-import fields that are not runtime modules. It has no duplicates. Names appear in the order of their first declaring field. |
| Imports.Candidates | src/index.ts:64-67 | The filter/map/filter chain yields exactly the names some field declares. |
| Imports.CandidatesOrder | src/index.ts:64-67 | Among the chain's output, first positions compare exactly as the positions of the first declaring fields do. |
| Imports.FirstField | src/index.ts:65 | The first field that declares a name is a module import stripping to it, and no earlier field is. |
| Imports.StripMarkerOf | src/index.ts:66 | Stripping the marker from a marker-prefixed module name gives back the name. |
| Imports.WasmImportName | src/index.ts:96-99 | The key is always qualified and never a runtime module. `Unqualify` recovers the import name from it. |
| Imports.WasmImportNameInjective | src/index.ts:96-99 | Distinct import names never share a key. |
| Imports.QualifiedIff | src/index.ts:96-99 | A string is some import's key exactly when it has the qualified form. |
| Imports.MarkerAddsNoStdlib | src/index.ts:97-99 | The marker never creates or hides an occurrence of `stdlib-external`. |
| Imports.QualifiedIsNotIndex | src/index.ts:96-99 | No key is all digits, so `Object.keys` lists keys in insertion order. |
| Strings.RemoveFirst | src/index.ts:66 | `replace` with a string pattern removes exactly the first occurrence and leaves the text around it unchanged. Without an occurrence, the input is unchanged. |
| Strings.IndexOf | src/index.ts:97 | The index is the first occurrence. None means there is no occurrence anywhere. |
| Strings.ContainsIff | src/index.ts:97 | `includes` holds exactly when the pattern occurs at some index. |
| Strings.RemoveSuffix | src/index.ts:140 | `replace(/\.wasm$/, '')` drops the suffix when present and otherwise changes nothing. |
| OrderedSet.FromSeq | src/index.ts:64 | `new Set` keeps the same elements without duplicates, in order of first occurrence. |
| OrderedMap.Get | src/index.ts:119 | An own-key lookup finds a value exactly for the keys present, and the value is stored under that key. |
| OrderedMap.Put | src/index.ts:137 | After the assignment, the key holds the new value and the key set gains exactly that key. No other entry is invented. |
| OrderedMap.PutAppends | src/index.ts:137 | Assigning to a new key appends the entry at the end of the key order. |
| OrderedMap.PutKeepsOthers | src/index.ts:137 | Assigning to one key leaves every other key's value unchanged. |
| OrderedMap.PutKeepsKeys | src/index.ts:137 | Assigning to an existing key keeps the key order unchanged. |
| OrderedMap.PutKeepsUniqueKeys | src/index.ts:137 | Assignment never creates a second entry for a key. |
| Resolve.ResolveImport | src/index.ts:70-94 | Returns undefined exactly when no directory has `<name>.gr.wasm`. Otherwise the path exists and sits in the first directory that has one. |
| Resolve.SearchPrecedence | src/index.ts:214 | A module next to the source shadows every other. Otherwise the include directories are searched. The standard library is used only when no earlier directory has the module. |
| Resolve.PrefixMissing | src/index.ts:79-89 | Directories that lack the module do not change the result. |
| Resolve.ResolvedIsResolvable | src/index.ts:70-94 | Every resolved name lies in the finite set of names that the existing files stand for. |
| Walker.Load | src/index.ts:135-140 | The module's bytes are stored under its qualified name, appended when the key is new. The reported path is appended. No key is dropped. |
| Walker.LoadKeepsInv | src/index.ts:135-140 | Loading keeps the walk invariant: one report per load, each the resolved path without `.wasm`, and every stored entry keyed by a loaded import's qualified name holding that import's bytes. |
| Walker.LoadImports | src/index.ts:101-149 | Whether or not the walk throws, the state only grows and the walk invariant is kept. `Unresolved` errors name a non-runtime import that no directory has. `ReadFailed` names a path that exists but cannot be read. |
| Walker.LoadEach | src/index.ts:116-148 | The loop over the found imports keeps the same guarantees for every name in the list. |
| Walker.WalkReaches | src/index.ts:114-147 | Whether or not the walk throws, every module it loads is an import of the root or of a module loaded before it. The name in an `Unresolved` error is reached the same way. |
| Walker.EachReaches | src/index.ts:116-148 | The loop gives the same guarantee, with the listed names as the roots. |
| Walker.StepReaches | src/index.ts:135-147 | A loop turn that loads a module, walks its imports and then continues keeps loads reached from the listed names, also when the sub-walk throws. |
| Walker.WalkCloses | src/index.ts:114-147 | A walk that ends without error leaves every import of the root, and every import of every module it loaded, looking loaded to the raw-name test: its qualified key stored, its raw name stored, or the name inherited. |
| Walker.EachCloses | src/index.ts:116-148 | The loop gives the same guarantee for every listed name. |
| Walker.StepCloses | src/index.ts:135-147 | A loop turn that loads a module keeps the closure guarantee when both its sub-walk and the rest of the loop keep it. |
| Walker.MoreFuel | src/index.ts:101-149 | A walk that ends at some depth bound with anything but `OutOfFuel` gives the identical outcome with one more level. |
| Walker.EachMoreFuel | src/index.ts:116-148 | The loop gives the same guarantee. |
| Walker.FuelSettles | src/index.ts:101-149 | An outcome other than `OutOfFuel` at one bound is the outcome at every larger bound. |
| Walker.HeadSkips | src/index.ts:119-121 | An import whose raw name is truthy in `loadedImports` is skipped. |
| Walker.HeadLoads | src/index.ts:125-147 | An import that is not truthy is loaded and walked, and the loop continues from the resulting state. |
| Walker.HeadFails | src/index.ts:141-147 | A failure in walking an import ends the whole loop with the same outcome: the same error and the state reached when it was thrown. |
| Walker.CycleNeverEnds | src/index.ts:117-147 | On a cycle of ordinary imports, the walk runs out of every depth bound: the original never returns. |
| Walker.RawKeyHit | src/index.ts:117-121 | The raw-name lookup hits an own key only for names containing `stdlib-external` or themselves starting with the marker. |
| DedupWalker.LoadImports | src/index.ts:101-149 | The corrected walk terminates without a bound and never fails with `OutOfFuel`. Whether or not it throws, the state only grows, the invariant is kept and entries follow loads in order. Errors are as in the original. |
| DedupWalker.LoadEach | src/index.ts:116-148 | The corrected loop gives the same guarantees for every name in the list. |
| DedupWalker.LoadNew | src/index.ts:125-147 | Loading a new import, walking it and continuing the loop gives the same guarantees. |
| DedupWalker.WalkReaches | src/index.ts:114-147 | Whether or not the corrected walk throws, every module it loads, and the name of an `Unresolved` error, is an import of the root or of a module loaded before it. |
| DedupWalker.EachReaches | src/index.ts:116-148 | The corrected loop gives the same guarantee, with the listed names as the roots. |
| DedupWalker.NewReaches | src/index.ts:125-147 | So does a turn of the loop that loads a new import. |
| DedupWalker.WalkCloses | src/index.ts:114-147 | A corrected walk that ends without error has stored the qualified key of every import of the root and of every import of every module it loaded. |
| DedupWalker.EachCloses | src/index.ts:116-148 | The corrected loop gives the same guarantee for every listed name. |
| DedupWalker.NewCloses | src/index.ts:125-147 | So does a turn of the loop that loads a new import. |
| DedupWalker.LoadShrinksRemaining | src/index.ts:137 | Storing a new key lowers the count of storable keys not yet stored. |
| DedupWalker.LoadedOnce | src/index.ts:135-140 | In the corrected walk, no import is loaded twice. Reports, stored modules and loads correspond one to one. |
| DedupWalker.HeadSkips | src/index.ts:119-121 | With the corrected test, an import whose key is stored is skipped. |
| DedupWalker.HeadLoads | src/index.ts:125-147 | With the corrected test, a new import is loaded and walked, and the loop continues. |
| Loader.Finish | src/index.ts:173-185 | Whatever the outcome, the dependencies are the runtime path and then the walk's reports. A failed walk fails the loader with the same error. An unreadable runtime fails it naming the runtime path. Otherwise the bundle decodes to exactly the stored modules and the root. |
| Loader.RunLoader | src/index.ts:151-186 | Succeeds exactly when the walk succeeds and the runtime can be read. An `Unresolved` failure names a non-runtime import that no directory has, reached from the root through loaded modules. On success, the bundle decodes to the stored modules and the root, and every import of the root and of every stored module looks loaded to the raw-name test. |
| Loader.RunLoaderDependencies | src/index.ts:140-166 | Whether or not the run succeeds, the first dependency is the runtime path. After it comes one path per loaded module, in load order, each the resolved path without `.wasm`. |
| Loader.RunLoaderRegistered | src/index.ts:114-147 | Whether or not the run succeeds, every registered key is unique and qualified, names a loaded module, and holds the bytes of that module's resolved file. Every loaded module is an import of the root or of a module loaded before it. |
| Loader.RunLoaderFixed | src/index.ts:151-186 | With the corrected walk, the loader never runs out of fuel. Whatever the outcome, the dependencies are the runtime path and then one report per load, no import is loaded twice, and every load is reached from the root's imports. An `Unresolved` failure names a reached import that no directory has. On success, the bundle decodes to the registered modules, and every import of the root and of every registered module is registered under its qualified key. |
| Loader.FixedLoadsWithin | src/index.ts:114-147 | Any set that holds the root's imports and every import of each of its members holds every module the corrected walk loads. With `Loader.RunLoaderFixed`, a successful run registers exactly the modules reachable from the root. |
| Loader.RegisteredClosed | src/index.ts:114-147 | After a complete walk, every import of every registered module is registered under its qualified key (corrected walk) or looks loaded to the raw-name test (as written). |
| Decimal.Show | src/runtime.ts:5 | `${n}` is a non-empty run of digits with no leading zero. |
| Decimal.ParseShow | src/runtime.ts:5 | Reading back `${n}` gives `n`, when no digit follows. |
| Json.UnquoteQuote | src/runtime.ts:28 | Reading back `JSON.stringify(name)` gives the name, whatever follows. |
| Runtime.WasmToStringRoundTrip | src/runtime.ts:1-16 | Reading back `wasmToString(b)` gives exactly `b`, with its declared length, the empty buffer included. |
| Runtime.ParseByteListOf | src/runtime.ts:4-6 | The comma-terminated decimal list reads back to the bytes. |
| Runtime.ByteListEntries | src/runtime.ts:4-6 | The list holds exactly one comma per byte. |
| Runtime.Registrations | src/runtime.ts:27-29 | There is one registration per module entry. |
| Runtime.RegistrationRoundTrip | src/runtime.ts:28 | A registration statement reads back to its name and bytes. |
| Runtime.RegistrationsRoundTrip | src/runtime.ts:27-29 | The comma-joined registrations read back to the entries, in key order, including none. |
| Runtime.BundleRoundTrip | src/runtime.ts:18-41 | The bundle reads back to exactly the registered modules, in key order, and the root binary. |
| Runtime.DecodeNeedsShim | src/runtime.ts:19-25 | Only text beginning with the runtime shim and runner set-up is read as a bundle. |
| Scenarios.FooOutput | src/index.ts:151-186 | The root imports `foo`, found only in the second directory. Output: the runtime path, then `dirB/foo.gr`, and one registration under `GRAIN$MODULE$foo`. |
| Scenarios.FooWalk | src/index.ts:101-149 | The walk of that example stores `foo`'s bytes once and reports its path once. |
| Scenarios.MissingOutput | src/index.ts:131-179 | The root imports `foo`, and `foo` imports `bar`, which no directory has. The loader fails with `Unresolved("bar")`, and the runtime path and `dirB/foo.gr` have already been reported. |
| Scenarios.CycleNeverLoads | src/index.ts:117-147 | As written, the loader runs out of every depth bound on the cycle root→a→b→a: it never finishes. |
| Scenarios.FixedCycleOutput | src/index.ts:151-186 | With the corrected test, the same cycle bundles two registrations, `a` first, and reports `src/a.gr` and then `src/b.gr`. |
| Scenarios.CtorSkipped | src/index.ts:119-121 | As written, an import named `constructor` resolves on disk but is skipped, so nothing is registered. |
| Scenarios.CtorLoadedWhenFixed | src/index.ts:119-121 | With the corrected test, `constructor` is loaded, registered and reported. |

## Left out

- Compilation (`compile`, src/index.ts:50-57) runs an external process. The compiled bytes are an input of the model.
- The WebAssembly decoder is a foreign library. It is the parameter `decode`, mapping bytes to the field list of `ast.body[0]`. A binary the decoder rejects, or one without a first module body, is not modelled.
- `fs.stat` and `fs.readFile` become a `FileSystem` value: the set of paths that exist and the contents of those that can be read. Reading the runtime file as UTF-8 is an `Option<string>` input, `None` when the read fails.
- `path.join`, `path.resolve` and `path.dirname` are plain concatenation with `/`. The source directory is an input. Normalisation of `.`, `..` and absolute paths is not modelled.
- Logging (`logger.debug`) has no effect on the result and is left out.
- The webpack entry point is left out, except for the search path and the runtime path it builds (src/index.ts:204-214). That covers `cacheable`, the async-mode check, option validation, and the callback.
- Async sequencing is left out. The walk awaits each step in turn, so it is modelled as sequential.
- What the emitted JavaScript does at run time (`Grain.buildGrainRunner` and the rest) is outside the model. The bundle is modelled as text only.
- Walker.LoadImports: the `fuel` bound stands in for the original's unbounded recursion. `OutOfFuel` at every bound stands for non-termination. The original awaits at every level, so it does not overflow the stack; it keeps resolving, reading and reporting the same modules forever. At one fixed bound, `OutOfFuel` only says that the import chain is deeper than the bound.
- Json.UnquoteQuote: characters are Unicode scalar values, so `JSON.stringify`'s escaping of lone surrogates is not modelled.
- Scenarios.FooOutput: it is stated for every bound of at least 2 (written `fuel + 2`), the depth the example needs.
- Scenarios.MissingOutput: it is stated for every bound of at least 2 (written `fuel + 2`).
- Scenarios.CtorSkipped: it is stated for every bound of at least 1 (written `fuel + 1`).

## Findings

| source | as written | input that shows it | evidently intended | confidence | as-written member | corrected member |
|---|---|---|---|---|---|---|
| src/index.ts:119 | the "already loaded" test reads `loadedImports[importName]` (the raw name), while line 137 stores under `wasmName` (the qualified name), so the test never sees what was stored | root imports `a`, `a` imports `b`, `b` imports `a`: `a` and `b` are loaded again and again | test the qualified key that was stored, so that each module is loaded once and cycles end | high; not executed | Scenarios.CycleNeverLoads | Scenarios.FixedCycleOutput |
| src/index.ts:119 | the test is a truthiness check on a plain object, so names inherited from `Object.prototype` look loaded | root imports a module named `constructor` that exists on disk: it is neither registered nor reported, and the bundle cannot run it | an own-key test (`hasOwnProperty` on the qualified name) | medium; not executed | Scenarios.CtorSkipped | Scenarios.CtorLoadedWhenFixed |
