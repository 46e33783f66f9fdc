/** Locating a compiled Grain module on the search path: `resolveImport` and the path order of src/index.ts. */
module Resolve {
  import opened Wrappers
  import opened Buffers

  /**
   * The file system as the loader sees it: the paths `fs.stat` succeeds on, and the bytes
   * `fs.readFile` returns for the paths that can be read.
   */
  datatype FileSystem = FileSystem(stat: set<string>, contents: map<string, Buffer>)

  /** The file name suffix of a compiled Grain module. */
  const Extension := ".gr.wasm"

  /** The directory of the standard library under the Grain home. */
  const StdlibDir := "stdlib"

  /** `path.join(dir, file)`, without the normalisation of `.` and `..` segments. */
  function PathJoin(dir: string, file: string): string {
    dir + "/" + file
  }

  /** The path probed for import `name` in directory `dir`. */
  function Candidate(dir: string, name: string): string {
    PathJoin(dir, name + Extension)
  }

  /** Directory `k` has the module and no directory before it does. */
  predicate FirstHasIt(stat: set<string>, dirs: seq<string>, k: int, name: string)
    requires 0 <= k < |dirs|
  {
    Candidate(dirs[k], name) in stat && forall j :: 0 <= j < k ==> Candidate(dirs[j], name) !in stat
  }

  /**
   * `resolveImport`: the candidate in the first directory of `dirs` where it exists.
   * None (`undefined`) exactly when no directory has one; otherwise the hit is in some
   * directory and every earlier directory was probed without success.
   */
  function ResolveImport(stat: set<string>, dirs: seq<string>, name: string): (r: Option<string>)
    ensures r.None? <==> forall d :: d in dirs ==> Candidate(d, name) !in stat
    ensures r.Some? ==> r.value in stat
    ensures r.Some? ==>
      exists k :: 0 <= k < |dirs| && r.value == Candidate(dirs[k], name) && FirstHasIt(stat, dirs, k, name)
  {
    if dirs == [] then None
    else if Candidate(dirs[0], name) in stat then
      Some(Candidate(dirs[0], name))
    else
      var r := ResolveImport(stat, dirs[1..], name);
      assert dirs == [dirs[0]] + dirs[1..];
      if r.Some? then
        var k :| 0 <= k < |dirs[1..]| && r.value == Candidate(dirs[1..][k], name)
          && FirstHasIt(stat, dirs[1..], k, name);
        assert r.value == Candidate(dirs[k + 1], name);
        assert FirstHasIt(stat, dirs, k + 1, name) by {
          forall j | 0 <= j < k + 1 ensures Candidate(dirs[j], name) !in stat {
            if j > 0 { assert dirs[j] == dirs[1..][j - 1]; }
          }
        }
        r
      else r
  }

  /**
   * The search path the loader passes down: the directory of the module being loaded, then
   * the configured include directories in order, then the standard library of the Grain home.
   */
  function SearchPath(sourceDir: string, includeDirs: seq<string>, grainHome: string): (dirs: seq<string>)
  {
    [sourceDir] + includeDirs + [PathJoin(grainHome, StdlibDir)]
  }

  /**
   * A module next to the source shadows every other; an include directory shadows the standard
   * library; the standard library is used only when no earlier directory has the module.
   */
  lemma SearchPrecedence(stat: set<string>, sourceDir: string, includeDirs: seq<string>, grainHome: string, name: string)
    ensures Candidate(sourceDir, name) in stat ==>
      ResolveImport(stat, SearchPath(sourceDir, includeDirs, grainHome), name) == Some(Candidate(sourceDir, name))
    ensures Candidate(sourceDir, name) !in stat ==>
      ResolveImport(stat, SearchPath(sourceDir, includeDirs, grainHome), name)
        == ResolveImport(stat, includeDirs + [PathJoin(grainHome, StdlibDir)], name)
    ensures (forall d :: d in [sourceDir] + includeDirs ==> Candidate(d, name) !in stat) ==>
      ResolveImport(stat, SearchPath(sourceDir, includeDirs, grainHome), name)
        == (if Candidate(PathJoin(grainHome, StdlibDir), name) in stat
            then Some(Candidate(PathJoin(grainHome, StdlibDir), name)) else None)
  {
    var dirs := SearchPath(sourceDir, includeDirs, grainHome);
    var stdlib := PathJoin(grainHome, StdlibDir);
    assert dirs[1..] == includeDirs + [stdlib];
    if forall d :: d in [sourceDir] + includeDirs ==> Candidate(d, name) !in stat {
      PrefixMissing(stat, [sourceDir] + includeDirs, [stdlib], name);
      assert dirs == ([sourceDir] + includeDirs) + [stdlib];
      assert [stdlib][1..] == [];
    }
  }

  /** Directories that lack the module can be skipped. */
  lemma {:induction false} PrefixMissing(stat: set<string>, missing: seq<string>, rest: seq<string>, name: string)
    requires forall d :: d in missing ==> Candidate(d, name) !in stat
    ensures ResolveImport(stat, missing + rest, name) == ResolveImport(stat, rest, name)
  {
    if missing != [] {
      assert (missing + rest)[1..] == missing[1..] + rest;
      assert (missing + rest)[0] == missing[0];
      PrefixMissing(stat, missing[1..], rest, name);
    } else {
      assert missing + rest == rest;
    }
  }

  /** The module name a path `<dir>/<name>.gr.wasm` stands for. */
  function Stem(p: string, dir: string): string
    requires |p| >= |dir| + 1 + |Extension|
  {
    p[|dir| + 1..|p| - |Extension|]
  }

  /** A path of the form `<dir>/<name>.gr.wasm`, for the given `dir`. */
  predicate IsCandidateIn(p: string, dir: string) {
    |p| >= |dir| + 1 + |Extension| && p == Candidate(dir, Stem(p, dir))
  }

  /**
   * Every name that resolves in `dirs`: a finite set, because each comes from an existing path.
   * It bounds the walk that loads each qualified name at most once.
   */
  function ResolvableNames(stat: set<string>, dirs: seq<string>): set<string> {
    set p, d | p in stat && d in dirs && IsCandidateIn(p, d) :: Stem(p, d)
  }

  /** The candidate path of `name` in `dir` stands for `name`. */
  lemma CandidateStem(dir: string, name: string)
    ensures IsCandidateIn(Candidate(dir, name), dir)
    ensures Stem(Candidate(dir, name), dir) == name
  {
    var p := Candidate(dir, name);
    assert p == dir + "/" + name + Extension;
    assert p[|dir| + 1..|p| - |Extension|] == name;
  }

  lemma ResolvedIsResolvable(stat: set<string>, dirs: seq<string>, name: string)
    requires ResolveImport(stat, dirs, name).Some?
    ensures name in ResolvableNames(stat, dirs)
  {
    var p := ResolveImport(stat, dirs, name).value;
    var k :| 0 <= k < |dirs| && p == Candidate(dirs[k], name);
    CandidateStem(dirs[k], name);
    assert dirs[k] in dirs;
  }
}
