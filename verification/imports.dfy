/**
 * Import discovery and the import-name classifier of the loader: the runtime module list,
 * `detectImports` and `wasmImportName` (src/index.ts).
 */
module Imports {
  import opened Strings
  import opened OrderedSet
  import Decimal

  /**
   * One entry of `ast.body[0].fields` as produced by the WebAssembly decoder: the node type
   * and, for an import, the module it is imported from and the imported item's name.
   */
  datatype Field = Field(kind: string, moduleName: string, name: string)

  const ModuleImport := "ModuleImport"

  /** The prefix the Grain compiler puts in front of the module name of a Grain import. */
  const Marker := "GRAIN$MODULE$"

  /** The substring that identifies a module of the externally-distributed standard library. */
  const StdlibExternal := "stdlib-external"

  /** Modules supplied by the Grain runtime itself, never looked up on disk. */
  const RuntimeModules: seq<string> := ["grainRuntime", "grainBuiltins", "console", "env"]

  /** `module.replace('GRAIN$MODULE$', '')`: only the first occurrence of the marker goes. */
  function StripMarker(moduleName: string): string {
    RemoveFirst(moduleName, Marker)
  }

  /** `f` is a module import whose marker-stripped module name is `x`, and `x` is not a runtime module. */
  predicate Declares(f: Field, x: string) {
    f.kind == ModuleImport && StripMarker(f.moduleName) == x && x !in RuntimeModules
  }

  /** Some field of `fields` declares `x`. */
  predicate Declared(fields: seq<Field>, x: string) {
    exists f :: f in fields && Declares(f, x)
  }

  /** The chained `filter`/`map`/`filter` over the field list, before duplicates are dropped. */
  function Candidates(fields: seq<Field>): (r: seq<string>)
    ensures forall x :: x in r <==> Declared(fields, x)
  {
    if fields == [] then []
    else
      var rest := Candidates(fields[1..]);
      var f := fields[0];
      assert fields == [f] + fields[1..];
      if f.kind == ModuleImport && StripMarker(f.moduleName) !in RuntimeModules then
        assert Declares(f, StripMarker(f.moduleName));
        [StripMarker(f.moduleName)] + rest
      else rest
  }

  /** The position of the first field that declares `x`. */
  function FirstField(fields: seq<Field>, x: string): (k: nat)
    requires Declared(fields, x)
    ensures k < |fields| && Declares(fields[k], x)
    ensures forall j :: 0 <= j < k ==> !Declares(fields[j], x)
  {
    if Declares(fields[0], x) then 0
    else
      assert fields == [fields[0]] + fields[1..];
      1 + FirstField(fields[1..], x)
  }

  /** Positions among the candidates compare the same way as the first declaring fields do. */
  lemma {:induction false} CandidatesOrder(fields: seq<Field>, x: string, y: string)
    requires x in Candidates(fields) && y in Candidates(fields)
    ensures FirstIndex(Candidates(fields), x) < FirstIndex(Candidates(fields), y)
        <==> FirstField(fields, x) < FirstField(fields, y)
  {
    var f := fields[0];
    var rest := Candidates(fields[1..]);
    var s0 := StripMarker(f.moduleName);
    CandidatesCons(fields);
    if Declares(f, s0) && (x == s0 || y == s0) {
      if x != s0 {
        FirstFieldLater(fields, x);
        FirstIndexLater(s0, rest, x);
      } else if y != s0 {
        FirstFieldLater(fields, y);
        FirstIndexLater(s0, rest, y);
      }
    } else {
      FirstFieldLater(fields, x);
      FirstFieldLater(fields, y);
      if Declares(f, s0) {
        FirstIndexLater(s0, rest, x);
        FirstIndexLater(s0, rest, y);
      }
      CandidatesOrder(fields[1..], x, y);
    }
  }

  /** The candidates of a non-empty field list: those of its tail, behind the head's name when it declares one. */
  lemma CandidatesCons(fields: seq<Field>)
    requires fields != []
    ensures var s0 := StripMarker(fields[0].moduleName);
      Candidates(fields) == (if Declares(fields[0], s0) then [s0] else []) + Candidates(fields[1..])
  {
  }

  /** A name the first field does not declare is first declared one field further in the tail. */
  lemma FirstFieldLater(fields: seq<Field>, x: string)
    requires Declared(fields, x) && !Declares(fields[0], x)
    ensures Declared(fields[1..], x) && FirstField(fields, x) == 1 + FirstField(fields[1..], x)
  {
    var k := FirstField(fields, x);
    assert fields[1..][k - 1] == fields[k];
  }

  lemma FirstIndexLater(s0: string, rest: seq<string>, x: string)
    requires x in rest && x != s0
    ensures FirstIndex([s0] + rest, x) == 1 + FirstIndex(rest, x)
  {
    assert ([s0] + rest)[1..] == rest;
  }

  /**
   * `detectImports`: the distinct marker-stripped module names of the module's imports,
   * runtime modules excluded, in order of first appearance in the field list.
   */
  function DetectImports(fields: seq<Field>): (r: seq<string>)
    ensures NoDuplicates(r)
    ensures forall x :: x in r <==> Declared(fields, x)
    ensures forall x :: x in r ==> x !in RuntimeModules
    ensures forall i, j :: 0 <= i < j < |r| ==> FirstField(fields, r[i]) < FirstField(fields, r[j])
  {
    var c := Candidates(fields);
    var r := FromSeq(c);
    forall i, j | 0 <= i < j < |r|
      ensures FirstField(fields, r[i]) < FirstField(fields, r[j])
    {
      CandidatesOrder(fields, r[i], r[j]);
    }
    r
  }

  /** The module field of a Grain import is the marker and the module name: stripping gives the name. */
  lemma StripMarkerOf(n: string)
    ensures StripMarker(Marker + n) == n
  {
    var s := Marker + n;
    assert s[0..|Marker|] == Marker;
    ContainsIff(s, Marker, 0);
    var r := StripMarker(s);
    assert IndexOf(s, Marker).value == 0;
    assert s == r[..0] + Marker + r[0..];
  }

  /** `name` has the form of a qualified name: a standard-library name, or one carrying the marker. */
  predicate IsQualified(q: string) {
    Contains(q, StdlibExternal) || IsPrefix(Marker, q)
  }

  /** The marker contains no `s`, so it cannot contribute to an occurrence of `stdlib-external`. */
  lemma MarkerAddsNoStdlib(n: string)
    ensures Contains(Marker + n, StdlibExternal) <==> Contains(n, StdlibExternal)
  {
    var m := Marker + n;
    if Contains(m, StdlibExternal) {
      var i := IndexOf(m, StdlibExternal).value;
      assert m[i..i + |StdlibExternal|][0] == 's';
      OccursPastPrefix(Marker, n, StdlibExternal, i);
      ContainsIff(n, StdlibExternal, i - |Marker|);
    }
    if Contains(n, StdlibExternal) {
      var i := IndexOf(n, StdlibExternal).value;
      OccursAfterPrefix(Marker, n, StdlibExternal, i);
      ContainsIff(m, StdlibExternal, |Marker| + i);
    }
  }

  /** The inverse of `wasmImportName` on qualified names. */
  function Unqualify(q: string): string {
    if Contains(q, StdlibExternal) then q
    else if IsPrefix(Marker, q) then q[|Marker|..]
    else q
  }

  /**
   * `wasmImportName`: a standard-library name is kept as it is, any other name gets the marker.
   * The result is a qualified name, never a runtime module, and `Unqualify` recovers the input,
   * so distinct import names never share a key.
   */
  function WasmImportName(name: string): (q: string)
    ensures IsQualified(q)
    ensures q !in RuntimeModules
    ensures Unqualify(q) == name
  {
    if Contains(name, StdlibExternal) then
      var i := IndexOf(name, StdlibExternal).value;
      assert |name| >= |StdlibExternal|;
      name
    else
      var q := Marker + name;
      MarkerAddsNoStdlib(name);
      assert q[..|Marker|] == Marker && q[|Marker|..] == name;
      assert q[0] == 'G';
      q
  }

  lemma WasmImportNameInjective(a: string, b: string)
    requires WasmImportName(a) == WasmImportName(b)
    ensures a == b
  {
    assert Unqualify(WasmImportName(a)) == a;
  }

  /** A key is the image of some import name exactly when it has the qualified form. */
  lemma QualifiedIff(q: string)
    ensures IsQualified(q) <==> WasmImportName(Unqualify(q)) == q
  {
    if !Contains(q, StdlibExternal) && IsPrefix(Marker, q) {
      var m := q[|Marker|..];
      assert q == Marker + m;
      MarkerAddsNoStdlib(m);
    }
    if !IsQualified(q) {
      assert |WasmImportName(q)| == |Marker| + |q|;
    }
  }

  /**
   * No qualified name is all digits, so none is an array index and `Object.keys` lists the
   * loaded modules in insertion order.
   */
  lemma QualifiedIsNotIndex(name: string)
    ensures !Decimal.AllDigits(WasmImportName(name))
  {
    var q := WasmImportName(name);
    if Contains(name, StdlibExternal) {
      var i := IndexOf(name, StdlibExternal).value;
      assert q[i..i + |StdlibExternal|][0] == 's';
      assert !Decimal.IsDigit(q[i]);
    } else {
      assert q[0] == 'G';
      assert !Decimal.IsDigit(q[0]);
    }
  }
}
