/**
 * The bundle emitter of src/runtime.ts: `wasmToString` and the default export, modelled as
 * the exact text they produce, together with a reader (`Decode`) that recovers the registered
 * modules and the root module from that text, which shows the embedding loses nothing.
 */
module Runtime {
  import opened Wrappers
  import opened Buffers
  import opened Strings
  import Decimal
  import Json

  /** Consumes the literal `lit` at the start of `s`. */
  function Expect(lit: string, s: string): (r: Option<string>)
    ensures r.Some? ==> s == lit + r.value
    ensures IsPrefix(lit, s) ==> r.Some?
  {
    if IsPrefix(lit, s) then
      assert s == s[..|lit|] + s[|lit|..];
      Some(s[|lit|..])
    else None
  }

  lemma ExpectLiteral(lit: string, rest: string)
    ensures Expect(lit, lit + rest) == Some(rest)
  {
    assert (lit + rest)[..|lit|] == lit;
  }

  /** The loop of `wasmToString`: every byte in decimal, each followed by a comma. */
  function ByteList(b: Buffer): string {
    if b == [] then [] else Decimal.Show(b[0]) + "," + ByteList(b[1..])
  }

  // The template pieces below are the literal text of runtime.ts; where a piece is written as
  // two literals, the first holds the characters that tell it apart from a neighbouring piece.
  const BufferOpen := "(function() {\n    var buffer = new ArrayBuffer("
  const BufferFill := ")" + ";\n    var uint8 = new Uint8Array(buffer);\n    \n    uint8.set(["
  const BufferClose := "]" + ");\n\n    return buffer;\n  })()"

  /** `wasmToString(b)`: an expression that builds an `ArrayBuffer` of `|b|` bytes holding `b`. */
  function WasmToString(b: Buffer): string {
    BufferOpen + Decimal.Show(|b|) + BufferFill + ByteList(b) + BufferClose
  }

  /** Reads a comma-terminated list of decimal bytes. */
  function ParseByteList(s: string): (r: Option<(Buffer, string)>)
    ensures r.Some? ==> |r.value.1| <= |s|
    decreases |s|
  {
    if s != [] && Decimal.IsDigit(s[0]) then
      match Decimal.Parse(s)
      case None => None
      case Some((v, t)) =>
        if v < 256 && t != [] && t[0] == ',' then
          match ParseByteList(t[1..])
          case None => None
          case Some((bs, u)) => Some(([v as byte] + bs, u))
        else None
    else Some(([], s))
  }

  /** Reads the text of `wasmToString`, checking that the declared length matches the list. */
  function ParseBuffer(s: string): (r: Option<(Buffer, string)>)
    ensures r.Some? ==> |r.value.1| < |s|
  {
    match Expect(BufferOpen, s)
    case None => None
    case Some(t1) =>
      match Decimal.Parse(t1)
      case None => None
      case Some((n, t2)) =>
        match Expect(BufferFill, t2)
        case None => None
        case Some(t3) =>
          match ParseByteList(t3)
          case None => None
          case Some((bs, t4)) =>
            match Expect(BufferClose, t4)
            case None => None
            case Some(t5) => if |bs| == n then Some((bs, t5)) else None
  }

  lemma {:induction false} ParseByteListOf(b: Buffer, rest: string)
    requires rest == [] || !Decimal.IsDigit(rest[0])
    ensures ParseByteList(ByteList(b) + rest) == Some((b, rest))
  {
    if b == [] {
      assert ByteList(b) + rest == rest;
    } else {
      var tail := ByteList(b[1..]) + rest;
      ByteListStep(b, rest);
      Decimal.ParseShow(b[0], "," + tail);
      ParseByteListOf(b[1..], rest);
      ConsSplit(b);
      ByteSteps(ByteList(b) + rest, b[0], tail, b[1..], rest);
    }
  }

  lemma ByteListStep(b: Buffer, rest: string)
    requires b != []
    ensures ByteList(b) + rest == Decimal.Show(b[0]) + ("," + (ByteList(b[1..]) + rest))
  {
  }

  /** `ParseByteList` read step by step: one byte, its comma, and the rest of the list. */
  lemma ByteSteps(s: string, v: byte, t: string, bs: Buffer, u: string)
    requires s == Decimal.Show(v) + ("," + t)
    requires Decimal.Parse(s) == Some((v, "," + t))
    requires ParseByteList(t) == Some((bs, u))
    ensures ParseByteList(s) == Some(([v] + bs, u))
  {
    assert Decimal.IsDigit(s[0]);
    assert ("," + t)[1..] == t;
  }

  /** Reading back `wasmToString(b)` gives exactly `b`, the empty buffer included. */
  lemma WasmToStringRoundTrip(b: Buffer, rest: string)
    ensures ParseBuffer(WasmToString(b) + rest) == Some((b, rest))
  {
    var len := Decimal.Show(|b|);
    var t4 := BufferClose + rest;
    var t3 := ByteList(b) + t4;
    var t2 := BufferFill + t3;
    var t1 := len + t2;
    assert WasmToString(b) + rest == BufferOpen + t1 by { AppendAssoc5(BufferOpen, len, BufferFill, ByteList(b), BufferClose, rest); }
    ExpectLiteral(BufferOpen, t1);
    assert t2[0] == ')';
    Decimal.ParseShow(|b|, t2);
    ExpectLiteral(BufferFill, t3);
    assert t4[0] == ']';
    ParseByteListOf(b, t4);
    ExpectLiteral(BufferClose, rest);
  }

  lemma AppendAssoc5(a: string, b: string, c: string, d: string, e: string, f: string)
    ensures a + b + c + d + e + f == a + (b + (c + (d + (e + f))))
  {
  }

  /** The list holds one entry per byte: it has exactly `|b|` commas, as decimals have none. */
  lemma {:induction false} ByteListEntries(b: Buffer)
    ensures Count(ByteList(b), ',') == |b|
  {
    if b != [] {
      var d := Decimal.Show(b[0]);
      assert Count(d, ',') == 0 by {
        if Count(d, ',') != 0 { NoCommaInDigits(d); }
      }
      CountConcat(d + ",", ByteList(b[1..]), ',');
      CountConcat(d, ",", ',');
      ByteListEntries(b[1..]);
    }
  }

  lemma {:induction false} NoCommaInDigits(d: string)
    requires Decimal.AllDigits(d)
    ensures Count(d, ',') == 0
  {
    if d != [] {
      NoCommaInDigits(d[1..]);
    }
  }

  const BundleOpen := "\n    "
  const RunnerSetup := "\n\n    var grainModules = {}; \n    var runner = Grain.buildGrainRunner(function(name) {\n      return grainModules[name];\n    });\n\n    "
  const RegisterOpen := "\n " + "     grainModules["
  const RegisterLoad := "] = runner.loadBuffer("
  const RegisterClose := ")\n    "
  const ExportsOpen := "\n\n" + "    module.exports = function(imports) {\n      if (imports && runner.addJSImports) runner.addJSImports(imports);\n\n      return runner\n        .runBufferUnboxed("
  const ExportsClose := ")\n        .then(function(result) {\n          return Grain.grainToString(runner, result);\n        });\n    };\n  "

  /** The statement that registers module `name` with bytes `b`. */
  function Registration(name: string, b: Buffer): string {
    RegisterOpen + Json.Quote(name) + RegisterLoad + WasmToString(b) + RegisterClose
  }

  /** `Object.keys(modules).map(…)`: one registration per entry, in key order. */
  function Registrations(modules: seq<(string, Buffer)>): (r: seq<string>)
    ensures |r| == |modules|
  {
    if modules == [] then []
    else [Registration(modules[0].0, modules[0].1)] + Registrations(modules[1..])
  }

  /**
   * The default export of runtime.ts: the runtime shim, the registrations (an array placed in
   * a template literal, so joined with commas), and the root module run through the runner.
   */
  function Bundle(grainRuntime: string, modules: seq<(string, Buffer)>, wasm: Buffer): string {
    BundleOpen + grainRuntime + RunnerSetup + Join(Registrations(modules), ",")
      + ExportsOpen + WasmToString(wasm) + ExportsClose
  }

  /** Reads one registration statement. */
  function ParseRegistration(s: string): (r: Option<((string, Buffer), string)>)
    ensures r.Some? ==> |r.value.1| < |s|
  {
    match Expect(RegisterOpen, s)
    case None => None
    case Some(t1) =>
      match Json.Unquote(t1)
      case None => None
      case Some((name, t2)) =>
        match Expect(RegisterLoad, t2)
        case None => None
        case Some(t3) =>
          match ParseBuffer(t3)
          case None => None
          case Some((b, t4)) =>
            match Expect(RegisterClose, t4)
            case None => None
            case Some(t5) => Some(((name, b), t5))
  }

  /** Reads one or more comma-separated registrations. */
  function ParseRegistrationList(s: string): (r: Option<(seq<(string, Buffer)>, string)>)
    ensures r.Some? ==> |r.value.1| < |s|
    decreases |s|
  {
    match ParseRegistration(s)
    case None => None
    case Some((e, t)) =>
      if t != [] && t[0] == ',' then
        match ParseRegistrationList(t[1..])
        case None => None
        case Some((es, u)) => Some(([e] + es, u))
      else Some(([e], t))
  }

  /** Reads the (possibly empty) registrations section. */
  function ParseRegistrations(s: string): (r: Option<(seq<(string, Buffer)>, string)>) {
    if IsPrefix(RegisterOpen, s) then ParseRegistrationList(s) else Some(([], s))
  }

  /**
   * Recovers the registered modules and the root module from the text of a bundle, given the
   * runtime shim it should begin with.
   */
  function Decode(text: string, grainRuntime: string): Option<(seq<(string, Buffer)>, Buffer)> {
    match Expect(BundleOpen + grainRuntime + RunnerSetup, text)
    case None => None
    case Some(t1) =>
      match ParseRegistrations(t1)
      case None => None
      case Some((modules, t2)) =>
        match Expect(ExportsOpen, t2)
        case None => None
        case Some(t3) =>
          match ParseBuffer(t3)
          case None => None
          case Some((wasm, t4)) => if t4 == ExportsClose then Some((modules, wasm)) else None
  }

  lemma RegistrationRoundTrip(name: string, b: Buffer, rest: string)
    ensures ParseRegistration(Registration(name, b) + rest) == Some(((name, b), rest))
  {
    var t4 := RegisterClose + rest;
    var t3 := WasmToString(b) + t4;
    var t2 := RegisterLoad + t3;
    var t1 := Json.Quote(name) + t2;
    RegistrationText(name, b, rest);
    ExpectLiteral(RegisterOpen, t1);
    Json.UnquoteQuote(name, t2);
    ExpectLiteral(RegisterLoad, t3);
    WasmToStringRoundTrip(b, t4);
    ExpectLiteral(RegisterClose, rest);
    RegistrationSteps(Registration(name, b) + rest, t1, name, t2, t3, b, t4, rest);
  }

  lemma RegistrationText(name: string, b: Buffer, rest: string)
    ensures Registration(name, b) + rest
      == RegisterOpen + (Json.Quote(name) + (RegisterLoad + (WasmToString(b) + (RegisterClose + rest))))
  {
    AppendAssoc5(RegisterOpen, Json.Quote(name), RegisterLoad, WasmToString(b), RegisterClose, rest);
  }

  /** `ParseRegistration` read step by step. */
  lemma RegistrationSteps(s: string, t1: string, name: string, t2: string, t3: string, b: Buffer, t4: string, t5: string)
    requires Expect(RegisterOpen, s) == Some(t1)
    requires Json.Unquote(t1) == Some((name, t2))
    requires Expect(RegisterLoad, t2) == Some(t3)
    requires ParseBuffer(t3) == Some((b, t4))
    requires Expect(RegisterClose, t4) == Some(t5)
    ensures ParseRegistration(s) == Some(((name, b), t5))
  {
  }

  lemma {:induction false} RegistrationListRoundTrip(modules: seq<(string, Buffer)>, rest: string)
    requires |modules| >= 1
    requires rest == [] || rest[0] != ','
    ensures ParseRegistrationList(Join(Registrations(modules), ",") + rest) == Some((modules, rest))
  {
    if |modules| == 1 {
      SingleRegistration(modules, rest);
    } else {
      RegistrationListRoundTrip(modules[1..], rest);
      MoreRegistrations(modules, rest);
    }
  }

  /** The step of the list round trip: one more registration in front of a list that reads back. */
  lemma MoreRegistrations(modules: seq<(string, Buffer)>, rest: string)
    requires |modules| >= 2
    requires ParseRegistrationList(Join(Registrations(modules[1..]), ",") + rest) == Some((modules[1..], rest))
    ensures ParseRegistrationList(Join(Registrations(modules), ",") + rest) == Some((modules, rest))
  {
    var m0 := modules[0];
    var r0 := Registration(m0.0, m0.1);
    var more := Join(Registrations(modules[1..]), ",") + rest;
    JoinStep(modules, rest);
    RegistrationRoundTrip(m0.0, m0.1, "," + more);
    ConsSplit(modules);
    ListStep(Join(Registrations(modules), ",") + rest, r0, more, m0, modules[1..], rest);
  }

  lemma ConsSplit<T>(xs: seq<T>)
    requires xs != []
    ensures [xs[0]] + xs[1..] == xs
  {
  }

  /** The joined registrations of two or more modules: the first, a comma, and the rest. */
  lemma JoinStep(modules: seq<(string, Buffer)>, rest: string)
    requires |modules| >= 2
    ensures Join(Registrations(modules), ",") + rest
      == Registration(modules[0].0, modules[0].1) + ("," + (Join(Registrations(modules[1..]), ",") + rest))
  {
    var regs := Registrations(modules);
    assert regs[1..] == Registrations(modules[1..]);
    JoinCons(regs, ",", rest);
  }

  lemma SingleRegistration(modules: seq<(string, Buffer)>, rest: string)
    requires |modules| == 1
    requires rest == [] || rest[0] != ','
    ensures ParseRegistrationList(Join(Registrations(modules), ",") + rest) == Some((modules, rest))
  {
    var m0 := modules[0];
    SingleJoin(modules, rest);
    RegistrationRoundTrip(m0.0, m0.1, rest);
    assert [m0] == modules;
  }

  /** The joined registrations of one module: its registration alone. */
  lemma SingleJoin(modules: seq<(string, Buffer)>, rest: string)
    requires |modules| == 1
    ensures Join(Registrations(modules), ",") + rest == Registration(modules[0].0, modules[0].1) + rest
  {
    assert Registrations(modules) == [Registration(modules[0].0, modules[0].1)];
  }

  lemma JoinCons(xs: seq<string>, sep: string, rest: string)
    requires |xs| >= 2
    ensures Join(xs, sep) + rest == xs[0] + (sep + (Join(xs[1..], sep) + rest))
  {
  }

  lemma ListStep(s: string, r0: string, more: string, e: (string, Buffer), es: seq<(string, Buffer)>, u: string)
    requires s == r0 + ("," + more)
    requires ParseRegistration(r0 + ("," + more)) == Some((e, "," + more))
    requires ParseRegistrationList(more) == Some((es, u))
    ensures ParseRegistrationList(s) == Some(([e] + es, u))
  {
    assert ("," + more)[1..] == more;
  }

  /** Reading back the registrations section gives the modules, in the same order. */
  lemma RegistrationsRoundTrip(modules: seq<(string, Buffer)>, rest: string)
    requires rest == [] || rest[0] != ','
    requires !IsPrefix(RegisterOpen, rest)
    ensures ParseRegistrations(Join(Registrations(modules), ",") + rest) == Some((modules, rest))
  {
    if modules == [] {
      NoRegistrations(modules, rest);
    } else {
      RegistrationsStart(modules, rest);
      RegistrationListRoundTrip(modules, rest);
    }
  }

  lemma NoRegistrations(modules: seq<(string, Buffer)>, rest: string)
    requires modules == []
    ensures Join(Registrations(modules), ",") + rest == rest
  {
  }

  /** A non-empty registrations section begins with the text that opens a registration. */
  lemma RegistrationsStart(modules: seq<(string, Buffer)>, rest: string)
    requires modules != []
    ensures IsPrefix(RegisterOpen, Join(Registrations(modules), ",") + rest)
  {
    var t := if |modules| == 1 then rest else "," + (Join(Registrations(modules[1..]), ",") + rest);
    if |modules| == 1 {
      SingleJoin(modules, rest);
    } else {
      JoinStep(modules, rest);
    }
    RegistrationText(modules[0].0, modules[0].1, t);
    PrefixOfAppend(RegisterOpen, Json.Quote(modules[0].0) + (RegisterLoad + (WasmToString(modules[0].1) + (RegisterClose + t))));
  }

  /**
   * The bundle loses nothing: it begins with the runtime shim, and reading it back yields
   * exactly the registered modules, in their key order, and the root module.
   */
  lemma BundleRoundTrip(grainRuntime: string, modules: seq<(string, Buffer)>, wasm: Buffer)
    ensures Decode(Bundle(grainRuntime, modules, wasm), grainRuntime) == Some((modules, wasm))
  {
    var t3 := WasmToString(wasm) + ExportsClose;
    var t2 := ExportsOpen + t3;
    var t1 := Join(Registrations(modules), ",") + t2;
    BundleText(grainRuntime, modules, wasm);
    ExpectLiteral(BundleOpen + grainRuntime + RunnerSetup, t1);
    ExportsAfterRegistrations(t3);
    RegistrationsRoundTrip(modules, t2);
    ExpectLiteral(ExportsOpen, t3);
    WasmToStringRoundTrip(wasm, ExportsClose);
    DecodeSteps(Bundle(grainRuntime, modules, wasm), grainRuntime, t1, modules, t2, t3, wasm);
  }

  lemma BundleText(grainRuntime: string, modules: seq<(string, Buffer)>, wasm: Buffer)
    ensures Bundle(grainRuntime, modules, wasm)
      == (BundleOpen + grainRuntime + RunnerSetup)
         + (Join(Registrations(modules), ",") + (ExportsOpen + (WasmToString(wasm) + ExportsClose)))
  {
    AppendAssoc7(BundleOpen, grainRuntime, RunnerSetup, Join(Registrations(modules), ","),
                 ExportsOpen, WasmToString(wasm), ExportsClose);
  }

  /** The text after the registrations can be neither a further registration nor a comma. */
  lemma ExportsAfterRegistrations(t3: string)
    ensures (ExportsOpen + t3)[0] != ','
    ensures !IsPrefix(RegisterOpen, ExportsOpen + t3)
  {
    assert (ExportsOpen + t3)[1] == '\n' && RegisterOpen[1] == ' ';
  }

  lemma AppendAssoc7(a: string, b: string, c: string, d: string, e: string, f: string, g: string)
    ensures a + b + c + d + e + f + g == (a + b + c) + (d + (e + (f + g)))
  {
  }

  /** Only text that begins with the runtime shim and the runner set-up is read as a bundle. */
  lemma DecodeNeedsShim(text: string, grainRuntime: string)
    ensures Decode(text, grainRuntime).Some? ==> IsPrefix(BundleOpen + grainRuntime + RunnerSetup, text)
  {
    var head := BundleOpen + grainRuntime + RunnerSetup;
    if Decode(text, grainRuntime).Some? {
      var t1 := Expect(head, text).value;
      assert text == head + t1;
      assert text[..|head|] == head;
    }
  }

  lemma DecodeSteps(text: string, grainRuntime: string, t1: string, modules: seq<(string, Buffer)>,
                    t2: string, t3: string, wasm: Buffer)
    requires Expect(BundleOpen + grainRuntime + RunnerSetup, text) == Some(t1)
    requires ParseRegistrations(t1) == Some((modules, t2))
    requires Expect(ExportsOpen, t2) == Some(t3)
    requires ParseBuffer(t3) == Some((wasm, ExportsClose))
    ensures Decode(text, grainRuntime) == Some((modules, wasm))
  {
  }
}
