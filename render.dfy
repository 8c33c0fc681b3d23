/** Decorator synthesis: output naming, the empty-interface check of
    `generate`, the template functions `call` (`FuncCall`), `return`
    (`FuncReturn`) and `toStructFields` (`paramsToStructFields`), and the text
    the decorator template expands to. The expansion is built from a small
    decorator model: struct name, interface name, and the methods in the order
    `text/template` ranges over a map, ascending by key. */
module Render {
  import opened Wrappers
  import opened Strings
  import CaseConv
  import opened Discovery

  // ---------------------------------------------------------------------
  // Naming.

  /** `generateOptions`. */
  datatype GenerateOptions = GenerateOptions(
    interfaceName: string,
    packageName: string,
    outputFileName: string,
    structName: string,
    sourcePackage: string,
    destinationPackage: string)

  function StructName(interfaceName: string): string
  {
    interfaceName + "Metrics"
  }

  /** The file name of a decorator inside the output directory. */
  function OutputBaseName(interfaceName: string, suffix: string): string
  {
    CaseConv.Snake(interfaceName) + suffix
  }

  /** The options `main` builds for one discovered interface. `joinPath` stands
      for `filepath.Join`. */
  function OptionsFor(sourcePackage: string, destinationPackage: string, outputDir: string,
                      interfaceName: string, suffix: string, packageName: string,
                      joinPath: (string, string) -> string): (opts: GenerateOptions)
    ensures opts.interfaceName == interfaceName && opts.packageName == packageName
    ensures opts.sourcePackage == sourcePackage && opts.destinationPackage == destinationPackage
    ensures opts.structName == StructName(interfaceName)
    ensures opts.outputFileName == joinPath(outputDir, OutputBaseName(interfaceName, suffix))
  {
    GenerateOptions(interfaceName, packageName,
                    joinPath(outputDir, OutputBaseName(interfaceName, suffix)),
                    StructName(interfaceName), sourcePackage, destinationPackage)
  }

  /** The struct name ends in `Metrics` and tells interfaces apart. */
  lemma StructNameInjective(a: string, b: string)
    ensures StructName(a)[..|a|] == a && StructName(a)[|a|..] == "Metrics"
    ensures StructName(a) == StructName(b) ==> a == b
  {
    if StructName(a) == StructName(b) {
      assert |a| == |b|;
      assert a == StructName(a)[..|a|] && b == StructName(b)[..|b|];
    }
  }

  /** The interface of the generator's test gets the file `example_metrics.go`
      under the default `-s` suffix. */
  lemma ExampleFileName()
    ensures OutputBaseName("Example", "_metrics.go") == "example_metrics.go"
  {
    CaseConv.SnakeSingleWordExample();
  }

  /** File names are not unique per interface: `HTTPServer` and `HttpServer`
      in one package get the same output file, and the second overwrites the
      first. */
  lemma OutputNamesCollide(suffix: string)
    ensures OutputBaseName("HTTPServer", suffix) == OutputBaseName("HttpServer", suffix)
  {
    CaseConv.SnakeAcronymExample();
    var s := "HttpServer";
    assert CaseConv.SnakePrefix(s, 1) == "h";
    assert CaseConv.SnakePrefix(s, 2) == "ht";
    assert CaseConv.SnakePrefix(s, 3) == "htt";
    assert CaseConv.SnakePrefix(s, 4) == "http";
    assert CaseConv.SnakePrefix(s, 5) == "http_s";
    assert CaseConv.SnakePrefix(s, 6) == "http_se";
    assert CaseConv.SnakePrefix(s, 7) == "http_ser";
    assert CaseConv.SnakePrefix(s, 8) == "http_serv";
    assert CaseConv.SnakePrefix(s, 9) == "http_serve";
    assert CaseConv.SnakePrefix(s, 10) == "http_server";
  }

  // ---------------------------------------------------------------------
  // Template functions.

  /** `FuncReturn`: the prefix of the forwarding call. */
  function ReturnPrefix(resultCount: nat): (r: string)
    ensures r != [] <==> resultCount > 0
    ensures r != [] ==> r == "return "
  {
    if resultCount == 0 then "" else "return "
  }

  function Passes(ps: seq<Param>): (r: seq<string>)
    ensures |r| == |ps| && forall k :: 0 <= k < |ps| ==> r[k] == ps[k].pass
  {
    seq(|ps|, k requires 0 <= k < |ps| => ps[k].pass)
  }

  function FieldLines(ps: seq<Param>): (r: seq<string>)
    ensures |r| == |ps| && forall k :: 0 <= k < |ps| ==> r[k] == ps[k].name + " " + ps[k].typ
  {
    seq(|ps|, k requires 0 <= k < |ps| => ps[k].name + " " + ps[k].typ)
  }

  /** `FuncCall`: collect each parameter's `Pass()` text, join with `", "`. */
  method FuncCall(sig: Signature) returns (args: string)
    ensures args == Join(Passes(sig.params), ", ")
  {
    var names: seq<string> := [];
    var i := 0;
    while i < |sig.params|
      invariant 0 <= i <= |sig.params|
      invariant names == Passes(sig.params[..i])
    {
      names := names + [sig.params[i].pass];
      i := i + 1;
    }
    assert sig.params[..i] == sig.params;
    args := Join(names, ", ");
  }

  /** `paramsToStructFields`: one `name type` line per parameter. */
  method ParamsToStructFields(ps: seq<Param>) returns (fields: string)
    ensures fields == Join(FieldLines(ps), "\n")
  {
    var lines: seq<string> := [];
    var i := 0;
    while i < |ps|
      invariant 0 <= i <= |ps|
      invariant lines == FieldLines(ps[..i])
    {
      lines := lines + [ps[i].name + " " + ps[i].typ];
      i := i + 1;
    }
    assert ps[..i] == ps;
    fields := Join(lines, "\n");
  }

  /** The call passes exactly one argument per parameter: with pass texts free
      of `,`, the argument list has one comma fewer than there are parameters,
      and none at all for a method without parameters. */
  lemma CallArity(ps: seq<Param>)
    requires forall k :: 0 <= k < |ps| ==> ',' !in ps[k].pass
    ensures ps == [] ==> Join(Passes(ps), ", ") == ""
    ensures ps != [] ==> Count(Join(Passes(ps), ", "), ',') == |ps| - 1
  {
    if ps != [] {
      assert Count(", ", ',') == 1 by {
        assert ", "[1..] == " " && " "[1..] == "";
      }
      JoinCount(Passes(ps), ", ", ',');
    }
  }

  /** The struct fields come back from their text: splitting on newlines gives
      one `name type` line per parameter. */
  lemma StructFieldsRoundTrip(ps: seq<Param>)
    requires ps != []
    requires forall k :: 0 <= k < |ps| ==> '\n' !in ps[k].name + " " + ps[k].typ
    ensures Split(Join(FieldLines(ps), "\n"), '\n') == FieldLines(ps)
  {
    SplitJoin(FieldLines(ps), '\n');
  }

  // ---------------------------------------------------------------------
  // Sorted iteration over the method map.

  predicate StrictlySorted(xs: seq<string>)
  {
    forall i, j :: 0 <= i < j < |xs| ==> StrLess(xs[i], xs[j])
  }

  predicate IsLeast(x: string, ks: set<string>)
  {
    x in ks && forall y :: y in ks && y != x ==> StrLess(x, y)
  }

  lemma LeastExists(ks: set<string>)
    requires ks != {}
    ensures exists x :: IsLeast(x, ks)
    decreases ks
  {
    var y :| y in ks;
    if ks - {y} == {} {
      assert ks == {y};
      assert IsLeast(y, ks);
    } else {
      LeastExists(ks - {y});
      var m :| IsLeast(m, ks - {y});
      StrLessTotal(m, y);
      if StrLess(m, y) {
        assert IsLeast(m, ks);
      } else {
        forall z | z in ks && z != y
          ensures StrLess(y, z)
        {
          if z != m {
            StrLessTransitive(y, m, z);
          }
        }
        assert IsLeast(y, ks);
      }
    }
  }

  lemma LeastUnique(ks: set<string>)
    ensures forall x, y :: IsLeast(x, ks) && IsLeast(y, ks) ==> x == y
  {
    forall x, y | IsLeast(x, ks) && IsLeast(y, ks)
      ensures x == y
    {
      if x != y {
        StrLessAsymmetric(x, y);
      }
    }
  }

  /** The keys of a map in the order `text/template` ranges over them. */
  function SortedKeys(ks: set<string>): (r: seq<string>)
    ensures StrictlySorted(r)
    ensures |r| == |ks|
    ensures forall x :: x in r <==> x in ks
    decreases ks
  {
    if ks == {} then []
    else
      LeastExists(ks);
      LeastUnique(ks);
      var m :| IsLeast(m, ks);
      [m] + SortedKeys(ks - {m})
  }

  /** The head of a strictly sorted listing of `ks` is the least key. */
  lemma SortedHeadIsLeast(xs: seq<string>, ks: set<string>)
    requires StrictlySorted(xs) && xs != []
    requires forall x :: x in xs <==> x in ks
    ensures IsLeast(xs[0], ks)
  {
    forall y | y in ks && y != xs[0]
      ensures StrLess(xs[0], y)
    {
      var i :| 0 <= i < |xs| && xs[i] == y;
    }
  }

  /** The tail of a strictly sorted listing of `ks` lists `ks` without its head. */
  lemma SortedTail(xs: seq<string>, ks: set<string>)
    requires StrictlySorted(xs) && xs != []
    requires forall x :: x in xs <==> x in ks
    ensures StrictlySorted(xs[1..])
    ensures forall x :: x in xs[1..] <==> x in ks - {xs[0]}
  {
    forall x
      ensures x in xs[1..] <==> x in ks - {xs[0]}
    {
      if x in xs[1..] {
        var i :| 1 <= i < |xs| && xs[i] == x;
        StrLessIrreflexive(x);
      }
      if x in ks - {xs[0]} {
        var i :| 0 <= i < |xs| && xs[i] == x;
      }
    }
  }

  lemma SortedKeysUnfold(ks: set<string>)
    requires ks != {}
    ensures |SortedKeys(ks)| > 0
    ensures SortedKeys(ks) == [SortedKeys(ks)[0]] + SortedKeys(ks - {SortedKeys(ks)[0]})
  {
  }

  /** The element set of a strictly sorted sequence determines it: any strictly
      sorted listing of the keys is the one the template uses. */
  lemma SortedHeadsAgree(xs: seq<string>, ks: set<string>)
    requires StrictlySorted(xs) && xs != []
    requires forall x :: x in xs <==> x in ks
    ensures |SortedKeys(ks)| > 0 && xs[0] == SortedKeys(ks)[0]
  {
    assert xs[0] in ks;
    SortedHeadIsLeast(xs, ks);
    SortedHeadIsLeast(SortedKeys(ks), ks);
    LeastUnique(ks);
  }

  lemma {:induction false} SortedListingUnique(xs: seq<string>, ks: set<string>)
    requires StrictlySorted(xs)
    requires forall x :: x in xs <==> x in ks
    ensures xs == SortedKeys(ks)
    decreases |xs|
  {
    if xs != [] {
      SortedHeadsAgree(xs, ks);
      var m := xs[0];
      SortedTail(xs, ks);
      SortedListingUnique(xs[1..], ks - {m});
      SortedKeysUnfold(ks);
      assert xs == [m] + xs[1..];
    }
  }

  // ---------------------------------------------------------------------
  // The decorator model and its text.

  /** What the template needs of one method: its name, its `signature` text,
      the `Pass()` text of each parameter and the number of results. */
  datatype ForwardedMethod = ForwardedMethod(name: string, signature: string, passes: seq<string>, resultCount: nat)

  datatype DecoratorModel = DecoratorModel(structName: string, interfaceName: string, methods: seq<ForwardedMethod>)

  function Forwarded(name: string, sig: Signature): ForwardedMethod
  {
    ForwardedMethod(name, sig.text, Passes(sig.params), |sig.results|)
  }

  function Names(fms: seq<ForwardedMethod>): (r: seq<string>)
    ensures |r| == |fms| && forall i :: 0 <= i < |fms| ==> r[i] == fms[i].name
  {
    seq(|fms|, i requires 0 <= i < |fms| => fms[i].name)
  }

  /** The decorator model for one interface: its methods are listed in the
      template's order, each forwarded from its own signature. */
  function BuildModel(opts: GenerateOptions, methods: map<string, Signature>): (d: DecoratorModel)
    ensures d.structName == opts.structName && d.interfaceName == opts.interfaceName
    ensures Names(d.methods) == SortedKeys(methods.Keys)
    ensures forall i :: 0 <= i < |d.methods| ==>
              d.methods[i].name in methods && d.methods[i] == Forwarded(d.methods[i].name, methods[d.methods[i].name])
  {
    var keys := SortedKeys(methods.Keys);
    var d := DecoratorModel(opts.structName, opts.interfaceName,
                            seq(|keys|, i requires 0 <= i < |keys| => Forwarded(keys[i], methods[keys[i]])));
    assert Names(d.methods) == keys;
    d
  }

  /** One forwarding method per interface method, in strictly ascending name
      order. */
  lemma ModelCoversMethods(opts: GenerateOptions, methods: map<string, Signature>)
    ensures var d := BuildModel(opts, methods);
            && |d.methods| == |methods|
            && (forall i, j :: 0 <= i < j < |d.methods| ==> StrLess(d.methods[i].name, d.methods[j].name))
            && (forall x :: x in methods <==> x in Names(d.methods))
  {
    var d := BuildModel(opts, methods);
    assert Names(d.methods) == SortedKeys(methods.Keys);
    forall i, j | 0 <= i < j < |d.methods|
      ensures StrLess(d.methods[i].name, d.methods[j].name)
    {
      assert Names(d.methods)[i] == d.methods[i].name && Names(d.methods)[j] == d.methods[j].name;
    }
  }

  /** The forwarding statement: `return ` only when there are results. */
  function ForwardingCall(fm: ForwardedMethod): string
  {
    ReturnPrefix(fm.resultCount) + " m.next." + fm.name + "(" + Join(fm.passes, ", ") + ")"
  }

  /** The header of a forwarding method: a method of the decorator with the
      interface method's name and signature. */
  function MethodDecl(structName: string, name: string, signature: string): string
  {
    "func (m *" + structName + ") " + name + signature + " {"
  }

  /** The deferred latency measurement, labelled with the method name. */
  function ObserveCall(name: string): string
  {
    "defer m.observe(\"" + name + "\", time.Now())"
  }

  /** One iteration of the template's `range`. */
  function MethodText(structName: string, fm: ForwardedMethod): string
  {
    "\n\t" + MethodDecl(structName, fm.name, fm.signature) + "\n\t\t" + ObserveCall(fm.name)
    + "\n\n\t\t" + ForwardingCall(fm) + "\n\t}\n"
  }

  /** The blocks the template's `range` writes, one per method, in order. */
  function Blocks(structName: string, fms: seq<ForwardedMethod>): (r: seq<string>)
    ensures |r| == |fms|
  {
    seq(|fms|, i requires 0 <= i < |fms| => MethodText(structName, fms[i]))
  }

  function MethodsText(structName: string, fms: seq<ForwardedMethod>): string
  {
    Concat(Blocks(structName, fms))
  }

  /** The template text before the `range`: the struct and its two constructors. */
  function HeadText(structName: string, interfaceName: string): string
  {
    "\ntype " + structName + " struct {\n\tnext             " + interfaceName
    + "\n\tsummary          *prometheus.SummaryVec\n\tinstanceName     string\n}\n\nfunc New" + structName
    + "Summary(metricName string) *prometheus.SummaryVec {\n\tsv := prometheus.NewSummaryVec(\n\t\tprometheus.SummaryOpts{\n\t\t\tName: metricName,\n\t\t\tHelp: metricName,\n\t\t},\n\t\t[]string{\"instance_name\", \"method\"},\n\t)\n\n\tprometheus.MustRegister(sv)\n\n\treturn sv\n}\n\nfunc New"
    + structName + "WithSummary(next " + interfaceName + ", instanceName string, sv *prometheus.SummaryVec) *"
    + structName + " {\n\treturn &" + structName
    + " {\n\t\tnext:     next,\n\t\tsummary:  sv,\n\t\tinstanceName:     instanceName,\n\t}\n}\n\n"
  }

  /** The template text after the `range`: the `observe` helper. */
  function TailText(structName: string): string
  {
    "\n\nfunc (m *" + structName
    + ") observe(method string, startedAt time.Time) {\n\tduration := time.Since(startedAt)\n\tm.summary.WithLabelValues(m.instanceName, method).Observe(duration.Seconds())\n}\n"
  }

  function RenderDecorator(d: DecoratorModel): string
  {
    HeadText(d.structName, d.interfaceName) + MethodsText(d.structName, d.methods) + TailText(d.structName)
  }

  // ---------------------------------------------------------------------
  // generate

  datatype GenerateError = EmptyInterface(interfaceName: string) {
    function Message(): string
    {
      "empty interface: " + interfaceName
    }
  }

  /** The file `generate` writes: the output file is replaced by this text. */
  datatype GeneratedFile = GeneratedFile(path: string, text: string)

  /** `generate`: an interface without methods is rejected before the template
      runs and before the output file is removed or written. */
  function Generate(opts: GenerateOptions, methods: map<string, Signature>): Result<GeneratedFile, GenerateError>
  {
    if |methods| == 0 then Failure(EmptyInterface(opts.interfaceName))
    else Success(GeneratedFile(opts.outputFileName, RenderDecorator(BuildModel(opts, methods))))
  }

  /** The forwarding statement starts with `return ` exactly when the method
      has results, then calls the method of the same name on the wrapped
      implementation, passing the parameters' `Pass()` texts in order. */
  lemma ForwardingShape(name: string, sig: Signature)
    ensures var call := ForwardingCall(Forwarded(name, sig));
            var p := if |sig.results| > 0 then 7 else 0;
            && (|sig.results| > 0 <==> |call| >= 7 && call[..7] == "return ")
            && |call| == p + 9 + |name| + |Join(Passes(sig.params), ", ")| + 1
            && call[p..p + 9 + |name|] == " m.next." + name + "("
            && call[|call| - |Join(Passes(sig.params), ", ")| - 2..]
                 == "(" + Join(Passes(sig.params), ", ") + ")"
  {
    var call := ForwardingCall(Forwarded(name, sig));
    var args := Join(Passes(sig.params), ", ");
    var target := " m.next." + name + "(";
    if |sig.results| == 0 {
      assert call[..7] == " m.next";
    } else {
      assert call[..7] == "return ";
    }
    var pre, head, tail := ReturnPrefix(|sig.results|), " m.next." + name, "(" + args + ")";
    assert call == pre + target + (args + ")");
    assert call[|pre|..|pre| + |target|] == target;
    assert call == (pre + head) + tail;
    assert call[|pre + head|..] == tail;
  }

  /** `generate` fails exactly for an interface without methods. */
  lemma EmptyInterfaceRejected(opts: GenerateOptions, methods: map<string, Signature>)
    ensures Generate(opts, methods).Failure? <==> methods == map[]
  {
    if methods != map[] {
      var x :| x in methods;
      assert x in methods.Keys;
    }
  }

  /** The error names the interface: `empty interface: <name>`. */
  lemma EmptyInterfaceMessage(opts: GenerateOptions)
    ensures Generate(opts, map[]).Failure?
    ensures Generate(opts, map[]).error.Message() == "empty interface: " + opts.interfaceName
  {
  }

  /** Rendering is stable: listing an interface's methods in another order
      yields the same output. */
  lemma GenerateIgnoresMethodOrder(opts: GenerateOptions, ms: seq<Method>, ms': seq<Method>)
    requires UniqueNames(ms) && UniqueNames(ms')
    requires multiset(ms) == multiset(ms')
    ensures Generate(opts, MethodMap(ms)) == Generate(opts, MethodMap(ms'))
  {
    MethodMapReorder(ms, ms');
  }

  // ---------------------------------------------------------------------
  // Where things stand in the generated text.

  /** `x` stands in `t` at position `i`, checked one character at a time. */
  predicate Occurs(x: string, t: string, i: nat)
    decreases |x|
  {
    i + |x| <= |t| && (x == [] || (t[i] == x[0] && Occurs(x[1..], t, i + 1)))
  }

  /** `Occurs` means that the slice of `t` of length `|x|` at `i` is `x`. */
  lemma {:induction false} OccursSlice(x: string, t: string, i: nat)
    ensures Occurs(x, t, i) <==> i + |x| <= |t| && t[i..i + |x|] == x
    decreases |x|
  {
    if x != [] && i + |x| <= |t| {
      OccursSlice(x[1..], t, i + 1);
      assert t[i..i + |x|] == [t[i]] + t[i + 1..i + 1 + |x[1..]|];
      assert x == [x[0]] + x[1..];
    }
  }

  lemma OccursIn(a: string, x: string, b: string)
    ensures Occurs(x, a + x + b, |a|)
  {
    assert (a + x + b)[|a|..|a| + |x|] == x;
    OccursSlice(x, a + x + b, |a|);
  }

  lemma PartsOccur(t: string, a: string, x: string, b: string, y: string, c: string, z: string, e: string)
    requires t == a + x + b + y + c + z + e
    ensures Occurs(x, t, |a|)
    ensures Occurs(y, t, |a| + |x| + |b|)
    ensures Occurs(z, t, |a| + |x| + |b| + |y| + |c|)
  {
    OccursIn(a, x, b + y + c + z + e);
    assert t == a + x + (b + y + c + z + e);
    OccursIn(a + x + b, y, c + z + e);
    assert t == (a + x + b) + y + (c + z + e);
    OccursIn(a + x + b + y + c, z, e);
    assert t == (a + x + b + y + c) + z + e;
  }

  /** A method block declares the decorator's method, then defers the latency
      measurement for that name, then forwards the call. */
  lemma MethodBlockShape(structName: string, fm: ForwardedMethod)
    ensures var decl := MethodDecl(structName, fm.name, fm.signature);
            var block := MethodText(structName, fm);
            && Occurs(decl, block, 2)
            && Occurs(ObserveCall(fm.name), block, 2 + |decl| + 3)
            && Occurs(ForwardingCall(fm), block, 2 + |decl| + 3 + |ObserveCall(fm.name)| + 4)
  {
    PartsOccur(MethodText(structName, fm), "\n\t", MethodDecl(structName, fm.name, fm.signature), "\n\t\t",
               ObserveCall(fm.name), "\n\n\t\t", ForwardingCall(fm), "\n\t}\n");
  }

  /** The `range` output is the blocks of the earlier methods, then this
      method's block, then the blocks of the later ones. */
  lemma MethodsTextSplit(structName: string, fms: seq<ForwardedMethod>, k: nat)
    requires k < |fms|
    ensures MethodsText(structName, fms)
            == MethodsText(structName, fms[..k]) + MethodText(structName, fms[k]) + MethodsText(structName, fms[k + 1..])
  {
    var bs := Blocks(structName, fms);
    var before, after := Blocks(structName, fms[..k]), Blocks(structName, fms[k + 1..]);
    var here := MethodText(structName, fms[k]);
    assert bs == before + [here] + after;
    ConcatAppend(before + [here], after);
    ConcatAppend(before, [here]);
    assert Concat([here]) == here by {
      assert [here][..0] == [];
    }
  }

  lemma RegroupText(h: string, m: string, a: string, b: string, c: string, t: string)
    requires m == a + b + c
    ensures h + m + t == h + a + b + c + t
  {
  }

  /** The decorator text is the head, the blocks of the methods before the k-th,
      the k-th method's block, the blocks after it and the tail. */
  lemma RenderSplit(d: DecoratorModel, k: nat)
    requires k < |d.methods|
    ensures RenderDecorator(d)
            == HeadText(d.structName, d.interfaceName)
               + MethodsText(d.structName, d.methods[..k])
               + MethodText(d.structName, d.methods[k])
               + MethodsText(d.structName, d.methods[k + 1..])
               + TailText(d.structName)
  {
    MethodsTextSplit(d.structName, d.methods, k);
    RegroupText(HeadText(d.structName, d.interfaceName), MethodsText(d.structName, d.methods),
                MethodsText(d.structName, d.methods[..k]), MethodText(d.structName, d.methods[k]),
                MethodsText(d.structName, d.methods[k + 1..]), TailText(d.structName));
  }

  /** `generate` on a non-empty interface writes the rendered decorator to the
      output file. */
  lemma GenerateWrites(opts: GenerateOptions, methods: map<string, Signature>)
    requires |methods| > 0
    ensures Generate(opts, methods) == Success(GeneratedFile(opts.outputFileName, RenderDecorator(BuildModel(opts, methods))))
  {
  }

  /** The k-th block of the model is the k-th least method name with its own
      signature. */
  lemma ModelEntry(opts: GenerateOptions, methods: map<string, Signature>, k: nat)
    requires k < |methods|
    ensures |SortedKeys(methods.Keys)| == |BuildModel(opts, methods).methods| == |methods|
    ensures SortedKeys(methods.Keys)[k] in methods
    ensures BuildModel(opts, methods).methods[k]
            == Forwarded(SortedKeys(methods.Keys)[k], methods[SortedKeys(methods.Keys)[k]])
  {
    var d := BuildModel(opts, methods);
    ModelCoversMethods(opts, methods);
    assert |Names(d.methods)| == |d.methods|;
    assert SortedKeys(methods.Keys)[k] == Names(d.methods)[k] == d.methods[k].name;
  }

  /** The decorator text is the head, then one block per method in range order
      with the k-th method's block after the blocks of the methods before it,
      then the `observe` helper. */
  lemma DecoratorText(opts: GenerateOptions, methods: map<string, Signature>, k: nat)
    requires k < |BuildModel(opts, methods).methods|
    ensures var d := BuildModel(opts, methods);
            RenderDecorator(d)
            == HeadText(d.structName, d.interfaceName)
               + MethodsText(d.structName, d.methods[..k])
               + MethodText(d.structName, d.methods[k])
               + MethodsText(d.structName, d.methods[k + 1..])
               + TailText(d.structName)
  {
    RenderSplit(BuildModel(opts, methods), k);
  }

  /** In the `range` output, the k-th method's block stands right after the
      blocks of the methods before it. */
  lemma RangeBlockAt(structName: string, fms: seq<ForwardedMethod>, k: nat)
    requires k < |fms|
    ensures Occurs(MethodText(structName, fms[k]), MethodsText(structName, fms), |MethodsText(structName, fms[..k])|)
  {
    MethodsTextSplit(structName, fms, k);
    OccursIn(MethodsText(structName, fms[..k]), MethodText(structName, fms[k]), MethodsText(structName, fms[k + 1..]));
  }

  lemma OccursShift(x: string, m: string, i: nat, p: string, q: string)
    requires Occurs(x, m, i)
    ensures Occurs(x, p + m + q, |p| + i)
  {
    OccursSlice(x, m, i);
    var u := p + m + q;
    assert u[|p|..|p| + |m|] == m;
    assert u[|p| + i..|p| + i + |x|] == m[i..i + |x|];
    OccursSlice(x, u, |p| + i);
  }

  /** Positions of three parts of a block that stands between `p` and `q`. */
  lemma BlockPartsAt(u: string, p: string, a: string, x: string, b: string, y: string, c: string, z: string,
                     e: string, q: string, i: nat, j: nat, l: nat)
    requires u == p + (a + x + b + y + c + z + e) + q
    requires i == |p| + |a| && j == i + |x| + |b| && l == j + |y| + |c|
    ensures Occurs(x, u, i) && Occurs(y, u, j) && Occurs(z, u, l)
  {
    var m := a + x + b + y + c + z + e;
    PartsOccur(m, a, x, b, y, c, z, e);
    OccursShift(x, m, |a|, p, q);
    OccursShift(y, m, |a| + |x| + |b|, p, q);
    OccursShift(z, m, |a| + |x| + |b| + |y| + |c|, p, q);
  }

  /** Where the k-th block starts in the `range` output. */
  function BlockStart(structName: string, fms: seq<ForwardedMethod>, k: nat): nat
    requires k <= |fms|
  {
    |MethodsText(structName, fms[..k])|
  }

  /** Where the k-th block's `defer` statement starts in the `range` output. */
  function ObserveAt(structName: string, fms: seq<ForwardedMethod>, k: nat): nat
    requires k < |fms|
  {
    BlockStart(structName, fms, k) + 2 + |MethodDecl(structName, fms[k].name, fms[k].signature)| + 3
  }

  /** Where the k-th block's forwarding call starts in the `range` output. */
  function CallAt(structName: string, fms: seq<ForwardedMethod>, k: nat): nat
    requires k < |fms|
  {
    ObserveAt(structName, fms, k) + |ObserveCall(fms[k].name)| + 4
  }

  /** In the `range` output, the k-th block declares the k-th method, then
      defers `m.observe` labelled with its name, then forwards the call. */
  lemma RangeMethodShape(structName: string, fms: seq<ForwardedMethod>, k: nat)
    requires k < |fms|
    ensures Occurs(MethodDecl(structName, fms[k].name, fms[k].signature), MethodsText(structName, fms),
                   BlockStart(structName, fms, k) + 2)
    ensures BlockStart(structName, fms, k) + 2 < ObserveAt(structName, fms, k) < CallAt(structName, fms, k)
    ensures Occurs(ObserveCall(fms[k].name), MethodsText(structName, fms), ObserveAt(structName, fms, k))
    ensures Occurs(ForwardingCall(fms[k]), MethodsText(structName, fms), CallAt(structName, fms, k))
  {
    MethodsTextSplit(structName, fms, k);
    BlockPartsAt(MethodsText(structName, fms), MethodsText(structName, fms[..k]),
                 "\n\t", MethodDecl(structName, fms[k].name, fms[k].signature), "\n\t\t",
                 ObserveCall(fms[k].name), "\n\n\t\t", ForwardingCall(fms[k]), "\n\t}\n",
                 MethodsText(structName, fms[k + 1..]),
                 BlockStart(structName, fms, k) + 2, ObserveAt(structName, fms, k), CallAt(structName, fms, k));
  }

  /** In the `range` output of the decorator, the block of the k-th least
      method name declares that method on the decorator with the method's own
      signature, then defers `m.observe` labelled with that name, then forwards
      the call to the same-named method of the wrapped implementation. */
  lemma DecoratorMethodObserved(opts: GenerateOptions, methods: map<string, Signature>, k: nat)
    requires k < |methods|
    ensures |SortedKeys(methods.Keys)| == |BuildModel(opts, methods).methods| == |methods|
    ensures SortedKeys(methods.Keys)[k] in methods
    ensures var name := SortedKeys(methods.Keys)[k];
            var fms := BuildModel(opts, methods).methods;
            && Occurs(MethodDecl(opts.structName, name, methods[name].text), MethodsText(opts.structName, fms),
                      BlockStart(opts.structName, fms, k) + 2)
            && Occurs(ObserveCall(name), MethodsText(opts.structName, fms), ObserveAt(opts.structName, fms, k))
            && Occurs(ForwardingCall(Forwarded(name, methods[name])), MethodsText(opts.structName, fms),
                      CallAt(opts.structName, fms, k))
  {
    ModelEntry(opts, methods, k);
    RangeMethodShape(opts.structName, BuildModel(opts, methods).methods, k);
  }

  function ExampleMethods(): map<string, Signature>
  {
    map["Another" := Signature("(p string)", [Param("p", "string", "p")], []),
        "Do" := Signature("(p string, p1 string) (r error)",
                          [Param("p", "string", "p"), Param("p1", "string", "p1")], [Param("r", "error", "r")])]
  }

  lemma ExampleModel(opts: GenerateOptions)
    ensures BuildModel(opts, ExampleMethods()).methods
              == [ForwardedMethod("Another", "(p string)", ["p"], 0),
                  ForwardedMethod("Do", "(p string, p1 string) (r error)", ["p", "p1"], 1)]
  {
    var methods := ExampleMethods();
    assert StrLess("Another", "Do");
    SortedListingUnique(["Another", "Do"], methods.Keys);
    var d := BuildModel(opts, methods);
    assert Names(d.methods) == ["Another", "Do"];
    assert |d.methods| == 2;
    assert Passes(methods["Another"].params) == ["p"];
    assert Passes(methods["Do"].params) == ["p", "p1"];
  }

  /** The forwarding statements of the two example methods. */
  lemma ExampleForwardingCalls()
    ensures ForwardingCall(ForwardedMethod("Another", "(p string)", ["p"], 0)) == " m.next.Another(p)"
    ensures ForwardingCall(ForwardedMethod("Do", "(p string, p1 string) (r error)", ["p", "p1"], 1))
            == "return  m.next.Do(p, p1)"
  {
    assert Join(["p", "p1"], ", ") == "p, p1";
  }

  /** The generator's own test interface `Example`, with `Another(p string)`
      and `Do(p string, p1 string) error`: the decorator forwards `Another`
      first and without `return`, then `Do` with `return`, each passing its
      parameters through. */
  lemma ExampleDecorator(opts: GenerateOptions)
    ensures var fms := BuildModel(opts, ExampleMethods()).methods;
            && |fms| == 2
            && fms[0].name == "Another" && ForwardingCall(fms[0]) == " m.next.Another(p)"
            && fms[1].name == "Do" && ForwardingCall(fms[1]) == "return  m.next.Do(p, p1)"
  {
    ExampleModel(opts);
    ExampleForwardingCalls();
  }
}
