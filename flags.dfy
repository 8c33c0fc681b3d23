/** The interface-spec loop of `processFlags`: the `-i` value is split on `,`,
    each spec on `.`; the last chunk names the interface and the rest, joined
    back with `.`, is the package path handed to `getImportPath`. */
module Flags {
  import opened Wrappers
  import opened Strings

  /** A requested interface: where to look, and which name (`*` for all). */
  datatype InterfaceRequest = InterfaceRequest(package: string, name: string)

  datatype FlagError = InvalidInterfaceName(spec: string) {
    /** The text `die` prints for this error. */
    function Message(): string
    {
      "invalid interface name: " + spec
      + "\nname should be in the form <import path>.<interface type>, i.e. io.Reader\n"
    }
  }

  /** One spec. `importPath` stands for `getImportPath`, which turns a path that
      exists on disk into its import path and leaves any other string alone. */
  function ParseSpec(spec: string, importPath: string -> string): Result<InterfaceRequest, FlagError>
  {
    var chunks := Split(spec, '.');
    if |chunks| < 2 then Failure(InvalidInterfaceName(spec))
    else Success(InterfaceRequest(importPath(Join(chunks[..|chunks| - 1], ".")), chunks[|chunks| - 1]))
  }

  /** A spec is rejected exactly when it has no `.`. When it is accepted, the
      name is the text after the last `.`, and the package is `importPath` of
      the text before that `.`. */
  lemma ParseSpecCorrect(spec: string, importPath: string -> string)
    ensures ParseSpec(spec, importPath).Failure? <==> '.' !in spec
    ensures ParseSpec(spec, importPath).Failure? ==>
              ParseSpec(spec, importPath).error == InvalidInterfaceName(spec)
    ensures ParseSpec(spec, importPath).Success? ==>
              var r := ParseSpec(spec, importPath).value;
              && '.' !in r.name
              && |r.name| < |spec|
              && spec == spec[..|spec| - |r.name| - 1] + "." + r.name
              && r.package == importPath(spec[..|spec| - |r.name| - 1])
  {
    var chunks := Split(spec, '.');
    CountZero(spec, '.');
    if |chunks| >= 2 {
      var n := |chunks| - 1;
      var path := Join(chunks[..n], ".");
      JoinSplit(spec, '.');
      JoinSlices(chunks, ".", n);
      assert chunks[n..] == [chunks[n]];
      assert spec == path + "." + chunks[n];
      assert spec[..|spec| - |chunks[n]| - 1] == path;
    }
  }

  /** With `getImportPath` as the identity (no path of that name exists),
      the package, a `.` and the name spell the spec again. */
  lemma ParseSpecRoundTrip(spec: string)
    requires ParseSpec(spec, x => x).Success?
    ensures var r := ParseSpec(spec, x => x).value;
            r.package + "." + r.name == spec
  {
    ParseSpecCorrect(spec, x => x);
  }

  /** The whole `-i` value, as the loop of `processFlags` treats it: the first
      invalid spec aborts everything, otherwise one request per spec. */
  function ParseAll(specs: seq<string>, importPath: string -> string): Result<seq<InterfaceRequest>, FlagError>
  {
    if specs == [] then Success([])
    else
      var rest := ParseAll(specs[..|specs| - 1], importPath);
      if rest.Failure? then rest
      else
        var last := ParseSpec(specs[|specs| - 1], importPath);
        if last.Failure? then Failure(last.error)
        else Success(rest.value + [last.value])
  }

  /** The value is accepted exactly when every spec is, and then holds one
      request per spec, in order. */
  lemma {:induction false} ParseAllAccepts(specs: seq<string>, importPath: string -> string)
    ensures ParseAll(specs, importPath).Success? <==>
              forall k :: 0 <= k < |specs| ==> ParseSpec(specs[k], importPath).Success?
    ensures ParseAll(specs, importPath).Success? ==>
              var reqs := ParseAll(specs, importPath).value;
              && |reqs| == |specs|
              && forall k :: 0 <= k < |specs| ==> ParseSpec(specs[k], importPath) == Success(reqs[k])
  {
    if specs != [] {
      var n := |specs| - 1;
      ParseAllAccepts(specs[..n], importPath);
      assert forall k :: 0 <= k < n ==> specs[..n][k] == specs[k];
    }
  }

  /** A rejection reports the first spec that fails; `k` is its position. */
  lemma {:induction false} RejectedAt(specs: seq<string>, importPath: string -> string) returns (k: nat)
    requires ParseAll(specs, importPath).Failure?
    ensures k < |specs|
    ensures ParseSpec(specs[k], importPath).Failure?
    ensures ParseAll(specs, importPath).error == InvalidInterfaceName(specs[k])
    ensures forall k' :: 0 <= k' < k ==> ParseSpec(specs[k'], importPath).Success?
  {
    var n := |specs| - 1;
    var rest := ParseAll(specs[..n], importPath);
    if rest.Failure? {
      k := RejectedAt(specs[..n], importPath);
      assert forall k' :: 0 <= k' <= k ==> specs[..n][k'] == specs[k'];
    } else {
      ParseAllAccepts(specs[..n], importPath);
      assert forall k' :: 0 <= k' < n ==> specs[..n][k'] == specs[k'];
      ParseSpecCorrect(specs[n], importPath);
      k := n;
    }
  }

  lemma ParseAllCorrect(specs: seq<string>, importPath: string -> string)
    ensures ParseAll(specs, importPath).Success? <==>
              forall k :: 0 <= k < |specs| ==> ParseSpec(specs[k], importPath).Success?
    ensures ParseAll(specs, importPath).Success? ==>
              var reqs := ParseAll(specs, importPath).value;
              && |reqs| == |specs|
              && forall k :: 0 <= k < |specs| ==> ParseSpec(specs[k], importPath) == Success(reqs[k])
    ensures ParseAll(specs, importPath).Failure? ==>
              exists k :: 0 <= k < |specs|
                && ParseSpec(specs[k], importPath).Failure?
                && ParseAll(specs, importPath).error == InvalidInterfaceName(specs[k])
                && forall k' :: 0 <= k' < k ==> ParseSpec(specs[k'], importPath).Success?
  {
    ParseAllAccepts(specs, importPath);
    if ParseAll(specs, importPath).Failure? {
      var k := RejectedAt(specs, importPath);
    }
  }

  /** What `die` prints when the `-i` value is rejected: the first spec with no
      `.`, followed by the hint about the expected form. */
  lemma RejectionMessage(specs: seq<string>, importPath: string -> string)
    requires ParseAll(specs, importPath).Failure?
    ensures exists k :: 0 <= k < |specs| && '.' !in specs[k]
              && ParseAll(specs, importPath).error.Message()
                   == "invalid interface name: " + specs[k]
                      + "\nname should be in the form <import path>.<interface type>, i.e. io.Reader\n"
  {
    var k := RejectedAt(specs, importPath);
    ParseSpecCorrect(specs[k], importPath);
  }

  /** Once a spec has been rejected, later specs do not matter. */
  lemma {:induction false} FailureSticks(a: seq<string>, b: seq<string>, importPath: string -> string)
    requires ParseAll(a, importPath).Failure?
    ensures ParseAll(a + b, importPath) == ParseAll(a, importPath)
  {
    if b == [] {
      assert a + b == a;
    } else {
      var n := |b| - 1;
      FailureSticks(a, b[..n], importPath);
      assert (a + b)[..|a + b| - 1] == a + b[..n];
    }
  }

  /** The loop of `processFlags` over `strings.Split(interfaces, ",")`. */
  method ParseInterfaces(interfaces: string, importPath: string -> string)
    returns (r: Result<seq<InterfaceRequest>, FlagError>)
    ensures r == ParseAll(Split(interfaces, ','), importPath)
  {
    var specs := Split(interfaces, ',');
    var list: seq<InterfaceRequest> := [];
    var i := 0;
    while i < |specs|
      invariant 0 <= i <= |specs|
      invariant ParseAll(specs[..i], importPath) == Success(list)
    {
      assert specs[..i + 1][..i] == specs[..i];
      var chunks := Split(specs[i], '.');
      if |chunks| < 2 {
        FailureSticks(specs[..i + 1], specs[i + 1..], importPath);
        assert specs[..i + 1] + specs[i + 1..] == specs;
        return Failure(InvalidInterfaceName(specs[i]));
      }
      var path := importPath(Join(chunks[..|chunks| - 1], "."));
      list := list + [InterfaceRequest(path, chunks[|chunks| - 1])];
      i := i + 1;
    }
    assert specs[..i] == specs;
    r := Success(list);
  }

  /** Every accepted `-i` value is recovered from its requests: with
      `getImportPath` as the identity, writing each request back as
      `package.name` and joining with `,` gives the original text. */
  lemma ParseAllRoundTrip(interfaces: string)
    requires ParseAll(Split(interfaces, ','), x => x).Success?
    ensures var reqs := ParseAll(Split(interfaces, ','), x => x).value;
            Join(seq(|reqs|, k requires 0 <= k < |reqs| => reqs[k].package + "." + reqs[k].name), ",")
              == interfaces
  {
    var specs := Split(interfaces, ',');
    ParseAllCorrect(specs, x => x);
    var reqs := ParseAll(specs, x => x).value;
    var written := seq(|reqs|, k requires 0 <= k < |reqs| => reqs[k].package + "." + reqs[k].name);
    forall k | 0 <= k < |specs|
      ensures written[k] == specs[k]
    {
      assert ParseSpec(specs[k], x => x) == Success(reqs[k]);
      ParseSpecRoundTrip(specs[k]);
    }
    assert written == specs;
    JoinSplit(interfaces, ',');
  }

  /** The split loop alone would reject an empty `-i` value, even without the
      earlier "missing required parameter" check: it is one empty spec, which
      has no `.`. */
  lemma EmptyInterfacesRejected(importPath: string -> string)
    ensures ParseAll(Split("", ','), importPath) == Failure(InvalidInterfaceName(""))
  {
    assert Split("", ',') == [""];
    assert [""][..0] == [];
  }
}
