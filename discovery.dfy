/** Interface discovery: `findInterfaces`, `visitor.Visit` and
    `getInterfaceMethodsSignatures`. Syntax trees and resolved types come from
    the Go loader and type checker; here they are given values in which every
    type expression is already resolved. */
module Discovery {
  import opened Wrappers

  /** A parameter or result as the generator library presents it: its name, its
      type as text, and `Pass()`, the text that forwards it in a call. */
  datatype Param = Param(name: string, typ: string, pass: string)

  /** A method signature. `text` is what the template's `signature` function
      prints for it; only the parameter and result lists are looked into. */
  datatype Signature = Signature(text: string, params: seq<Param>, results: seq<Param>)

  datatype Method = Method(name: string, sig: Signature)

  /** The resolved type of a type expression: a named type with its underlying
      type, an interface with its (embedding-flattened) method list, or any
      other type. */
  datatype Type = Named(underlying: Type) | Interface(methods: seq<Method>) | NonInterface

  /** Syntax nodes: function declarations (with the nodes of their bodies), type
      specs (name and resolved type), and every other node with its children
      (files, declaration groups, ...). */
  datatype Node = FuncDecl(body: seq<Node>) | TypeSpec(name: string, typ: Type) | Container(children: seq<Node>)

  /** `interfaceInfo`. The visitor fills in only the name and the methods, so
      the package of a discovered interface is always empty. */
  datatype InterfaceInfo = InterfaceInfo(package: string, name: string, methods: map<string, Signature>)

  datatype FindError = UnableToLoadPackage(package: string) {
    function Message(): string
    {
      "unable to load package: " + package
    }
  }

  // ---------------------------------------------------------------------
  // Method sets.

  /** The map `getInterfaceMethodsSignatures` builds: method name to signature,
      a later method of the same name replacing an earlier one. */
  function MethodMap(ms: seq<Method>): map<string, Signature>
  {
    if ms == [] then map[]
    else MethodMap(ms[..|ms| - 1])[ms[|ms| - 1].name := ms[|ms| - 1].sig]
  }

  predicate UniqueNames(ms: seq<Method>)
  {
    forall i, j :: 0 <= i < j < |ms| ==> ms[i].name != ms[j].name
  }

  /** Some method of `ms` is called `x`. */
  predicate Declares(ms: seq<Method>, x: string)
  {
    exists k :: 0 <= k < |ms| && ms[k].name == x
  }

  /** The keys of the method map are exactly the interface's method names. */
  lemma {:induction false} MethodMapKeys(ms: seq<Method>)
    ensures forall x :: x in MethodMap(ms) <==> Declares(ms, x)
  {
    if ms != [] {
      var n := |ms| - 1;
      var init := ms[..n];
      MethodMapKeys(init);
      forall x
        ensures x in MethodMap(ms) <==> Declares(ms, x)
      {
        if Declares(ms, x) && x != ms[n].name {
          var k :| 0 <= k < |ms| && ms[k].name == x;
          assert init[k].name == x;
        }
        if Declares(init, x) {
          var k :| 0 <= k < n && init[k].name == x;
          assert ms[k].name == x;
        }
      }
    }
  }

  /** With unique names (as go/types guarantees) each method name maps to that
      method's own signature, and there is one entry per method. */
  lemma {:induction false} MethodMapValues(ms: seq<Method>)
    requires UniqueNames(ms)
    ensures forall k :: 0 <= k < |ms| ==> ms[k].name in MethodMap(ms) && MethodMap(ms)[ms[k].name] == ms[k].sig
    ensures |MethodMap(ms)| == |ms|
  {
    if ms != [] {
      var n := |ms| - 1;
      var init := ms[..n];
      assert UniqueNames(init);
      MethodMapValues(init);
      MethodMapKeys(init);
      forall k | 0 <= k < n
        ensures MethodMap(ms)[ms[k].name] == ms[k].sig
      {
        assert init[k] == ms[k];
      }
    }
  }

  lemma SameEntry(ms: seq<Method>, ms': seq<Method>, x: string)
    requires UniqueNames(ms) && UniqueNames(ms')
    requires multiset(ms) == multiset(ms')
    requires x in MethodMap(ms)
    ensures x in MethodMap(ms') && MethodMap(ms')[x] == MethodMap(ms)[x]
  {
    MethodMapKeys(ms);
    var k :| 0 <= k < |ms| && ms[k].name == x;
    assert ms[k] in multiset(ms');
    var k' :| 0 <= k' < |ms'| && ms'[k'] == ms[k];
    MethodMapValues(ms);
    MethodMapValues(ms');
  }

  /** The method map does not depend on the order in which the type checker
      lists the methods. */
  lemma MethodMapReorder(ms: seq<Method>, ms': seq<Method>)
    requires UniqueNames(ms) && UniqueNames(ms')
    requires multiset(ms) == multiset(ms')
    ensures MethodMap(ms) == MethodMap(ms')
  {
    forall x | x in MethodMap(ms)
      ensures x in MethodMap(ms') && MethodMap(ms')[x] == MethodMap(ms)[x]
    {
      SameEntry(ms, ms', x);
    }
    forall x | x in MethodMap(ms')
      ensures x in MethodMap(ms)
    {
      SameEntry(ms', ms, x);
    }
    assert MethodMap(ms).Keys == MethodMap(ms').Keys;
  }

  /** `getInterfaceMethodsSignatures`: the index loop over the interface's methods. */
  method GetInterfaceMethodsSignatures(ms: seq<Method>) returns (methods: map<string, Signature>)
    ensures methods == MethodMap(ms)
  {
    methods := map[];
    var i := 0;
    while i < |ms|
      invariant 0 <= i <= |ms|
      invariant methods == MethodMap(ms[..i])
    {
      assert ms[..i + 1][..i] == ms[..i];
      methods := methods[ms[i].name := ms[i].sig];
      i := i + 1;
    }
    assert ms[..i] == ms;
  }

  // ---------------------------------------------------------------------
  // The visiting rule.

  /** The type switch of `Visit`: an interface type, or a named type whose
      underlying type is an interface, yields that interface's methods. */
  function InterfaceOf(t: Type): Option<seq<Method>>
  {
    match t
    case Named(u) => if u.Interface? then Some(u.methods) else None
    case Interface(ms) => Some(ms)
    case NonInterface => None
  }

  /** The name filter: the requested name, or any name for `*`. */
  predicate Matches(target: string, name: string)
  {
    name == target || target == "*"
  }

  /** What `Visit` does to the map of discovered interfaces. */
  function VisitEffect(found: map<string, InterfaceInfo>, target: string, node: Node): map<string, InterfaceInfo>
  {
    match node
    case TypeSpec(name, typ) =>
      if InterfaceOf(typ).Some? && Matches(target, name)
      then found[name := InterfaceInfo("", name, MethodMap(InterfaceOf(typ).value))]
      else found
    case _ => found
  }

  /** The type specs that `ast.Walk` reaches with this visitor, in visiting
      order: it descends into every node except function declarations (whose
      bodies are skipped) and type specs (which are handled whole). */
  function Reachable(node: Node): seq<Node>
    decreases node, 1
  {
    match node
    case FuncDecl(_) => []
    case TypeSpec(_, _) => [node]
    case Container(cs) => ReachableAll(cs)
  }

  function ReachableAll(nodes: seq<Node>): seq<Node>
    decreases nodes, 0
  {
    if nodes == [] then []
    else ReachableAll(nodes[..|nodes| - 1]) + Reachable(nodes[|nodes| - 1])
  }

  /** Applies `Visit` to each reached type spec in turn. */
  function Fold(found: map<string, InterfaceInfo>, target: string, specs: seq<Node>): map<string, InterfaceInfo>
  {
    if specs == [] then found
    else VisitEffect(Fold(found, target, specs[..|specs| - 1]), target, specs[|specs| - 1])
  }

  /** The result of walking all files of a package. */
  function Discover(files: seq<Node>, target: string): map<string, InterfaceInfo>
  {
    Fold(map[], target, ReachableAll(files))
  }

  lemma {:induction false} FoldAppend(found: map<string, InterfaceInfo>, target: string, a: seq<Node>, b: seq<Node>)
    ensures Fold(found, target, a + b) == Fold(Fold(found, target, a), target, b)
  {
    if b == [] {
      assert a + b == a;
    } else {
      var n := |b| - 1;
      FoldAppend(found, target, a, b[..n]);
      assert (a + b)[..|a + b| - 1] == a + b[..n];
    }
  }

  /** Visiting `spec` records an interface under `name`. */
  predicate Records(target: string, spec: Node, name: string)
  {
    spec.TypeSpec? && spec.name == name && InterfaceOf(spec.typ).Some? && Matches(target, name)
  }

  /** The entry visiting a recording type spec writes. */
  function InfoOf(spec: Node): InterfaceInfo
    requires spec.TypeSpec? && InterfaceOf(spec.typ).Some?
  {
    InterfaceInfo("", spec.name, MethodMap(InterfaceOf(spec.typ).value))
  }

  /** The index of the last type spec in `specs` that records `name`, or -1. */
  function LastRecording(target: string, specs: seq<Node>, name: string): (r: int)
    ensures -1 <= r < |specs|
    ensures r >= 0 ==> Records(target, specs[r], name)
    ensures forall k :: r < k < |specs| ==> !Records(target, specs[k], name)
  {
    if specs == [] then -1
    else if Records(target, specs[|specs| - 1], name) then |specs| - 1
    else LastRecording(target, specs[..|specs| - 1], name)
  }

  /** A name is discovered exactly when some visited type spec of that name has
      an interface type (directly, or as the underlying type of a named type)
      and the request is that name or `*`; the entry comes from the last such
      spec. */
  lemma {:induction false} FoldCorrect(target: string, specs: seq<Node>)
    ensures forall x :: x in Fold(map[], target, specs) <==> LastRecording(target, specs, x) >= 0
    ensures forall x :: x in Fold(map[], target, specs) ==>
              Fold(map[], target, specs)[x] == InfoOf(specs[LastRecording(target, specs, x)])
  {
    if specs != [] {
      var n := |specs| - 1;
      var init := specs[..n];
      FoldCorrect(target, init);
      forall x
        ensures x in Fold(map[], target, specs) <==> LastRecording(target, specs, x) >= 0
        ensures x in Fold(map[], target, specs) ==>
                  Fold(map[], target, specs)[x] == InfoOf(specs[LastRecording(target, specs, x)])
      {
        if !Records(target, specs[n], x) {
          assert LastRecording(target, specs, x) == LastRecording(target, init, x);
          var l := LastRecording(target, init, x);
          if l >= 0 {
            assert specs[l] == init[l];
          }
        }
      }
    }
  }

  /** The discovery rule for a whole package. */
  lemma DiscoverCorrect(files: seq<Node>, target: string)
    ensures forall x :: x in Discover(files, target) <==> LastRecording(target, ReachableAll(files), x) >= 0
    ensures forall x :: x in Discover(files, target) ==>
              var spec := ReachableAll(files)[LastRecording(target, ReachableAll(files), x)];
              && Discover(files, target)[x] == InfoOf(spec)
              && Discover(files, target)[x].name == x
              && Discover(files, target)[x].methods.Keys == MethodMap(InterfaceOf(spec.typ).value).Keys
  {
    FoldCorrect(target, ReachableAll(files));
  }

  /** With a plain name requested, nothing but that name is discovered; and when
      no visited type spec of that name is an interface, the result is empty:
      no error is raised and nothing gets generated. */
  lemma OnlyRequestedName(files: seq<Node>, target: string)
    requires target != "*"
    ensures Discover(files, target).Keys <= {target}
    ensures (forall k :: 0 <= k < |ReachableAll(files)| ==> !Records(target, ReachableAll(files)[k], target))
            ==> Discover(files, target) == map[]
  {
    DiscoverCorrect(files, target);
  }

  lemma {:induction false} ReachableAllAppend(a: seq<Node>, b: seq<Node>)
    ensures ReachableAll(a + b) == ReachableAll(a) + ReachableAll(b)
  {
    if b == [] {
      assert a + b == a;
    } else {
      var n := |b| - 1;
      ReachableAllAppend(a, b[..n]);
      assert (a + b)[..|a + b| - 1] == a + b[..n];
    }
  }

  /** Type specs inside function bodies are never visited: a function
      declaration, wherever it stands among a file's declarations and whatever
      its body holds, adds nothing to what is discovered. */
  lemma FunctionBodiesSkipped(pre: seq<Node>, cs: seq<Node>, body: seq<Node>, ds: seq<Node>,
                              post: seq<Node>, target: string)
    ensures ReachableAll(cs + [FuncDecl(body)] + ds) == ReachableAll(cs + ds)
    ensures Discover(pre + [Container(cs + [FuncDecl(body)] + ds)] + post, target)
            == Discover(pre + [Container(cs + ds)] + post, target)
  {
    ReachableAllAppend(cs + [FuncDecl(body)], ds);
    ReachableAllAppend(cs, [FuncDecl(body)]);
    ReachableAllAppend(cs, ds);
    assert ReachableAll([FuncDecl(body)]) == [] by {
      assert [FuncDecl(body)][..0] == [];
    }
    var withDecl, without := Container(cs + [FuncDecl(body)] + ds), Container(cs + ds);
    assert Reachable(withDecl) == Reachable(without);
    ReachableAllAppend(pre + [withDecl], post);
    ReachableAllAppend(pre, [withDecl]);
    ReachableAllAppend(pre + [without], post);
    ReachableAllAppend(pre, [without]);
    assert ReachableAll([withDecl]) == Reachable(withDecl) by {
      assert [withDecl][..0] == [];
    }
    assert ReachableAll([without]) == Reachable(without) by {
      assert [without][..0] == [];
    }
  }

  /** Go's `ast.Visitor`: the map of discovered interfaces and the requested name. */
  class Visitor {
    var interfaces: map<string, InterfaceInfo>
    const sourceInterface: string

    constructor (sourceInterface: string)
      ensures this.sourceInterface == sourceInterface && interfaces == map[]
    {
      this.sourceInterface := sourceInterface;
      interfaces := map[];
    }

    /** `visitor.Visit`; `descend` is false where Go returns a nil visitor. */
    method Visit(node: Node) returns (descend: bool)
      modifies this
      ensures descend == node.Container?
      ensures interfaces == VisitEffect(old(interfaces), sourceInterface, node)
    {
      match node {
        case FuncDecl(_) =>
          return false;
        case TypeSpec(name, typ) =>
          var methods: seq<Method>;
          match typ {
            case Named(u) =>
              if !u.Interface? {
                return false;
              }
              methods := u.methods;
            case Interface(ms) =>
              methods := ms;
            case NonInterface =>
              return false;
          }
          if name == sourceInterface || sourceInterface == "*" {
            var sigs := GetInterfaceMethodsSignatures(methods);
            interfaces := interfaces[name := InterfaceInfo("", name, sigs)];
          }
          return false;
        case Container(_) =>
          return true;
      }
    }
  }

  /** `ast.Walk`: visit a node, then its children when the visitor asks for it.
      (The closing `Visit(nil)` of `ast.Walk` matches no case and changes nothing.) */
  method Walk(v: Visitor, node: Node)
    modifies v
    ensures v.interfaces == Fold(old(v.interfaces), v.sourceInterface, Reachable(node))
    decreases node
  {
    var descend := v.Visit(node);
    if descend {
      var cs := node.children;
      var i := 0;
      while i < |cs|
        invariant 0 <= i <= |cs|
        invariant v.interfaces == Fold(old(v.interfaces), v.sourceInterface, ReachableAll(cs[..i]))
      {
        assert cs[..i + 1][..i] == cs[..i];
        FoldAppend(old(v.interfaces), v.sourceInterface, ReachableAll(cs[..i]), Reachable(cs[i]));
        Walk(v, cs[i]);
        i := i + 1;
      }
      assert cs[..i] == cs;
    } else if node.TypeSpec? {
      assert [node][..0] == [];
    }
  }

  /** `findInterfaces`: walk every file of the requested package. */
  method FindInterfaces(packages: map<string, seq<Node>>, sourceInterface: string, sourcePackage: string)
    returns (r: Result<map<string, InterfaceInfo>, FindError>)
    ensures sourcePackage !in packages ==> r == Failure(UnableToLoadPackage(sourcePackage))
    ensures r.Failure? ==> r.error.Message() == "unable to load package: " + sourcePackage
    ensures sourcePackage in packages ==> r == Success(Discover(packages[sourcePackage], sourceInterface))
  {
    var v := new Visitor(sourceInterface);
    if sourcePackage !in packages {
      return Failure(UnableToLoadPackage(sourcePackage));
    }
    var files := packages[sourcePackage];
    var i := 0;
    while i < |files|
      invariant 0 <= i <= |files|
      invariant v.sourceInterface == sourceInterface
      invariant v.interfaces == Discover(files[..i], sourceInterface)
    {
      assert files[..i + 1][..i] == files[..i];
      FoldAppend(map[], sourceInterface, ReachableAll(files[..i]), Reachable(files[i]));
      Walk(v, files[i]);
      i := i + 1;
    }
    assert files[..i] == files;
    return Success(v.interfaces);
  }
}
