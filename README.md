# metricsgen core, modelled in Dafny

metricsgen is a Go source generator. Given an interface, it writes a decorator
type. The decorator forwards every call to a wrapped implementation and records
the call's latency in a Prometheus summary. This project models the decisions
`main.go` makes along the way:

- **Naming transform** (`case_conv.dfy`, module `CaseConv`): `сamelToSnake`
  (the Go name starts with a Cyrillic `с`) uses its `buffer` with `write` and
  `indent`. It is modelled as a `Buffer` class and a one-pass `CamelToSnake`
  method. The method is proved equal to `Snake`, a declarative rule: the output
  is the input lower-cased, with `_` in front of each upper-case letter that is
  not first and that either follows a character that is not upper case, or is
  the last letter of an acronym and is followed by a character that is not
  upper case. So `HTTPServer` becomes `http_server` and `HTTP2` becomes
  `htt_p2`.
- **Interface specs** (`flags.dfy`, module `Flags`): the `-i` loop of
  `processFlags` splits the value on `,`, then splits each spec on `.`.
- **Interface discovery** (`discovery.dfy`, module `Discovery`): this covers
  `findInterfaces`, the `visitor` with its `Visit` rule, `ast.Walk`, and
  `getInterfaceMethodsSignatures`. Syntax nodes arrive with their type
  expressions already resolved.
- **Decorator rendering** (`render.dfy`, module `Render`): this covers struct
  and file naming, the template functions `call`, `return` and
  `toStructFields`, and the empty-interface check of `generate`. It also covers
  the text the template expands to. That text is built from a decorator model
  whose methods come in ascending name order, which is the order `text/template`
  uses when it ranges over a map.
- `strings.dfy` (module `Strings`) models `strings.Split`, `strings.Join` and
  Go's string order. `wrappers.dfy` holds `Result` and `Option`.

Some consequences of the code that a user might not expect:

- A requested interface that is not found is not an error. `findInterfaces`
  returns an empty map, and `main` then generates nothing
  (`Discovery.OnlyRequestedName`).
- Output file names are not unique per interface. `HTTPServer` and
  `HttpServer` both map to `http_server` (`Render.OutputNamesCollide`), so one
  decorator can overwrite another in the same directory.
- The flag help says `-o` may be a destination file name (main.go:281), and
  that the suffix is added "when multiple interfaces are given"
  (main.go:282). Yet `main` never uses the file name: it keeps only the
  directory and names every file `snake(name) + suffix` inside it
  (main.go:103), even for a single interface.
- A discovered interface's `interfaceInfo` has an empty `Package`. The visitor
  sets only the name and the methods (main.go:202-205).

## Model

| member | source | states |
|---|---|---|
| `CaseConv.ToLower` | main.go:408 | upper-case ASCII letters become their lower-case partner (code point + 32); every other character is unchanged; the result is never upper-case |
| `CaseConv.Buffer.constructor` | main.go:394-396 | the buffer starts empty |
| `CaseConv.Buffer.Write` | main.go:377-384 | appends exactly the given character |
| `CaseConv.Buffer.Indent` | main.go:386-390 | appends `_` when something has been written, otherwise changes nothing |
| `CaseConv.CamelToSnake` | main.go:393-426 | the scanner with its pending character `m` and acronym flag `w` produces exactly `Snake(s)`, the declarative separator rule |
| `CaseConv.SnakeShape` | main.go:399-424 | deleting the inserted separators gives the input lower-cased; each inserted separator is `_`, not at position 0, and directly followed by the copy of an upper-case input letter; each copied character is its input character lower-cased; the copies come from input positions 0, 1, …, in order, each exactly once |
| `CaseConv.NoUpperInSnake` | main.go:399-424 | the output contains no upper-case letter |
| `CaseConv.SnakeStart` | main.go:386-390 | a non-empty input's output starts with its first character lower-cased, never with a separator |
| `CaseConv.NoUpperUnchanged` | main.go:409-418 | an input without upper-case letters comes out unchanged |
| `CaseConv.SnakeIdempotent` | main.go:393-426 | applying the transform to its own output changes nothing |
| `CaseConv.SnakeAcronymExample` | main.go:393-426 | `HTTPServer` becomes `http_server` |
| `CaseConv.SnakeWordsExample` | main.go:393-426 | `DoThing` becomes `do_thing` |
| `CaseConv.SnakeAllUpperExample` | main.go:393-426 | `ID` becomes `id` |
| `CaseConv.SnakeSingleWordExample` | main.go:393-426 | `Example` becomes `example` |
| `CaseConv.SnakeDigitExample` | main.go:409-415 | `HTTP2` becomes `htt_p2`: a digit ends the acronym just as a lower-case letter does |
| `Strings.Split` | main.go:307-308 | the number of pieces is the number of separators plus one; no piece contains the separator |
| `Strings.JoinSplit` | main.go:313 | joining the pieces with the separator gives the input back |
| `Strings.SplitJoin` | main.go:141 | splitting a join of separator-free pieces gives the pieces back |
| `Strings.JoinCount` | main.go:353 | a join of pieces free of `c`, using a separator with one `c`, holds one `c` per gap |
| `Strings.StrLessTotal` | main.go:263 | Go's string order is total, which the sorted range needs |
| `Flags.ParseSpecCorrect` | main.go:308-315 | a spec is rejected iff it has no `.`, with `InvalidInterfaceName(spec)`; otherwise the name is the text after the last `.` and contains no `.`, and the package is `getImportPath` of the text before that `.` |
| `Flags.ParseSpecRoundTrip` | main.go:308-315 | with `getImportPath` as the identity, `package + "." + name` equals the spec |
| `Flags.ParseAllAccepts` | main.go:306-316 | the list is accepted iff every spec is, and then yields one request per spec, each the one its spec parses to, in input order |
| `Flags.RejectedAt` | main.go:306-311 | a rejected list is rejected at a spec that fails, every earlier spec parses, and the error names that spec |
| `Flags.ParseAllCorrect` | main.go:306-316 | the list is accepted iff every spec is; then there is one request per spec, in input order; otherwise the error names the first rejected spec |
| `Flags.RejectionMessage` | main.go:307-311 | when the `-i` value is rejected, the message printed names a spec of it with no `.` and adds the hint about the `<import path>.<interface type>` form |
| `Flags.FailureSticks` | main.go:309-311 | after a rejected spec, later specs do not change the outcome (`die` ends the run) |
| `Flags.ParseInterfaces` | main.go:306-316 | the append loop over the `,`-pieces computes exactly `ParseAll` |
| `Flags.ParseAllRoundTrip` | main.go:306-316 | with `getImportPath` as the identity, writing the requests back as `package.name` and joining with `,` gives the `-i` value |
| `Flags.EmptyInterfacesRejected` | main.go:307-311 | the split loop alone would reject an empty `-i` value, as one empty spec without `.`; in the program the check at main.go:298-300 stops it first |
| `Discovery.MethodMapKeys` | main.go:224-232 | the keys of the method map are exactly the interface's method names |
| `Discovery.MethodMapValues` | main.go:224-232 | with unique method names, each name maps to its own signature and there is one entry per method |
| `Discovery.MethodMapReorder` | main.go:224-232 | the method map does not depend on the order of the method list |
| `Discovery.GetInterfaceMethodsSignatures` | main.go:224-232 | the index loop builds exactly the method map |
| `Discovery.LastRecording` | main.go:201-206 | finds the last visited type spec that records a given name, or reports that none does |
| `Discovery.FoldCorrect` | main.go:176-212 | a name is recorded iff some visited type spec of that name is an interface (directly or as the underlying type of a named type) and the request is that name or `*`; its entry holds that spec's method map, and the last such spec wins |
| `Discovery.DiscoverCorrect` | main.go:116-133 | over a whole package, the discovered map is the one `FoldCorrect` describes, each entry named by its own key |
| `Discovery.OnlyRequestedName` | main.go:201 | a plain request discovers only that name, and nothing when no visited interface has that name |
| `Discovery.FunctionBodiesSkipped` | main.go:178-179 | a function declaration anywhere among a file's declarations, whatever its body holds, changes neither the visited type specs of that file nor what is discovered in the package |
| `Discovery.Visitor.constructor` | main.go:117-121 | the visitor starts with the requested name and an empty map |
| `Discovery.Visitor.Visit` | main.go:176-212 | descends only into nodes that are neither function declarations nor type specs; records an interface-typed, name-matching type spec under its name with its method map, and changes nothing otherwise |
| `Discovery.Walk` | main.go:128-130 | walking a node applies `Visit` to the type specs reached from it, in order |
| `Discovery.FindInterfaces` | main.go:116-133 | a package missing from the index yields the error whose text is `unable to load package: <package>`; otherwise it yields the discovered map of all its files |
| `Render.OptionsFor` | main.go:98-105 | the struct name is `<Interface>Metrics`; the output file is the output directory joined with the snake-cased interface name plus the suffix |
| `Render.StructNameInjective` | main.go:102 | the struct name is the interface name followed by `Metrics`, and distinct interfaces get distinct struct names |
| `Render.ExampleFileName` | main.go:103 | with the default suffix `_metrics.go`, the interface `Example` gets `example_metrics.go` |
| `Render.OutputNamesCollide` | main.go:103 | `HTTPServer` and `HttpServer` get the same file name |
| `Render.FuncCall` | main.go:341-355 | the call arguments are the parameters' `Pass()` texts joined by `", "` |
| `Render.ParamsToStructFields` | main.go:135-142 | one `name type` line per parameter, joined by newlines |
| `Render.CallArity` | main.go:348-353 | no parameters give an empty argument list; otherwise there is one comma fewer than there are parameters |
| `Render.StructFieldsRoundTrip` | main.go:135-142 | splitting the fields text on newlines gives back one line per parameter |
| `Render.SortedKeys` | main.go:263 | the range order lists every key once, in strictly ascending order |
| `Render.SortedListingUnique` | main.go:263 | any strictly ascending listing of the keys is that order |
| `Render.BuildModel` | main.go:263-269 | the decorator's methods are the map's keys in range order, each with its signature text, its parameters' pass texts and its result count |
| `Render.ModelCoversMethods` | main.go:263-269 | one forwarding method per interface method, in strictly ascending name order |
| `Render.ReturnPrefix` | main.go:357-370 | `FuncReturn`: the text before ` m.next.` is empty exactly when the method has no results, and `return ` otherwise |
| `Render.ForwardingShape` | main.go:267 | the forwarding call starts with `return ` iff the method has results (as `FuncReturn` decides); right after that it reads ` m.next.<name>(`, calling the same-named method of the wrapped implementation; it ends with the parameters' pass texts joined by `", "`, in parentheses, and nothing lies between the name's `(` and that argument list |
| `Render.MethodBlockShape` | main.go:264-267 | a method block declares `func (m *<Struct>) <name><signature> {`, then defers `m.observe("<name>", time.Now())`, then forwards the call |
| `Render.MethodsTextSplit` | main.go:263-269 | the `range` output is the blocks of the methods before the k-th, the k-th block, then the blocks after it |
| `Render.RangeBlockAt` | main.go:263-269 | in the `range` output, the k-th block starts right after the blocks of the earlier methods |
| `Render.RangeMethodShape` | main.go:263-269 | in the `range` output, the k-th block's declaration, `defer m.observe` of its name and forwarding call stand in that order at the stated positions |
| `Render.ModelEntry` | main.go:263-264 | the k-th method of the model is the k-th least method name, with that method's own signature |
| `Render.DecoratorMethodObserved` | main.go:263-269 | for the k-th least method name, the decorator's `range` output declares that method with its own signature, then defers `m.observe` labelled with that name, then calls the same-named method of the wrapped implementation |
| `Render.DecoratorText` | main.go:234-275 | the decorator text is the struct and constructors, then the method blocks in range order with the k-th after the earlier ones, then the `observe` helper |
| `Render.GenerateWrites` | main.go:160-172 | for an interface with methods, `generate` writes the rendered decorator to the output file |
| `Render.EmptyInterfaceRejected` | main.go:160-162 | `generate` fails iff the interface has no methods, before the output file is removed or written |
| `Render.EmptyInterfaceMessage` | main.go:160-162 | that error reads `empty interface: <name>` |
| `Render.GenerateIgnoresMethodOrder` | main.go:224-232 | reordering an interface's method list does not change the generated file |
| `Render.ExampleModel` | main.go:263-269 | for the test interface `Example`, `Another` (no results) comes before `Do` (one result) |
| `Render.ExampleForwardingCalls` | main.go:267 | the forwarding calls of `Another(p)` and `Do(p, p1)` have the expected text |
| `Render.ExampleDecorator` | tests/example_metrics.go:42-52 | the `Example` decorator forwards `Another` without `return`, then `Do` with `return`, each passing its parameters |

## Left out

- The orchestration in `main`: loader configuration, package loading, type
  checking, the choice of output directory with `os.Stat`, and the loop over
  discovered interfaces. That loop runs in Go's map order, so when there are
  several interfaces, which one aborts the run first is not determined.
- `visitor.expressionType` and its `die`. Each type spec carries its resolved
  type, because the type index is taken as given.
- The real Go AST node kinds. They are reduced to function declarations, type
  specs, and generic nodes with children, in `ast.Walk` order.
- Filesystem work. `getImportPath` is the `importPath` parameter, which
  `generator.PackageOf` would resolve for paths that exist. `filepath.Join` is the
  `joinPath` parameter. `os.Remove` and the write are represented by the
  `GeneratedFile` value that `Generate` returns.
- Flag parsing, usage and version output, and `die`/`os.Exit`. This includes
  the "missing -i"/"missing -o" checks. Errors are `Result` values.
- The generator library: the `signature` text, `FuncParams`/`FuncResults` and
  their error returns, `Pass()`, the file header, the package clause, the
  imports, and gofmt formatting. The rendered text is the template's raw
  expansion.
- The `text/template` engine in general. Only this template's expansion is
  modelled.
- UTF-8 encoding in `buffer.write` and the decoding of invalid UTF-8 in
  `range s`. Characters are runes.
- Full Unicode `IsUpper`/`ToLower`. Only ASCII `A`-`Z` is upper case here.
- The runtime behaviour of the generated decorator: Prometheus registration,
  `time` measurement, and `observe`.
