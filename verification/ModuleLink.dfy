/** Two generated modules, loaded one after the other: the generator, the loader and the machine
    put together. */
module ModuleLink {
  import opened Wrappers
  import opened ITypes
  import opened SdkAst
  import opened ItAst
  import opened ExportApi
  import opened RecordTable
  import opened Adapters
  import opened GeneratorSpec
  import opened Layout
  import opened Collections
  import opened Loader
  import opened Linking
  import opened InterfaceRecovery
  import opened Machine
  import opened Encoding
  import opened ImportMeaning
  import opened ExportMeaning
  import opened LinkMeaning

  /** An exported function of a loaded module: its instance and its adapter. */
  datatype Callable = Callable(ctx: Context, code: seq<Instruction>)

  /** A function of the Wasm module itself. */
  datatype RawExport = RawExport(params: seq<WType>, f: CoreFn)

  function HelperNamed(name: string): Option<Helper> {
    if name == API_FUNCS[ALLOCATE_FUNC].name then Some(Allocate)
    else if name == API_FUNCS[RELEASE_OBJECTS].name then Some(ReleaseObjects)
    else if name == API_FUNCS[GET_RESULT_SIZE_FUNC].name then Some(GetResultSize)
    else if name == API_FUNCS[GET_RESULT_PTR_FUNC].name then Some(GetResultPtr)
    else if name == API_FUNCS[SET_RESULT_SIZE_FUNC].name then Some(SetResultSize)
    else if name == API_FUNCS[SET_RESULT_PTR_FUNC].name then Some(SetResultPtr)
    else None
  }

  /** What a function-table entry does; a name outside `cores` cannot come out of the loader. */
  function CalleeOf(func: WitFunction<Callable>, cores: map<string, RawExport>): Callee {
    match func
    case FromImport(_, arguments, outputs, callable) => Imported(TypesOf(arguments), outputs, callable.ctx, callable.code)
    case FromExport(name) =>
      if HelperNamed(name).Some? then Api(HelperNamed(name).value)
      else if name in cores then Core(cores[name].params, cores[name].f)
      else Core([], (w, args) => None)
  }

  /** The instance a loaded function table belongs to. */
  ghost predicate InstanceOf(ctx: Context, types: seq<AstType>, funcs: map<nat, WitFunction<Callable>>, cores: map<string, RawExport>) {
    && ctx.types == types
    && (forall i :: i in funcs <==> 0 <= i < |ctx.funcs|)
    && (forall i :: i in funcs ==> ctx.funcs[i] == CalleeOf(funcs[i], cores))
  }

  /** instantiate_exports: a callable for every function of the interface, by name. It fails exactly
      when the adapter of some signature is missing. */
  function InstantiateExports(mit: MITInterfaces, signatures: seq<IFunctionSignature>, ctx: Context)
    : (r: Result<map<string, Callable>, LoadError>)
    ensures r.Err? <==> exists s :: s in signatures && s.adapterFunctionType !in mit.adapters
  {
    if signatures == [] then Ok(map[])
    else
      var last := signatures[|signatures| - 1];
      match InstantiateExports(mit, signatures[..|signatures| - 1], ctx)
      case Err(e) => Err(e)
      case Ok(init) =>
        if last.adapterFunctionType !in mit.adapters then Err(NoSuchAdapter(last.adapterFunctionType))
        else Ok(init[last.name := Callable(ctx, mit.adapters[last.adapterFunctionType])])
  }

  /** A module generated from `ast` and loaded as `ctx` among `modules`. */
  ghost predicate Loaded(ast: ModuleAst, ctx: Context, cores: map<string, RawExport>, modules: Modules<Callable>,
                         funcs: map<nat, WitFunction<Callable>>)
  {
    && Generate(ast).Generated?
    && NewInstance(NewMIT(Generate(ast).interfaces), WasmExports(cores), modules) == Ok(funcs)
    && InstanceOf(ctx, Generate(ast).interfaces.types, funcs, cores)
  }

  function WasmExports(cores: map<string, RawExport>): set<string> {
    cores.Keys + set h | 0 <= h < API_COUNT :: API_FUNCS[h].name
  }

  // ----- What loading gives each side -----

  lemma ApiNames()
    ensures forall h :: 0 <= h < API_COUNT ==> HelperNamed(API_FUNCS[h].name).Some?
    ensures HelperNamed(API_FUNCS[ALLOCATE_FUNC].name) == Some(Allocate)
    ensures HelperNamed(API_FUNCS[RELEASE_OBJECTS].name) == Some(ReleaseObjects)
    ensures HelperNamed(API_FUNCS[GET_RESULT_SIZE_FUNC].name) == Some(GetResultSize)
    ensures HelperNamed(API_FUNCS[GET_RESULT_PTR_FUNC].name) == Some(GetResultPtr)
    ensures HelperNamed(API_FUNCS[SET_RESULT_SIZE_FUNC].name) == Some(SetResultSize)
    ensures HelperNamed(API_FUNCS[SET_RESULT_PTR_FUNC].name) == Some(SetResultPtr)
  {
  }

  lemma LoadedNumbering(ast: ModuleAst, ctx: Context, cores: map<string, RawExport>, modules: Modules<Callable>,
                        funcs: map<nat, WitFunction<Callable>>)
    requires Loaded(ast, ctx, cores, modules, funcs)
    ensures NumberedAsEmitted(RecordIds(ast), ast.functions, ImportDecls(ast.externMods), modules, funcs)
  {
    GeneratedIsLaid(ast);
    IndexesAgree(RecordIds(ast), |RecordSlots(ast)|, Generate(ast).interfaces, ast.functions, ImportDecls(ast.externMods),
                 WasmExports(cores), modules);
  }

  lemma LoadedHelpers(ast: ModuleAst, ctx: Context, cores: map<string, RawExport>, modules: Modules<Callable>,
                      funcs: map<nat, WitFunction<Callable>>)
    requires Loaded(ast, ctx, cores, modules, funcs)
    ensures HasHelpers(ctx)
  {
    LoadedNumbering(ast, ctx, cores, modules, funcs);
    ApiNames();
    forall h | 0 <= h < API_COUNT
      ensures h < |ctx.funcs| && ctx.funcs[h] == CalleeOf(FromExport(API_FUNCS[h].name), cores)
    {
      assert h in funcs && funcs[h] == FromExport(API_FUNCS[h].name);
    }
  }

  /** The record definitions of the AST are in the instance's type table. */
  lemma LoadedDefinitions(ast: ModuleAst, ctx: Context, cores: map<string, RawExport>, modules: Modules<Callable>,
                          funcs: map<nat, WitFunction<Callable>>, defs: map<string, seq<RecordField>>)
    requires Loaded(ast, ctx, cores, modules, funcs)
    requires forall n :: n in defs ==> n in Definitions(ast.records) && Definitions(ast.records)[n] == defs[n]
    ensures Defines(ctx.types, RecordIds(ast), defs)
  {
    GeneratedIsLaid(ast);
    RegisterAllHolds(DefaultExportApi().types, ast.records);
    forall n | n in defs
      ensures Filled(RecordIds(ast), ctx.types, n, defs[n])
    {
      assert Filled(RecordIds(ast), RecordSlots(ast), n, defs[n]);
    }
  }

  /** The side of exported function `j`: its core function is where its adapter calls it. */
  lemma ExportSide(ast: ModuleAst, ctx: Context, cores: map<string, RawExport>, modules: Modules<Callable>,
                   funcs: map<nat, WitFunction<Callable>>, j: nat)
    requires Loaded(ast, ctx, cores, modules, funcs)
    requires j < |ast.functions|
    requires HelperNamed(ast.functions[j].name).None? && ast.functions[j].name in cores
    requires WTypes(TypesOf(RawArgs(ast.functions[j].arguments))) == Some(cores[ast.functions[j].name].params)
    ensures HasCore(ctx, ast.functions[j], API_COUNT + j, cores[ast.functions[j].name].f)
    ensures ItArgs(ast.functions[j].arguments, RecordIds(ast)).Some?
    ensures ItOutputs(ast.functions[j].outputTypes, RecordIds(ast)).Some?
    ensures ExportCode(ast.functions[j], API_COUNT + j, RecordIds(ast)).Some?
  {
    LoadedNumbering(ast, ctx, cores, modules, funcs);
    assert funcs[API_COUNT + j] == FromExport(ast.functions[j].name);
    GeneratedIsLaid(ast);
    assert FunctionAt(RecordIds(ast), |RecordSlots(ast)|, Generate(ast).interfaces, ast.functions[j], j);
  }

  // ----- The callables of the exporting module -----

  ghost predicate DistinctNames(fns: seq<FnSignature>) {
    forall i, j :: 0 <= i < j < |fns| ==> fns[i].name != fns[j].name
  }

  lemma {:induction false} CallablesOf(mit: MITInterfaces, signatures: seq<IFunctionSignature>, ctx: Context, s: IFunctionSignature)
    requires s in signatures && InstantiateExports(mit, signatures, ctx).Ok?
    requires forall t :: t in signatures && t.name == s.name ==> t == s
    ensures s.adapterFunctionType in mit.adapters
    ensures var callables := InstantiateExports(mit, signatures, ctx).value;
            s.name in callables && callables[s.name] == Callable(ctx, mit.adapters[s.adapterFunctionType])
  {
    var init, last := signatures[..|signatures| - 1], signatures[|signatures| - 1];
    assert last in signatures;
    if last != s {
      var i :| 0 <= i < |signatures| && signatures[i] == s;
      assert init[i] == s;
      CallablesOf(mit, init, ctx, s);
    }
  }

  lemma AdapterOf(ast: ModuleAst, j: nat)
    requires Generate(ast).Generated? && j < |ast.functions|
    ensures var mit, t := NewMIT(Generate(ast).interfaces), |RecordSlots(ast)| + 2 * j;
            && t in mit.adapters
            && ExportCode(ast.functions[j], API_COUNT + j, RecordIds(ast)) == Some(mit.adapters[t])
  {
    GeneratedIsLaid(ast);
    var interfaces, n, decls := Generate(ast).interfaces, |RecordSlots(ast)|, ImportDecls(ast.externMods);
    assert FunctionAt(RecordIds(ast), n, interfaces, ast.functions[j], j);
    LaidHasShape(RecordIds(ast), n, interfaces, ast.functions, decls);
    KeysAreDistinct(n, interfaces, ast.functions, decls);
    HashMapOfDistinct(AdapterPairs(interfaces), j);
  }

  lemma AllInstantiated(mit: MITInterfaces, read: seq<IFunctionSignature>, expected: seq<IFunctionSignature>, ctx: Context)
    requires multiset(read) == multiset(expected)
    requires forall i :: 0 <= i < |expected| ==> expected[i].adapterFunctionType in mit.adapters
    ensures InstantiateExports(mit, read, ctx).Ok?
  {
    forall s | s in read
      ensures s.adapterFunctionType in mit.adapters
    {
      assert s in multiset(read) && s in multiset(expected);
    }
  }

  lemma OnlyOneNamed(read: seq<IFunctionSignature>, expected: seq<IFunctionSignature>, j: nat)
    requires multiset(read) == multiset(expected) && j < |expected|
    requires forall a, b :: 0 <= a < b < |expected| ==> expected[a].name != expected[b].name
    ensures expected[j] in read
    ensures forall t :: t in read && t.name == expected[j].name ==> t == expected[j]
  {
    assert expected[j] in multiset(expected) && expected[j] in multiset(read);
    forall t | t in read && t.name == expected[j].name
      ensures t == expected[j]
    {
      assert t in multiset(read) && t in multiset(expected);
      var i :| 0 <= i < |expected| && expected[i] == t;
    }
  }

  lemma InterfaceNames(ast: ModuleAst, ctx: Context, order: seq<nat>, j: nat) returns (expected: seq<IFunctionSignature>)
    requires Generate(ast).Generated? && j < |ast.functions|
    requires Enumerates(order, NewMIT(Generate(ast).interfaces).adapterTypeToCore.Keys)
    ensures ExportFuncs(NewMIT(Generate(ast).interfaces), order).Ok?
    ensures multiset(ExportFuncs(NewMIT(Generate(ast).interfaces), order).value) == multiset(expected)
    ensures |expected| == |ast.functions|
    ensures forall i :: 0 <= i < |expected| ==>
              expected[i].name == ast.functions[i].name && expected[i].adapterFunctionType == |RecordSlots(ast)| + 2 * i
    ensures forall i :: 0 <= i < |expected| ==>
              ItArgs(ast.functions[i].arguments, RecordIds(ast)) == Some(expected[i].arguments) &&
              ItOutputs(ast.functions[i].outputTypes, RecordIds(ast)) == Some(expected[i].outputs)
  {
    var interfaces, n := Generate(ast).interfaces, |RecordSlots(ast)|;
    assert Laid(RecordIds(ast), n, interfaces, ast.functions, ImportDecls(ast.externMods)) by { GeneratedIsLaid(ast); }
    InterfaceIsRecovered(RecordIds(ast), n, interfaces, ast.functions, ImportDecls(ast.externMods), order);
    expected := AstInterface(n, interfaces, ast.functions);
    FunctionTypesInPlace(RecordIds(ast), n, interfaces, ast.functions);
  }

  /** What other modules find under a function's name is that function's adapter, in whatever order
      the interface was read. */
  lemma ExportedCallable(ast: ModuleAst, ctx: Context, order: seq<nat>, j: nat)
    requires Generate(ast).Generated? && DistinctNames(ast.functions) && j < |ast.functions|
    requires Enumerates(order, NewMIT(Generate(ast).interfaces).adapterTypeToCore.Keys)
    ensures var mit := NewMIT(Generate(ast).interfaces);
            && ExportFuncs(mit, order).Ok?
            && var made := InstantiateExports(mit, ExportFuncs(mit, order).value, ctx);
            && made.Ok?
            && ast.functions[j].name in made.value
            && made.value[ast.functions[j].name].ctx == ctx
            && ExportCode(ast.functions[j], API_COUNT + j, RecordIds(ast)) == Some(made.value[ast.functions[j].name].code)
  {
    hide *;
    var mit := NewMIT(Generate(ast).interfaces);
    var expected := InterfaceNames(ast, ctx, order, j);
    var read := ExportFuncs(mit, order).value;
    forall i | 0 <= i < |expected|
      ensures expected[i].adapterFunctionType in mit.adapters
    {
      AdapterOf(ast, i);
    }
    AllInstantiated(mit, read, expected, ctx);
    assert forall a, b :: 0 <= a < b < |expected| ==> expected[a].name != expected[b].name by { NamesDiffer(ast.functions); }
    OnlyOneNamed(read, expected, j);
    AdapterOf(ast, j);
    CallablesOf(mit, read, ctx, expected[j]);
  }

  lemma NamesDiffer(fns: seq<FnSignature>)
    requires DistinctNames(fns)
    ensures forall i, j :: 0 <= i < j < |fns| ==> fns[i].name != fns[j].name
  {
  }

  // ----- The two sides of a link -----

  /** Everything about one loaded module: `mit` is its indexed interface, `decls` lists its imports. */
  datatype Instance = Instance(ast: ModuleAst, mit: MITInterfaces, decls: seq<ImportDecl>, ctx: Context,
                               cores: map<string, RawExport>, modules: Modules<Callable>,
                               funcs: map<nat, WitFunction<Callable>>)

  /** The module is loaded with its function table. */
  ghost predicate Live(m: Instance) {
    && Fresh(m.ctx.alloc)
    && Loaded(m.ast, m.ctx, m.cores, m.modules, m.funcs)
    && m.mit == NewMIT(Generate(m.ast).interfaces) && m.decls == ImportDecls(m.ast.externMods)
  }

  ghost predicate Declares(ast: ModuleAst, defs: map<string, seq<RecordField>>) {
    forall n :: n in defs ==> n in Definitions(ast.records) && Definitions(ast.records)[n] == defs[n]
  }

  /** Function `fn` of the module is a Wasm function with the raw signature the SDK gives it. */
  ghost predicate HasRawExport(m: Instance, fn: FnSignature) {
    && HelperNamed(fn.name).None? && fn.name in m.cores
    && WTypes(TypesOf(RawArgs(fn.arguments))) == Some(m.cores[fn.name].params)
  }

  /** The callables another module sees: the interface of `m`, read back in some order. */
  ghost predicate Offers(m: Instance, order: seq<nat>, callables: map<string, Callable>) {
    && Enumerates(order, m.mit.adapterTypeToCore.Keys)
    && ExportFuncs(m.mit, order).Ok?
    && InstantiateExports(m.mit, ExportFuncs(m.mit, order).value, m.ctx) == Ok(callables)
  }

  function SideOf(m: Instance, signature: FnSignature): Side {
    Side(m.ctx, RecordIds(m.ast), signature)
  }

  /** Where the function table of a module has its import `k`, and its exported function `j`. */
  function ImportIndex(m: Instance, k: nat): nat {
    API_COUNT + |m.ast.functions| + k
  }

  function ExportIndex(j: nat): nat {
    API_COUNT + j
  }

  lemma ResolvedImport(ids: map<string, nat>, decl: ImportDecl, modules: Modules<Callable>,
                       func: WitFunction<Callable>, cores: map<string, RawExport>)
    requires ResolvesTo(ids, decl, modules, func)
    ensures decl.namespace in modules && LinkNameOf(decl.fn) in modules[decl.namespace]
    ensures ItArgs(decl.fn.signature.arguments, ids).Some? && ItOutputs(decl.fn.signature.outputTypes, ids).Some?
    ensures var target := modules[decl.namespace][LinkNameOf(decl.fn)];
            CalleeOf(func, cores) == Imported(TypesOf(ItArgs(decl.fn.signature.arguments, ids).value),
                                              ItOutputs(decl.fn.signature.outputTypes, ids).value, target.ctx, target.code)
  {
  }

  lemma LoadedImports(m: Instance)
    requires Live(m)
    ensures ImportsResolved(RecordIds(m.ast), ImportIndex(m, 0), m.decls, m.modules, m.funcs)
    ensures InstanceOf(m.ctx, m.ctx.types, m.funcs, m.cores)
  {
    LoadedNumbering(m.ast, m.ctx, m.cores, m.modules, m.funcs);
  }

  lemma ResolvedEntry(ids: map<string, nat>, start: nat, decls: seq<ImportDecl>, k: nat, modules: Modules<Callable>,
                      ctx: Context, types: seq<AstType>, funcs: map<nat, WitFunction<Callable>>, cores: map<string, RawExport>)
    requires InstanceOf(ctx, types, funcs, cores) && ImportsResolved(ids, start, decls, modules, funcs) && k < |decls|
    ensures start + k in funcs && ResolvesTo(ids, decls[k], modules, funcs[start + k])
    ensures start + k < |ctx.funcs| && ctx.funcs[start + k] == CalleeOf(funcs[start + k], cores)
  {
  }

  lemma ImportIndexFrom(m: Instance, k: nat)
    ensures ImportIndex(m, k) == ImportIndex(m, 0) + k
  {
  }

  lemma ImportEntry(m: Instance, k: nat)
    requires Live(m) && k < |m.decls|
    ensures var i := ImportIndex(m, k);
            && i in m.funcs && ResolvesTo(RecordIds(m.ast), m.decls[k], m.modules, m.funcs[i])
            && i < |m.ctx.funcs| && m.ctx.funcs[i] == CalleeOf(m.funcs[i], m.cores)
  {
    hide *;
    ImportIndexFrom(m, k);
    LoadedImports(m);
    ResolvedEntry(RecordIds(m.ast), ImportIndex(m, 0), m.decls, k, m.modules, m.ctx, m.ctx.types, m.funcs, m.cores);
  }

  lemma LiveSide(m: Instance, defs: map<string, seq<RecordField>>)
    requires Live(m) && Declares(m.ast, defs)
    ensures HasHelpers(m.ctx) && Fresh(m.ctx.alloc) && Defines(m.ctx.types, RecordIds(m.ast), defs)
  {
    LoadedHelpers(m.ast, m.ctx, m.cores, m.modules, m.funcs);
    LoadedDefinitions(m.ast, m.ctx, m.cores, m.modules, m.funcs, defs);
  }

  lemma ExportingSide(m: Instance, j: nat, defs: map<string, seq<RecordField>>)
    requires Live(m) && j < |m.ast.functions| && HasRawExport(m, m.ast.functions[j])
    requires Declares(m.ast, defs) && |m.ast.functions[j].outputTypes| <= 1
    ensures GoodSide(SideOf(m, m.ast.functions[j]), defs)
    ensures HasCore(m.ctx, m.ast.functions[j], ExportIndex(j), m.cores[m.ast.functions[j].name].f)
  {
    hide Loaded, Generate, NewMIT, Defines, Declares, HasHelpers, HasCore, Fresh, ItArgs, ItOutputs, HelperNamed, WTypes, RecordIds;
    LiveSide(m, defs);
    ExportSide(m.ast, m.ctx, m.cores, m.modules, m.funcs, j);
  }

  lemma ImportingSide(m: Instance, k: nat, defs: map<string, seq<RecordField>>)
    requires Live(m) && k < |m.decls|
    requires Declares(m.ast, defs) && |m.decls[k].fn.signature.outputTypes| <= 1
    ensures GoodSide(SideOf(m, m.decls[k].fn.signature), defs)
  {
    LiveSide(m, defs);
    ImportEntry(m, k);
    ResolvedImport(RecordIds(m.ast), m.decls[k], m.modules, m.funcs[ImportIndex(m, k)], m.cores);
  }

  /** Import `k` of `a`, declared `decl`, is exported function `j` of `b`: the import's namespace holds
      what `b` offers and the link name is the function's name. */
  ghost predicate Binds(a: Instance, decl: ImportDecl, b: Instance, fn: FnSignature, order: seq<nat>) {
    && decl.namespace in a.modules && Offers(b, order, a.modules[decl.namespace])
    && LinkNameOf(decl.fn) == fn.name
  }

  lemma OfferedInterface(b: Instance, order: seq<nat>, callables: map<string, Callable>)
    requires Live(b) && Offers(b, order, callables)
    ensures Generate(b.ast).Generated? && Enumerates(order, NewMIT(Generate(b.ast).interfaces).adapterTypeToCore.Keys)
    ensures var mit := NewMIT(Generate(b.ast).interfaces);
            ExportFuncs(mit, order).Ok? && InstantiateExports(mit, ExportFuncs(mit, order).value, b.ctx) == Ok(callables)
  {
    hide NewMIT, NewInstance, InstanceOf, ExportFuncs, InstantiateExports, Generate;
  }

  lemma OfferedCallable(b: Instance, order: seq<nat>, callables: map<string, Callable>, j: nat)
    requires Live(b) && DistinctNames(b.ast.functions) && j < |b.ast.functions| && Offers(b, order, callables)
    ensures b.ast.functions[j].name in callables
    ensures callables[b.ast.functions[j].name].ctx == b.ctx
    ensures ExportCode(b.ast.functions[j], ExportIndex(j), RecordIds(b.ast)) == Some(callables[b.ast.functions[j].name].code)
  {
    assert ExportIndex(j) == API_COUNT + j;
    OfferedInterface(b, order, callables);
    hide *;
    ExportedCallable(b.ast, b.ctx, order, j);
  }

  lemma SidesLinked(a: Instance, k: nat, b: Instance, j: nat, order: seq<nat>)
    requires Live(a) && k < |a.decls|
    requires Live(b) && DistinctNames(b.ast.functions) && j < |b.ast.functions|
    requires Binds(a, a.decls[k], b, b.ast.functions[j], order)
    ensures var caller := SideOf(a, a.decls[k].fn.signature);
            && ItArgs(caller.signature.arguments, caller.ids).Some? && ItOutputs(caller.signature.outputTypes, caller.ids).Some?
            && Linked(caller, ImportIndex(a, k), SideOf(b, b.ast.functions[j]), ExportIndex(j))
  {
    ImportEntry(a, k);
    ResolvedImport(RecordIds(a.ast), a.decls[k], a.modules, a.funcs[ImportIndex(a, k)], a.cores);
    OfferedCallable(b, order, a.modules[a.decls[k].namespace], j);
  }

  /** A call: `f` computes `sem`, whose argument values `vs` the caller passes in raw form. */
  datatype Call = Call(f: CoreFn, sem: seq<IValue> -> seq<IValue>, raws: seq<IValue>, vs: seq<IValue>, world: World)

  /** The two sides were compiled from one Rust signature and the call's values fit it. */
  ghost predicate Calls(caller: Side, callee: Side, call: Call, defs: map<string, seq<RecordField>>) {
    && SameRustSignature(caller.signature, callee.signature) && |callee.signature.outputTypes| <= 1
    && EncodesArgs(Own(call.world, caller.ctx.me), caller.ids, caller.signature.arguments, call.vs, call.raws)
    && AllRustConform(call.vs, ArgTypes(caller.signature.arguments), defs)
    && AllRustConform(call.sem(call.vs), caller.signature.outputTypes, defs)
    && Implements(call.f, callee.ctx, callee.ids, callee.signature, call.sem)
  }

  /** Both tables serve the call: the caller's import is the callee's adapter, which calls `f`. */
  ghost predicate Ready(caller: Side, importIndex: nat, callee: Side, exportIndex: nat, f: CoreFn, defs: map<string, seq<RecordField>>) {
    && GoodSide(caller, defs) && GoodSide(callee, defs)
    && Linked(caller, importIndex, callee, exportIndex)
    && HasCore(callee.ctx, callee.signature, exportIndex, f)
  }

  /** Running the import adapter on the call's raw arguments, and the callee's part of that run. */
  ghost function ImportRun(caller: Side, importIndex: nat, call: Call): Outcome
    requires ImportCode(caller.signature, importIndex, caller.ids).Some?
  {
    Run(caller.ctx, ImportCode(caller.signature, importIndex, caller.ids).value, call.raws, State([], call.world))
  }

  ghost function ExportRun(caller: Side, callee: Side, exportIndex: nat, call: Call): Outcome
    requires ExportCode(callee.signature, exportIndex, callee.ids).Some?
  {
    CalleeRun(callee, exportIndex, call.vs, AtCall(caller, call.world))
  }

  /** Both adapters exist. Running the import adapter comes to the call's result, or a trap because an
      allocator refused a request of this run or the core function gave nothing; and it does come to the
      result if nothing stands in its way. */
  ghost predicate CallDelivers(caller: Side, importIndex: nat, callee: Side, exportIndex: nat, call: Call) {
    && ImportCode(caller.signature, importIndex, caller.ids).Some?
    && ExportCode(callee.signature, exportIndex, callee.ids).Some?
    && var o, inner := ImportRun(caller, importIndex, call), ExportRun(caller, callee, exportIndex, call);
    && Delivers(caller, callee, call.f, call.vs, call.sem(call.vs), AtCall(caller, call.world), inner, o)
    && (UnhinderedLink(caller, callee, call.f, call.vs, AtCall(caller, call.world), inner) ==> o.Done?)
  }

  lemma LinkDelivers(caller: Side, importIndex: nat, callee: Side, exportIndex: nat, call: Call,
                     defs: map<string, seq<RecordField>>)
    requires Ready(caller, importIndex, callee, exportIndex, call.f, defs) && Calls(caller, callee, call, defs)
    ensures CallDelivers(caller, importIndex, callee, exportIndex, call)
  {
    hide Delivers, UnhinderedLink, Run, HasCore, Implements;
    LinkPreservesMeaning(caller, importIndex, callee, exportIndex, call.f, call.sem, defs, call.raws, call.vs, call.world);
  }

  lemma BothSides(a: Instance, k: nat, b: Instance, j: nat, order: seq<nat>, defs: map<string, seq<RecordField>>)
    requires Live(a) && k < |a.decls|
    requires Live(b) && DistinctNames(b.ast.functions) && j < |b.ast.functions| && HasRawExport(b, b.ast.functions[j])
    requires Binds(a, a.decls[k], b, b.ast.functions[j], order)
    requires Declares(a.ast, defs) && Declares(b.ast, defs)
    requires |a.decls[k].fn.signature.outputTypes| <= 1 && |b.ast.functions[j].outputTypes| <= 1
    ensures Ready(SideOf(a, a.decls[k].fn.signature), ImportIndex(a, k),
                  SideOf(b, b.ast.functions[j]), ExportIndex(j), b.cores[b.ast.functions[j].name].f, defs)
  {
    ImportingSide(a, k, defs);
    ExportingSide(b, j, defs);
    SidesLinked(a, k, b, j, order);
  }

  /** The two ends of a call: `caller` is import `k` of `a`, `callee` is exported function `j` of `b`, a
      Wasm function that computes what the call says, under a name no other function of `b` has. */
  ghost predicate Ends(a: Instance, k: nat, b: Instance, j: nat, caller: Side, callee: Side, call: Call,
                       defs: map<string, seq<RecordField>>)
  {
    && k < |a.decls| && caller == SideOf(a, a.decls[k].fn.signature)
    && j < |b.ast.functions| && callee == SideOf(b, b.ast.functions[j])
    && DistinctNames(b.ast.functions) && HasRawExport(b, b.ast.functions[j])
    && call.f == b.cores[b.ast.functions[j].name].f
    && Declares(a.ast, defs) && Declares(b.ast, defs) && Calls(caller, callee, call, defs)
  }

  /** The whole pipeline: module `b` is generated and loaded, its interface read back in any order;
      module `a` is generated and loaded against it. Then calling import `k` of `a` through the
      adapter the generator emitted computes the core function that `b` exports under the import's
      link name, on the very values passed, for every signature with at most one result. */
  lemma LinkedModulesCompute(
      a: Instance, k: nat, b: Instance, j: nat, order: seq<nat>,
      caller: Side, callee: Side, call: Call, defs: map<string, seq<RecordField>>)
    requires Live(a) && Live(b) && Ends(a, k, b, j, caller, callee, call, defs)
    requires Binds(a, a.decls[k], b, b.ast.functions[j], order)
    ensures CallDelivers(caller, ImportIndex(a, k), callee, ExportIndex(j), call)
  {
    hide Live, Binds, DistinctNames, HasRawExport, Declares, CallDelivers;
    BothSides(a, k, b, j, order, defs);
    LinkDelivers(caller, ImportIndex(a, k), callee, ExportIndex(j), call, defs);
  }
}
