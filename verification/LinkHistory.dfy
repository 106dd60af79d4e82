/** MarineCore: the table of loaded modules over any history of loading and unloading. */
module LinkHistory {
  import opened Wrappers
  import opened SdkAst
  import opened Collections
  import opened ItAst
  import opened ExportApi
  import opened GeneratorSpec
  import opened Layout
  import opened Linking
  import opened Loader
  import opened Machine
  import opened RecordClosure
  import opened ModuleInterface
  import opened LinkMeaning
  import opened ModuleLink

  datatype CoreError =
    | NotInstantiated
    | LinkFailed(link: LoadError)
    | InterfaceFailed(interface: LoadError)
    | RecordsFailed(records: ClosureError)
    | StartFailed
    | NonUniqueModuleName(name: string)
    | UnknownModule(name: string)

  /** A Wasm file as the loader meets it: its indexed interface and the order in which that is read,
      its functions and allocator, and whether the engine accepts it and its start functions return. */
  datatype Source = Source(mit: MITInterfaces, order: seq<nat>, cores: map<string, RawExport>, alloc: Allocator,
                           instantiates: bool, starts: bool)

  /** `modules` holds what each module offers; `loads` counts the loads so far and numbers the instances. */
  datatype CoreState = CoreState(modules: Modules<Callable>, loads: nat)

  function CalleeAt(funcs: map<nat, WitFunction<Callable>>, cores: map<string, RawExport>, i: nat): Callee {
    if i in funcs then CalleeOf(funcs[i], cores) else Callee.Core([], (w, args) => None)
  }

  /** The instance built over a function table; its number is the number of its load. */
  function NewContext(serial: nat, src: Source, funcs: map<nat, WitFunction<Callable>>): Context {
    Context(serial, src.mit.types, seq(|funcs|, i requires 0 <= i < |funcs| => CalleeAt(funcs, src.cores, i)), src.alloc)
  }

  /** MModule::new. */
  function NewModule(core: CoreState, src: Source): Result<map<string, Callable>, CoreError> {
    if !src.instantiates then Err(NotInstantiated)
    else
      match NewInstance(src.mit, WasmExports(src.cores), core.modules)
      case Err(e) => Err(LinkFailed(e))
      case Ok(funcs) =>
        match ExportFuncs(src.mit, src.order)
        case Err(e) => Err(InterfaceFailed(e))
        case Ok(signatures) =>
          match GetRecordTypes(AllRecords(src.mit.types), ITypesOf(signatures))
          case Err(e) => Err(RecordsFailed(e))
          case Ok(_) =>
            match InstantiateExports(src.mit, signatures, NewContext(core.loads, src, funcs))
            case Err(e) => Err(InterfaceFailed(e))
            case Ok(exports) => if src.starts then Ok(exports) else Err(StartFailed)
  }

  /** The entry of a module that was made, or not, under `name`. */
  function Install(core: CoreState, name: string, made: Result<map<string, Callable>, CoreError>): Result<CoreState, CoreError> {
    match made
    case Err(e) => Err(e)
    case Ok(exports) =>
      if name in core.modules then Err(NonUniqueModuleName(name))
      else Ok(CoreState(core.modules[name := exports], core.loads + 1))
  }

  function LoadModule(core: CoreState, name: string, src: Source): Result<CoreState, CoreError> {
    Install(core, name, NewModule(core, src))
  }

  function UnloadModule(core: CoreState, name: string): Result<CoreState, CoreError> {
    if name in core.modules then Ok(core.(modules := core.modules - {name})) else Err(UnknownModule(name))
  }

  // ----- The table as it is changed in place -----

  class MarineCore {
    var modules: Modules<Callable>
    /** Numbers the instances; the original tells them apart by their addresses. */
    var loads: nat

    function Value(): CoreState
      reads this
    {
      CoreState(modules, loads)
    }

    constructor ()
      ensures Value() == CoreState(map[], 0)
    {
      modules, loads := map[], 0;
    }

    /** A load that fails, at whatever point, leaves the table as it was. */
    method Load(name: string, src: Source) returns (failure: Option<CoreError>)
      modifies this
      ensures match LoadModule(old(Value()), name, src)
              case Ok(after) => failure == None && Value() == after
              case Err(e) => failure == Some(e) && Value() == old(Value())
    {
      var m := NewModule(Value(), src);
      match m {
        case Err(e) => return Some(e);
        case Ok(exports) =>
          if name in modules { return Some(NonUniqueModuleName(name)); }
          modules := modules[name := exports];
          loads := loads + 1;
          return None;
      }
    }

    method Unload(name: string) returns (failure: Option<CoreError>)
      modifies this
      ensures match UnloadModule(old(Value()), name)
              case Ok(after) => failure == None && Value() == after
              case Err(e) => failure == Some(e) && Value() == old(Value())
    {
      if name !in modules { return Some(UnknownModule(name)); }
      modules := modules - {name};
      return None;
    }
  }

  // ----- Histories -----

  datatype Op = Load(name: string, src: Source) | Unload(name: string)

  function Apply(core: CoreState, op: Op): CoreState {
    match op
    case Load(name, src) => (match LoadModule(core, name, src) case Ok(after) => after case Err(_) => core)
    case Unload(name) => (match UnloadModule(core, name) case Ok(after) => after case Err(_) => core)
  }

  function Run(ops: seq<Op>): CoreState {
    if ops == [] then CoreState(map[], 0) else Apply(Run(ops[..|ops| - 1]), ops[|ops| - 1])
  }

  /** Every function the instance imports belongs to an instance loaded before it, and so on down. */
  ghost predicate LinkedDownwards(ctx: Context)
    decreases ctx
  {
    forall i :: 0 <= i < |ctx.funcs| && ctx.funcs[i].Imported? ==>
      ctx.funcs[i].ctx.me < ctx.me && LinkedDownwards(ctx.funcs[i].ctx)
  }

  ghost predicate Ordered(core: CoreState) {
    forall n, f :: n in core.modules && f in core.modules[n] ==>
      core.modules[n][f].ctx.me < core.loads && LinkedDownwards(core.modules[n][f].ctx)
  }

  /** Imported functions come out of the table of loaded modules. */
  ghost predicate FromTable(func: WitFunction<Callable>, modules: Modules<Callable>) {
    func.FromImport? ==> exists n, f :: n in modules && f in modules[n] && func.callable == modules[n][f]
  }

  ghost predicate AllFromTable(funcs: map<nat, WitFunction<Callable>>, modules: Modules<Callable>) {
    forall i :: i in funcs ==> FromTable(funcs[i], modules)
  }

  lemma {:induction false} RawExportsAreOwn(exports: seq<Export>, wasmExports: set<string>, modules: Modules<Callable>)
    requires ExtractRawExports<Callable>(exports, wasmExports).Ok?
    ensures AllFromTable(ExtractRawExports<Callable>(exports, wasmExports).value, modules)
  {
    if exports != [] { RawExportsAreOwn(exports[..|exports| - 1], wasmExports, modules); }
  }

  lemma ImportComesFromTable(mit: MITInterfaces, modules: Modules<Callable>, decl: Import)
    requires FromImportDecl(mit, modules, decl).Ok?
    ensures FromTable(FromImportDecl(mit, modules, decl).value, modules)
  {
  }

  lemma {:induction false} ImportsComeFromTable(mit: MITInterfaces, modules: Modules<Callable>, imports: seq<Import>, start: nat)
    requires NumberImports(mit, modules, imports, start).Ok?
    ensures AllFromTable(NumberImports(mit, modules, imports, start).value, modules)
  {
    if imports != [] {
      ImportsComeFromTable(mit, modules, imports[..|imports| - 1], start);
      ImportComesFromTable(mit, modules, imports[|imports| - 1]);
    }
  }

  lemma InstanceComesFromTable(mit: MITInterfaces, wasmExports: set<string>, modules: Modules<Callable>)
    requires NewInstance(mit, wasmExports, modules).Ok?
    ensures AllFromTable(NewInstance(mit, wasmExports, modules).value, modules)
  {
    var exports := ExtractRawExports<Callable>(mit.exports, wasmExports).value;
    RawExportsAreOwn(mit.exports, wasmExports, modules);
    ImportsComeFromTable(mit, modules, ImplementedImports(mit, mit.imports), |exports|);
  }

  /** The instance of a new load is linked downwards. */
  lemma NewContextOrdered(core: CoreState, src: Source, funcs: map<nat, WitFunction<Callable>>)
    requires Ordered(core) && AllFromTable(funcs, core.modules)
    ensures LinkedDownwards(NewContext(core.loads, src, funcs))
  {
  }

  lemma {:induction false} CallablesOwn(mit: MITInterfaces, signatures: seq<IFunctionSignature>, ctx: Context, f: string)
    requires InstantiateExports(mit, signatures, ctx).Ok? && f in InstantiateExports(mit, signatures, ctx).value
    ensures InstantiateExports(mit, signatures, ctx).value[f].ctx == ctx
  {
    var init, last := signatures[..|signatures| - 1], signatures[|signatures| - 1];
    if f in InstantiateExports(mit, init, ctx).value { CallablesOwn(mit, init, ctx, f); }
  }

  lemma LoadKeepsOrder(core: CoreState, name: string, src: Source)
    requires Ordered(core) && LoadModule(core, name, src).Ok?
    ensures Ordered(LoadModule(core, name, src).value)
  {
    var after := LoadModule(core, name, src).value;
    var funcs := NewInstance(src.mit, WasmExports(src.cores), core.modules).value;
    var ctx := NewContext(core.loads, src, funcs);
    InstanceComesFromTable(src.mit, WasmExports(src.cores), core.modules);
    NewContextOrdered(core, src, funcs);
    forall n, f | n in after.modules && f in after.modules[n]
      ensures after.modules[n][f].ctx.me < after.loads && LinkedDownwards(after.modules[n][f].ctx)
    {
      if n == name {
        CallablesOwn(src.mit, ExportFuncs(src.mit, src.order).value, ctx, f);
      } else {
        assert n in core.modules && f in core.modules[n];
      }
    }
  }

  /** After every history, unloading and reloading of names included, each module calls only into
      instances loaded before it. */
  lemma {:induction false} EveryHistoryIsOrdered(ops: seq<Op>)
    ensures Ordered(Run(ops)) && Run(ops).loads <= |ops|
  {
    if ops != [] {
      var before, op := Run(ops[..|ops| - 1]), ops[|ops| - 1];
      EveryHistoryIsOrdered(ops[..|ops| - 1]);
      if op.Load? && LoadModule(before, op.name, op.src).Ok? { LoadKeepsOrder(before, op.name, op.src); }
    }
  }

  // ----- Chains of calls -----

  /** `cs[i + 1]` offers a function that `cs[i]` imports. */
  ghost predicate CallChain(cs: seq<Context>) {
    && |cs| > 0
    && forall i {:trigger cs[i]} :: 0 <= i < |cs| - 1 ==> Imports(cs[i], cs[i + 1])
  }

  ghost predicate Imports(caller: Context, callee: Context) {
    exists k :: 0 <= k < |caller.funcs| && caller.funcs[k].Imported? && caller.funcs[k].ctx == callee
  }

  lemma {:induction false} ChainDescends(cs: seq<Context>)
    requires CallChain(cs) && LinkedDownwards(cs[0])
    ensures forall i :: 0 <= i < |cs| - 1 ==> cs[i + 1].me < cs[i].me
    ensures |cs| <= cs[0].me + 1
    decreases |cs|
  {
    if |cs| > 1 {
      assert Imports(cs[0], cs[0 + 1]);
      var rest := cs[1..];
      forall i | 0 <= i < |rest| - 1
        ensures Imports(rest[i], rest[i + 1])
      {
        assert Imports(cs[i + 1], cs[i + 1 + 1]);
      }
      ChainDescends(rest);
      forall i | 0 <= i < |cs| - 1
        ensures cs[i + 1].me < cs[i].me
      {
        if i > 0 { assert rest[i - 1 + 1].me < rest[i - 1].me; }
      }
    }
  }

  /** So a chain of cross-module calls strictly goes back in load order and is no longer than the
      number of loads there were. */
  lemma ChainsAreShort(ops: seq<Op>, name: string, f: string, cs: seq<Context>)
    requires name in Run(ops).modules && f in Run(ops).modules[name]
    requires CallChain(cs) && cs[0] == Run(ops).modules[name][f].ctx
    ensures forall i :: 0 <= i < |cs| - 1 ==> cs[i + 1].me < cs[i].me
    ensures |cs| <= Run(ops).loads
  {
    EveryHistoryIsOrdered(ops);
    ChainDescends(cs);
  }

  /** No load or unload touches what other modules offer, nor the calls they hold: those stay bound to
      the instances they were linked to, even when a name is unloaded and loaded anew. */
  lemma OthersUntouched(core: CoreState, name: string, made: Result<map<string, Callable>, CoreError>, other: string)
    requires other != name
    ensures Install(core, name, made).Ok? ==>
              (other in Install(core, name, made).value.modules <==> other in core.modules) &&
              (other in core.modules ==> Install(core, name, made).value.modules[other] == core.modules[other])
    ensures UnloadModule(core, name).Ok? ==>
              (other in UnloadModule(core, name).value.modules <==> other in core.modules) &&
              (other in core.modules ==> UnloadModule(core, name).value.modules[other] == core.modules[other])
  {
  }

  /** A loaded module offers exactly the callables of its interface. */
  lemma LoadedOffersItsInterface(core: CoreState, name: string, src: Source)
    requires LoadModule(core, name, src).Ok?
    ensures ExportFuncs(src.mit, src.order).Ok? && NewInstance(src.mit, WasmExports(src.cores), core.modules).Ok?
    ensures var ctx := NewContext(core.loads, src, NewInstance(src.mit, WasmExports(src.cores), core.modules).value);
            && name in LoadModule(core, name, src).value.modules
            && InstantiateExports(src.mit, ExportFuncs(src.mit, src.order).value, ctx) ==
               Ok(LoadModule(core, name, src).value.modules[name])
  {
  }

  // ----- Generated modules -----

  function Upto(n: nat): (r: set<nat>)
    ensures |r| == n && forall i: nat :: i in r <==> i < n
  {
    if n == 0 then {} else Upto(n - 1) + {n - 1}
  }

  lemma RangeSize<V>(m: map<nat, V>, n: nat)
    requires forall i: nat :: i in m <==> i < n
    ensures |m| == n
  {
    assert m.Keys == Upto(n);
  }

  lemma NumberedRange(ids: map<string, nat>, fns: seq<FnSignature>, decls: seq<ImportDecl>,
                      modules: Modules<Callable>, funcs: map<nat, WitFunction<Callable>>, i: nat)
    requires NumberedAsEmitted(ids, fns, decls, modules, funcs)
    ensures i in funcs <==> i < API_COUNT + |fns| + |decls|
  {
    if API_COUNT <= i < API_COUNT + |fns| {
      var fn := fns[i - API_COUNT];
    } else if API_COUNT + |fns| <= i < API_COUNT + |fns| + |decls| {
      var decl := decls[i - API_COUNT - |fns|];
    }
  }

  lemma TableMakesInstance(serial: nat, src: Source, funcs: map<nat, WitFunction<Callable>>, n: nat)
    requires forall i: nat :: i in funcs <==> i < n
    ensures InstanceOf(NewContext(serial, src, funcs), src.mit.types, funcs, src.cores)
  {
    RangeSize(funcs, n);
  }

  lemma GeneratedNumbering(src: Source, modules: Modules<Callable>, ast: ModuleAst)
    requires Generate(ast).Generated? && src.mit == NewMIT(Generate(ast).interfaces)
    requires NewInstance(src.mit, WasmExports(src.cores), modules).Ok?
    ensures NumberedAsEmitted(RecordIds(ast), ast.functions, ImportDecls(ast.externMods), modules,
                              NewInstance(src.mit, WasmExports(src.cores), modules).value)
  {
    assert Laid(RecordIds(ast), |RecordSlots(ast)|, Generate(ast).interfaces, ast.functions, ImportDecls(ast.externMods)) by {
      GeneratedIsLaid(ast);
    }
    IndexesAgree(RecordIds(ast), |RecordSlots(ast)|, Generate(ast).interfaces, ast.functions, ImportDecls(ast.externMods),
                 WasmExports(src.cores), modules);
  }

  lemma NumberedMakesInstance(ids: map<string, nat>, fns: seq<FnSignature>, decls: seq<ImportDecl>,
                              modules: Modules<Callable>, serial: nat, src: Source,
                              funcs: map<nat, WitFunction<Callable>>)
    requires NumberedAsEmitted(ids, fns, decls, modules, funcs)
    ensures InstanceOf(NewContext(serial, src, funcs), src.mit.types, funcs, src.cores)
  {
    var n := API_COUNT + |fns| + |decls|;
    forall i: nat
      ensures i in funcs <==> i < n
    {
      NumberedRange(ids, fns, decls, modules, funcs, i);
    }
    TableMakesInstance(serial, src, funcs, n);
  }

  /** A generated module that links is an instance as the theorem on linked modules wants it. */
  lemma LoadMakesInstance(core: CoreState, src: Source, ast: ModuleAst)
    requires Generate(ast).Generated? && src.mit == NewMIT(Generate(ast).interfaces)
    requires NewInstance(src.mit, WasmExports(src.cores), core.modules).Ok?
    ensures var funcs := NewInstance(src.mit, WasmExports(src.cores), core.modules).value;
            Loaded(ast, NewContext(core.loads, src, funcs), src.cores, core.modules, funcs)
  {
    var funcs := NewInstance(src.mit, WasmExports(src.cores), core.modules).value;
    assert InstanceOf(NewContext(core.loads, src, funcs), src.mit.types, funcs, src.cores) by {
      GeneratedNumbering(src, core.modules, ast);
      NumberedMakesInstance(RecordIds(ast), ast.functions, ImportDecls(ast.externMods), core.modules, core.loads, src, funcs);
    }
  }

  // ----- Calls between modules of a history -----

  /** No operation from `from` up to `until` changes the entry of `name`: it names another module or fails. */
  ghost predicate Quiet(ops: seq<Op>, from: nat, until: nat, name: string) {
    until <= |ops| && forall u :: from <= u < until ==> ops[u].name != name || Apply(Run(ops[..u]), ops[u]) == Run(ops[..u])
  }

  lemma RunStep(ops: seq<Op>, u: nat)
    requires u < |ops|
    ensures Run(ops[..u + 1]) == Apply(Run(ops[..u]), ops[u])
  {
    assert ops[..u + 1][..u] == ops[..u];
  }

  lemma ApplyKeepsOthers(core: CoreState, op: Op, name: string)
    requires op.name != name && name in core.modules
    ensures name in Apply(core, op).modules && Apply(core, op).modules[name] == core.modules[name]
  {
    hide NewModule;
    match op
    case Load(other, src) => OthersUntouched(core, other, NewModule(core, src), name);
    case Unload(other) =>
  }

  lemma {:induction false} EntryPersists(ops: seq<Op>, from: nat, until: nat, name: string)
    requires from <= until && Quiet(ops, from, until, name) && name in Run(ops[..from]).modules
    ensures name in Run(ops[..until]).modules && Run(ops[..until]).modules[name] == Run(ops[..from]).modules[name]
    decreases until
  {
    hide Apply, Run;
    if from < until {
      EntryPersists(ops, from, until - 1, name);
      RunStep(ops, until - 1);
      if ops[until - 1].name != name { ApplyKeepsOthers(Run(ops[..until - 1]), ops[until - 1], name); }
    }
  }

  lemma ApplyKeepsName(core: CoreState, op: Op, name: string)
    requires name in core.modules && op != Unload(name)
    ensures name in Apply(core, op).modules
  {
    hide NewModule;
  }

  lemma {:induction false} NameStays(ops: seq<Op>, from: nat, until: nat, name: string)
    requires from <= until <= |ops| && name in Run(ops[..from]).modules
    requires forall u :: from <= u < until ==> ops[u] != Unload(name)
    ensures name in Run(ops[..until]).modules
    decreases until
  {
    if from < until {
      NameStays(ops, from, until - 1, name);
      RunStep(ops, until - 1);
      ApplyKeepsName(Run(ops[..until - 1]), ops[until - 1], name);
    }
  }

  /** Between two successful loads of one name lies an unload of it, in every history. */
  lemma ReloadNeedsUnload(ops: seq<Op>, s: nat, t: nat, name: string)
    requires s < t < |ops| && ops[s].Load? && ops[t].Load? && ops[s].name == ops[t].name == name
    requires LoadModule(Run(ops[..s]), name, ops[s].src).Ok? && LoadModule(Run(ops[..t]), name, ops[t].src).Ok?
    ensures exists u :: s < u < t && ops[u] == Unload(name)
  {
    hide NewModule, Run;
    RunStep(ops, s);
    if forall u :: s + 1 <= u < t ==> ops[u] != Unload(name) { NameStays(ops, s + 1, t, name); }
  }

  /** The source is what the generator and the SDK make of `ast`. */
  ghost predicate BuiltFrom(src: Source, ast: ModuleAst) {
    && Generate(ast).Generated? && src.mit == NewMIT(Generate(ast).interfaces)
    && Fresh(src.alloc) && Enumerates(src.order, src.mit.adapterTypeToCore.Keys)
  }

  /** The instance that loading `src` in `core` makes. */
  function InstanceFor(core: CoreState, src: Source, ast: ModuleAst): Instance
    requires NewInstance(src.mit, WasmExports(src.cores), core.modules).Ok?
  {
    var funcs := NewInstance(src.mit, WasmExports(src.cores), core.modules).value;
    Instance(ast, src.mit, ImportDecls(ast.externMods), NewContext(core.loads, src, funcs), src.cores, core.modules, funcs)
  }

  /** `m` was made by a successful load of a module generated from its AST. */
  ghost predicate Makes(core: CoreState, name: string, src: Source, m: Instance) {
    && LoadModule(core, name, src).Ok? && BuiltFrom(src, m.ast)
    && NewInstance(src.mit, WasmExports(src.cores), core.modules).Ok? && m == InstanceFor(core, src, m.ast)
  }

  /** Operation `t` of the history loads `src` as `name` and makes `m` of it. */
  ghost predicate MadeAt(ops: seq<Op>, t: nat, name: string, src: Source, m: Instance) {
    t < |ops| && ops[t] == Load(name, src) && Makes(Run(ops[..t]), name, src, m)
  }

  lemma MadeIsLive(core: CoreState, name: string, src: Source, m: Instance)
    requires Makes(core, name, src, m)
    ensures Live(m) && m.modules == core.modules
  {
    hide LoadModule, Loaded, Generate, NewInstance;
    LoadMakesInstance(core, src, m.ast);
  }

  lemma MadeOffers(core: CoreState, name: string, src: Source, m: Instance)
    requires Makes(core, name, src, m)
    ensures name in LoadModule(core, name, src).value.modules
    ensures Offers(m, src.order, LoadModule(core, name, src).value.modules[name])
    ensures forall f :: f in LoadModule(core, name, src).value.modules[name] ==>
              LoadModule(core, name, src).value.modules[name][f].ctx == m.ctx
  {
    hide LoadModule, Generate, NewInstance, InstantiateExports, ExportFuncs;
    LoadedOffersItsInterface(core, name, src);
    forall f | f in LoadModule(core, name, src).value.modules[name]
      ensures LoadModule(core, name, src).value.modules[name][f].ctx == m.ctx
    {
      CallablesOwn(src.mit, ExportFuncs(src.mit, src.order).value, m.ctx, f);
    }
  }

  /** Where a load left its entry, up to the next operation that changes it. */
  lemma MadeStays(ops: seq<Op>, t: nat, until: nat, name: string, src: Source, m: Instance)
    requires MadeAt(ops, t, name, src, m) && t < until && Quiet(ops, t + 1, until, name)
    ensures name in Run(ops[..until]).modules && Offers(m, src.order, Run(ops[..until]).modules[name])
    ensures forall f :: f in Run(ops[..until]).modules[name] ==> Run(ops[..until]).modules[name][f].ctx == m.ctx
  {
    hide NewModule, Run, Offers, BuiltFrom;
    MadeOffers(Run(ops[..t]), name, src, m);
    RunStep(ops, t);
    EntryPersists(ops, t + 1, until, name);
  }

  lemma MadeAtIsLive(ops: seq<Op>, t: nat, name: string, src: Source, m: Instance)
    requires MadeAt(ops, t, name, src, m)
    ensures Live(m) && m.modules == Run(ops[..t]).modules
  {
    hide Makes, Live, Run;
    MadeIsLive(Run(ops[..t]), name, src, m);
  }

  /** Over any history: `b` is loaded at `s`, and `a` at `t` while the namespace of its import `k` still
      holds `b`. Then the import computes the core function of `b`. For as long as `a`'s own entry
      stands, all callables under `a`'s name run in this very instance, also after `b` has been
      unloaded or another module been loaded under its name. */
  lemma HistoryComputes(
      ops: seq<Op>, s: nat, nameB: string, srcB: Source, b: Instance, j: nat,
      t: nat, nameA: string, srcA: Source, a: Instance, k: nat,
      caller: Side, callee: Side, call: Call, defs: map<string, seq<RecordField>>)
    requires MadeAt(ops, s, nameB, srcB, b) && s < t && Quiet(ops, s + 1, t, nameB)
    requires MadeAt(ops, t, nameA, srcA, a) && Quiet(ops, t + 1, |ops|, nameA)
    requires Ends(a, k, b, j, caller, callee, call, defs)
    requires a.decls[k].namespace == nameB && LinkNameOf(a.decls[k].fn) == b.ast.functions[j].name
    ensures nameA in Run(ops).modules
    ensures forall f :: f in Run(ops).modules[nameA] ==> Run(ops).modules[nameA][f].ctx == caller.ctx
    ensures CallDelivers(caller, ImportIndex(a, k), callee, ExportIndex(j), call)
  {
    hide Makes, Run, Live, Offers, Calls, Declares, HasRawExport, DistinctNames, CallDelivers, Quiet;
    assert ops[..|ops|] == ops;
    MadeStays(ops, t, |ops|, nameA, srcA, a);
    MadeAtIsLive(ops, s, nameB, srcB, b);
    MadeAtIsLive(ops, t, nameA, srcA, a);
    MadeStays(ops, s, t, nameB, srcB, b);
    LinkedModulesCompute(a, k, b, j, srcB.order, caller, callee, call, defs);
  }
}
