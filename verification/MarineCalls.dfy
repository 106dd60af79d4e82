/** Marine's calls as one piece: the lookup of the interface with its cache, the JSON conversions, the
    adapter that runs, and the memory statistics. */
module MarineCalls {
  import opened Wrappers
  import opened RustInts
  import opened ITypes
  import opened SdkAst
  import opened RecordTable
  import opened Adapters
  import opened GeneratorSpec
  import opened Loader
  import opened Machine
  import opened ExportMeaning
  import opened ModuleLink
  import opened RecordClosure
  import opened ModuleInterface
  import opened Json
  import opened JsonCall
  import opened InterfaceCache
  import opened MemoryLimits
  import LinkHistory

  /** A loaded module: the interface it shows and the callables it offers. */
  datatype LoadedModule = LoadedModule(shown: Interface, exports: map<string, Callable>)

  /** What stays the same over all calls: the modules, the memories they start with and the budget. */
  datatype Setup = Setup(modules: map<string, LoadedModule>, world: World, limit: u64, hasStats: bool)

  function Interfaces(setup: Setup): map<string, Interface> {
    map n | n in setup.modules :: setup.modules[n].shown
  }

  /** What the engine does while a call runs: growth requests, and the memories a failed call leaves. */
  datatype Engine = Engine(amounts: seq<u64>, wreck: World)

  /** `history` is everything that happened to the store; it determines the limiter. */
  datatype MarineState = MarineState(cache: map<string, Interface>, world: World, parameters: nat, history: seq<Event>)

  datatype CoreOutcome = Returned(values: seq<IValue>, world: World) | Broke(error: CoreError)

  /** MarineCore::call: every error of a run is an instruction error. */
  function CoreCall(setup: Setup, world: World, name: string, func: string, args: seq<IValue>): CoreOutcome {
    if name !in setup.modules || func !in setup.modules[name].exports then Broke(OtherError)
    else
      var callable := setup.modules[name].exports[func];
      match Machine.Run(callable.ctx, callable.code, args, Machine.State([], world))
      case Done(st) => Returned(st.stack, st.world)
      case _ => Broke(ITInstructionError)
  }

  function EndOf(outcome: CoreOutcome): CoreResult {
    match outcome
    case Returned(_, _) => Finished
    case Broke(error) => CoreResult.Failed(error)
  }

  /** The report on a call that ended in `error`, in terms of the whole history. */
  function ReportOn(setup: Setup, history: seq<Event>, error: CoreError): Report {
    var refused := RefusedSince(setup.limit, history, LastClear(history)) % U32_COUNT;
    if setup.hasStats && MayBeOom(error) && refused != 0 then HighProbabilityOOM(refused, error) else EngineError(error)
  }

  /** The call itself, the arguments being there. */
  function CallValues(setup: Setup, st: MarineState, name: string, func: string, args: seq<IValue>, parameters: nat, engine: Engine)
    : (Result<seq<IValue>, Report>, MarineState)
  {
    var outcome := CoreCall(setup, st.world, name, func, args);
    var history := st.history + Requests(engine.amounts) + [EndOfCall(EndOf(outcome))];
    match outcome
    case Returned(values, world) => (Ok(values), MarineState(st.cache, world, parameters, history))
    case Broke(error) => (Err(ReportOn(setup, history, error)), MarineState(st.cache, engine.wreck, parameters, history))
  }

  /** `Panic` is the unimplemented!() of ivalues_to_json. */
  datatype JsonAnswer =
    | LookupFailed(lookup: LookupError)
    | ArgumentsFailed
    | CallFailed(report: Report)
    | ResultFailed
    | Panic
    | Answered(json: JValue)

  function AnswerOf(output: JsonOutput): JsonAnswer {
    match output
    case Unimplemented => Panic
    case Converted(Err(_)) => ResultFailed
    case Converted(Ok(j)) => Answered(j)
  }

  /** call_with_json. A failed lookup changes nothing; arguments that do not convert may leave a new entry
      in the cache; a result without a JSON form is a finished call all the same. */
  function CallJson(setup: Setup, st: MarineState, name: string, func: string, json: JValue, parameters: nat, engine: Engine)
    : (JsonAnswer, MarineState)
  {
    match Cached(Interfaces(setup), st.cache, name, func)
    case Err(e) => (LookupFailed(e), st)
    case Ok((signature, records)) =>
      var looked := st.(cache := Remember(Interfaces(setup), st.cache, name, func));
      match JsonToIValues(json, JsonFields(signature.arguments), records)
      case Err(_) => (ArgumentsFailed, looked)
      case Ok(vs) =>
        match CallValues(setup, looked, name, func, vs, parameters, engine)
        case (Err(report), after) => (CallFailed(report), after)
        case (Ok(values), after) => (AnswerOf(IValuesToJson(values, signature.outputs, records)), after)
  }

  /** What the counter reports is what the history says. */
  lemma ReportIsChecked(setup: Setup, history: seq<Event>, error: CoreError)
    ensures var st := MemoryLimits.Run(Limiter(setup.limit, 0), history);
            CheckForOom(if setup.hasStats then Some(st.rejects) else None, error) == ReportOn(setup, history, error)
  {
    BudgetIsConserved(setup.limit, history);
  }

  // ----- The calls as they run -----

  class Marine {
    const setup: Setup
    const limiter: MemoryLimiter
    var moduleInterfacesCache: map<string, Interface>
    var world: World
    var callParameters: nat
    ghost var history: seq<Event>

    ghost function Value(): MarineState
      reads this
    {
      MarineState(moduleInterfacesCache, world, callParameters, history)
    }

    /** The limiter is where the history has brought it. */
    ghost predicate Valid()
      reads this, limiter
    {
      limiter.Value() == MemoryLimits.Run(Limiter(setup.limit, 0), history)
    }

    constructor (setup: Setup)
      ensures Valid() && fresh(limiter) && this.setup == setup && Value() == MarineState(map[], setup.world, 0, [])
    {
      this.setup := setup;
      limiter := new MemoryLimiter(setup.limit);
      moduleInterfacesCache, world, callParameters, history := map[], setup.world, 0, [];
    }

    /** lookup_module_interface. */
    method LookupModuleInterface(name: string, func: string) returns (result: Lookup)
      modifies this`moduleInterfacesCache
      ensures result == Cached(Interfaces(setup), old(moduleInterfacesCache), name, func)
      ensures moduleInterfacesCache == Remember(Interfaces(setup), old(moduleInterfacesCache), name, func)
    {
      if name in moduleInterfacesCache {
        var hit := moduleInterfacesCache[name];
        if func in hit.functions { return Ok((hit.functions[func], hit.records)); }
        return Err(MissingFunction(func));
      }
      if name !in setup.modules { return Err(LookupError.NoSuchModule(name)); }
      var found := setup.modules[name].shown;
      if func !in found.functions { return Err(MissingFunction(func)); }
      moduleInterfacesCache := moduleInterfacesCache[func := found];
      return Ok((found.functions[func], found.records));
    }

    /** The growth requests of the modules that run. */
    method Grow(amounts: seq<u64>)
      requires Valid()
      modifies limiter, this`history
      ensures Valid() && history == old(history) + Requests(amounts)
    {
      for i := 0 to |amounts|
        invariant Valid() && history == old(history) + Requests(amounts[..i])
      {
        RunSnoc(Limiter(setup.limit, 0), history, Request(amounts[i]));
        RequestsSnoc(amounts, i);
        var _ := limiter.TryAllocate(amounts[i]);
        history := history + [Request(amounts[i])];
      }
      assert amounts[..|amounts|] == amounts;
    }

    method CallWithIValues(name: string, func: string, args: seq<IValue>, parameters: nat, engine: Engine)
      returns (result: Result<seq<IValue>, Report>)
      requires Valid()
      modifies this, limiter
      ensures Valid() && (result, Value()) == CallValues(setup, old(Value()), name, func, args, parameters, engine)
    {
      hide CoreCall, Requests, RefusedSince, LastClear, MemoryLimits.Run, CheckForOom, ReportOn;
      callParameters := parameters;
      var outcome := CoreCall(setup, world, name, func, args);
      Grow(engine.amounts);
      RunSnoc(Limiter(setup.limit, 0), history, EndOfCall(EndOf(outcome)));
      history := history + [EndOfCall(EndOf(outcome))];
      match outcome {
        case Broke(error) =>
          ReportIsChecked(setup, history, error);
          world := engine.wreck;
          result := Err(CheckForOom(if setup.hasStats then Some(limiter.allocationRejects) else None, error));
        case Returned(values, after) =>
          world := after;
          limiter.ClearAllocationStats();
          result := Ok(values);
      }
    }

    method CallWithJson(name: string, func: string, json: JValue, parameters: nat, engine: Engine) returns (answer: JsonAnswer)
      requires Valid()
      modifies this, limiter
      ensures Valid() && (answer, Value()) == CallJson(setup, old(Value()), name, func, json, parameters, engine)
    {
      var found := LookupModuleInterface(name, func);
      if found.Err? { return LookupFailed(found.error); }
      var (signature, records) := found.value;
      var args := JsonToIValues(json, JsonFields(signature.arguments), records);
      if args.Err? { return ArgumentsFailed; }
      var result := CallWithIValues(name, func, args.value, parameters, engine);
      match result {
        case Err(report) => answer := CallFailed(report);
        case Ok(values) => answer := AnswerOf(IValuesToJson(values, signature.outputs, records));
      }
    }
  }

  // ----- Histories of calls -----

  datatype MarineCall =
    | WithIValues(name: string, func: string, args: seq<IValue>, parameters: nat, engine: Engine)
    | WithJson(name: string, func: string, json: JValue, parameters: nat, engine: Engine)

  function After(setup: Setup, st: MarineState, c: MarineCall): MarineState {
    match c
    case WithIValues(name, func, args, parameters, engine) => CallValues(setup, st, name, func, args, parameters, engine).1
    case WithJson(name, func, json, parameters, engine) => CallJson(setup, st, name, func, json, parameters, engine).1
  }

  function RunCalls(setup: Setup, calls: seq<MarineCall>): MarineState {
    if calls == [] then MarineState(map[], setup.world, 0, [])
    else After(setup, RunCalls(setup, calls[..|calls| - 1]), calls[|calls| - 1])
  }

  function Queries(calls: seq<MarineCall>): seq<Query> {
    if calls == [] then []
    else
      var init, last := Queries(calls[..|calls| - 1]), calls[|calls| - 1];
      if last.WithJson? then init + [Query(last.name, last.func)] else init
  }

  lemma AfterCache(setup: Setup, st: MarineState, c: MarineCall)
    ensures After(setup, st, c).cache ==
            if c.WithJson? then Remember(Interfaces(setup), st.cache, c.name, c.func) else st.cache
  {
    hide CoreCall, Interfaces, JsonToIValues, IValuesToJson, ReportOn;
  }

  lemma {:induction false} CacheOfCalls(setup: Setup, calls: seq<MarineCall>)
    ensures RunCalls(setup, calls).cache == CacheAfter(Interfaces(setup), Queries(calls))
  {
    hide After, Remember, Interfaces;
    if calls != [] {
      var init, last := calls[..|calls| - 1], calls[|calls| - 1];
      CacheOfCalls(setup, init);
      AfterCache(setup, RunCalls(setup, init), last);
      if last.WithJson? {
        var queries := Queries(init) + [Query(last.name, last.func)];
        assert queries[..|queries| - 1] == Queries(init);
      }
    }
  }

  /** Over every history of calls, JSON calls of a module are read against its own interface if no other
      module exports a function of its name. */
  lemma CallsReadOwnInterface(setup: Setup, calls: seq<MarineCall>, name: string, func: string)
    requires OwnsItsName(Interfaces(setup), name)
    ensures Cached(Interfaces(setup), RunCalls(setup, calls).cache, name, func) == Uncached(Interfaces(setup), name, func)
  {
    CacheOfCalls(setup, calls);
    CacheAgreesExactlyWhen(Interfaces(setup), name);
    assert Agrees(Interfaces(setup), name);
  }

  // ----- Calls of generated modules -----

  /** The signatures under the names of their functions. */
  function FunctionsOf(signatures: seq<IFunctionSignature>): map<string, Signature> {
    if signatures == [] then map[]
    else
      var last := signatures[|signatures| - 1];
      FunctionsOf(signatures[..|signatures| - 1])[last.name := Signature(last.arguments, last.outputs)]
  }

  lemma {:induction false} FunctionsFrom(signatures: seq<IFunctionSignature>, func: string) returns (s: IFunctionSignature)
    requires func in FunctionsOf(signatures)
    ensures s in signatures && s.name == func && FunctionsOf(signatures)[func] == Signature(s.arguments, s.outputs)
  {
    s := signatures[|signatures| - 1];
    if s.name != func { s := FunctionsFrom(signatures[..|signatures| - 1], func); }
  }

  lemma {:induction false} FunctionsHave(signatures: seq<IFunctionSignature>, s: IFunctionSignature)
    requires s in signatures
    ensures s.name in FunctionsOf(signatures)
  {
    var init, last := signatures[..|signatures| - 1], signatures[|signatures| - 1];
    if s != last {
      var i :| 0 <= i < |signatures| && signatures[i] == s;
      assert init[i] == s;
      FunctionsHave(init, s);
    }
  }

  /** The module under `name` is the generated module `b`, its interface read back in `order`. */
  ghost predicate Holds(setup: Setup, name: string, b: Instance, order: seq<nat>) {
    && name in setup.modules && Live(b)
    && Offers(b, order, setup.modules[name].exports)
    && setup.modules[name].shown.functions == FunctionsOf(ExportFuncs(b.mit, order).value)
    && GetRecordTypes(AllRecords(b.mit.types), ITypesOf(ExportFuncs(b.mit, order).value)) == Ok(setup.modules[name].shown.records)
  }

  /** The entry of `name` shows what loading `src` read and offers what the table of loaded modules has. */
  ghost predicate ShowsLoaded(setup: Setup, core: LinkHistory.CoreState, name: string, src: LinkHistory.Source) {
    && name in setup.modules && name in core.modules && setup.modules[name].exports == core.modules[name]
    && ExportFuncs(src.mit, src.order).Ok?
    && setup.modules[name].shown.functions == FunctionsOf(ExportFuncs(src.mit, src.order).value)
    && GetRecordTypes(AllRecords(src.mit.types), ITypesOf(ExportFuncs(src.mit, src.order).value)) == Ok(setup.modules[name].shown.records)
  }

  /** So it is for a generated module after any history of loads and unloads in which its entry stands. */
  lemma HistoryHolds(setup: Setup, ops: seq<LinkHistory.Op>, t: nat, name: string, src: LinkHistory.Source, b: Instance)
    requires LinkHistory.MadeAt(ops, t, name, src, b) && LinkHistory.Quiet(ops, t + 1, |ops|, name)
    requires ShowsLoaded(setup, LinkHistory.Run(ops), name, src)
    ensures Holds(setup, name, b, src.order)
  {
    hide Live, Offers, FunctionsOf, GetRecordTypes, ITypesOf, ExportFuncs, LinkHistory.Run, LinkHistory.Quiet, LinkHistory.LoadModule;
    assert ops[..|ops|] == ops;
    LinkHistory.MadeAtIsLive(ops, t, name, src, b);
    LinkHistory.MadeStays(ops, t, |ops|, name, src, b);
    assert b.mit == src.mit;
  }

  /** `sem` gives results of the types that the module's tables have for the outputs of `fn`. */
  ghost predicate Typed(b: Instance, fn: FnSignature, sem: seq<IValue> -> seq<IValue>) {
    var outputs := ItOutputs(fn.outputTypes, RecordIds(b.ast));
    outputs.Some? ==> WellTyped(b.ctx, RecordIds(b.ast), fn, outputs.value, sem)
  }

  /** The interface of a generated module shows each of its functions with the generated signature. */
  lemma HeldSignature(setup: Setup, name: string, b: Instance, order: seq<nat>, j: nat) returns (s: IFunctionSignature)
    requires Holds(setup, name, b, order) && DistinctNames(b.ast.functions) && j < |b.ast.functions|
    ensures var shown := setup.modules[name].shown;
            && b.ast.functions[j].name in shown.functions
            && shown.functions[b.ast.functions[j].name] == Signature(s.arguments, s.outputs)
            && Interfaced(b, order, b.ast.functions[j], s, shown.records)
  {
    var read := ExportFuncs(b.mit, order).value;
    var expected := HeldNames(b, order, setup.modules[name].exports, j);
    assert b.ast.functions[j].name in FunctionsOf(read) by { FunctionsHave(read, expected); }
    s := FunctionsFrom(read, b.ast.functions[j].name);
  }

  lemma HeldNames(b: Instance, order: seq<nat>, exports: map<string, Callable>, j: nat) returns (s: IFunctionSignature)
    requires Live(b) && Offers(b, order, exports) && DistinctNames(b.ast.functions) && j < |b.ast.functions|
    ensures ExportFuncs(b.mit, order).Ok? && s in ExportFuncs(b.mit, order).value && s.name == b.ast.functions[j].name
  {
    assert b.mit == NewMIT(Generate(b.ast).interfaces) && ExportFuncs(b.mit, order).Ok?;
    OfferedInterface(b, order, exports);
    hide *;
    var expected := InterfaceNames(b.ast, b.ctx, order, j);
    assert forall x, y :: 0 <= x < y < |expected| ==> expected[x].name != expected[y].name by { NamesDiffer(b.ast.functions); }
    OnlyOneNamed(ExportFuncs(b.mit, order).value, expected, j);
    s := expected[j];
  }

  /** What a JSON call of function `fn` of module `b` comes to in world `st.world`, once its arguments
      decoded to `vs` and its adapter ran to `o`. The adapter calls the core function `f` on the values
      that `vs` stands for. If it finishes, the answer is the result as JSON and no refusal is left in the
      statistics; if it traps, the report on that. */
  ghost predicate Served(setup: Setup, st: MarineState, b: Instance, fn: FnSignature, f: CoreFn, sem: seq<IValue> -> seq<IValue>,
                         shown: Interface, vs: seq<IValue>, o: Outcome, answer: JsonAnswer, after: MarineState)
    requires fn.name in shown.functions
  {
    && ArgsConform(b.ctx, RecordIds(b.ast), fn.arguments, vs)
    && var ws := CanonicalArgs(b.ctx, RecordIds(b.ast), fn.arguments, vs);
    && Returns(b.ctx, RecordIds(b.ast), fn, f, ws, sem(ws), st.world, o)
    && (Unhindered(b.ctx, RecordIds(b.ast), fn, f, ws, st.world) ==> o.Done?)
    && (o.Done? ==>
          && answer.Answered? && after.world == o.st.world
          && IValuesToJson(sem(ws), shown.functions[fn.name].outputs, shown.records) == Converted(Ok(answer.json))
          && RefusedSince(setup.limit, after.history, LastClear(after.history)) == 0)
    && (o.Trap? ==> answer == CallFailed(ReportOn(setup, after.history, ITInstructionError)))
  }

  lemma FinishedCallClears(setup: Setup, history: seq<Event>)
    ensures RefusedSince(setup.limit, history + [EndOfCall(Finished)], LastClear(history + [EndOfCall(Finished)])) == 0
  {
  }

  /** The last steps of a JSON call, its interface and arguments being found. */
  lemma ServedCall(setup: Setup, st: MarineState, name: string, b: Instance, fn: FnSignature, f: CoreFn,
                   sem: seq<IValue> -> seq<IValue>, json: JValue, parameters: nat, engine: Engine, vs: seq<IValue>)
    requires name in setup.modules && fn.name in setup.modules[name].shown.functions && fn.name in setup.modules[name].exports
    requires Cached(Interfaces(setup), st.cache, name, fn.name) == Uncached(Interfaces(setup), name, fn.name)
    requires var shown := setup.modules[name].shown;
             JsonToIValues(json, JsonFields(shown.functions[fn.name].arguments), shown.records) == Ok(vs)
    requires setup.modules[name].exports[fn.name].ctx == b.ctx
    requires ArgsConform(b.ctx, RecordIds(b.ast), fn.arguments, vs)
    requires var shown, ws := setup.modules[name].shown, CanonicalArgs(b.ctx, RecordIds(b.ast), fn.arguments, vs);
             var o := Machine.Run(b.ctx, setup.modules[name].exports[fn.name].code, vs, Machine.State([], st.world));
             && AnswersJson(b.ctx, RecordIds(b.ast), fn, f, ws, sem(ws), shown.functions[fn.name].outputs, shown.records, st.world, o)
             && (Unhindered(b.ctx, RecordIds(b.ast), fn, f, ws, st.world) ==> o.Done?)
    ensures var (answer, after) := CallJson(setup, st, name, fn.name, json, parameters, engine);
            var o := Machine.Run(b.ctx, setup.modules[name].exports[fn.name].code, vs, Machine.State([], st.world));
            Served(setup, st, b, fn, f, sem, setup.modules[name].shown, vs, o, answer, after)
  {
    hide Machine.Run, ArgsConform, CanonicalArgs, Unhindered, CoreFunctionFailed, JsonToIValues, IValuesToJson, ReportOn,
         Remember, RefusedSince, LastClear;
    FinishedCallClears(setup, st.history + Requests(engine.amounts));
  }

  /** Over every history of calls of any modules: a JSON call of an exported function of a generated module
      either fails because its arguments do not decode, and then runs nothing, or it computes the core
      function of that name, through the lookup with its cache, both conversions, the adapter and the
      statistics. */
  lemma JsonCallsCompute(setup: Setup, calls: seq<MarineCall>, name: string, b: Instance, order: seq<nat>, j: nat,
                         sem: seq<IValue> -> seq<IValue>, json: JValue, parameters: nat, engine: Engine)
    requires Holds(setup, name, b, order) && OwnsItsName(Interfaces(setup), name)
    requires DistinctNames(b.ast.functions) && j < |b.ast.functions|
    requires HasRawExport(b, b.ast.functions[j]) && |b.ast.functions[j].outputTypes| <= 1
    requires Implements(b.cores[b.ast.functions[j].name].f, b.ctx, RecordIds(b.ast), b.ast.functions[j], sem)
    requires Typed(b, b.ast.functions[j], sem)
    ensures var fn, shown, exports := b.ast.functions[j], setup.modules[name].shown, setup.modules[name].exports;
            var st := RunCalls(setup, calls);
            var (answer, after) := CallJson(setup, st, name, fn.name, json, parameters, engine);
            && fn.name in shown.functions && fn.name in exports
            && match JsonToIValues(json, JsonFields(shown.functions[fn.name].arguments), shown.records)
               case Err(_) => answer == ArgumentsFailed && after == st.(cache := after.cache)
               case Ok(vs) =>
                 Served(setup, st, b, fn, b.cores[fn.name].f, sem, shown, vs,
                        Machine.Run(b.ctx, exports[fn.name].code, vs, Machine.State([], st.world)), answer, after)
  {
    hide Live, Offers, Interfaced, Implements, DistinctNames, Served, ItArgs, ItOutputs, Convert, JsonToIValues, Cached, ArgsConform, AnswersJson;
    var fn, shown, exports := b.ast.functions[j], setup.modules[name].shown, setup.modules[name].exports;
    var st := RunCalls(setup, calls);
    var s := HeldSignature(setup, name, b, order, j);
    OfferedCallable(b, order, exports, j);
    CallsReadOwnInterface(setup, calls, name, fn.name);
    InterfacedFits(b, order, exports, j, s, shown.records);
    var args := JsonToIValues(json, JsonFields(s.arguments), shown.records);
    if args.Ok? {
      LoadedModuleAnswersJson(b, order, exports, j, s, shown.records, sem, json, args.value, st.world);
      ServedCall(setup, st, name, b, fn, b.cores[fn.name].f, sem, json, parameters, engine, args.value);
    }
  }
}
