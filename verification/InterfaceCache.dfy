/** How Marine finds the interface a JSON call is read against, with its cache of module interfaces. */
module InterfaceCache {
  import opened Wrappers
  import opened ITypes
  import opened RecordClosure

  datatype Signature = Signature(arguments: seq<FunctionArg>, outputs: seq<IType>)

  datatype Interface = Interface(functions: map<string, Signature>, records: RecordTypes)

  datatype LookupError = NoSuchModule(name: string) | MissingFunction(name: string)

  type Lookup = Result<(Signature, RecordTypes), LookupError>

  function Answer(found: Interface, func: string): Lookup {
    if func in found.functions then Ok((found.functions[func], found.records)) else Err(MissingFunction(func))
  }

  /** What the loaded modules themselves say. */
  function Uncached(modules: map<string, Interface>, name: string, func: string): Lookup {
    if name in modules then Answer(modules[name], func) else Err(NoSuchModule(name))
  }

  function Cached(modules: map<string, Interface>, cache: map<string, Interface>, name: string, func: string): Lookup {
    if name in cache then Answer(cache[name], func) else Uncached(modules, name, func)
  }

  /** The cache is read by module name, and filled under the name of the function. */
  function Remember(modules: map<string, Interface>, cache: map<string, Interface>, name: string, func: string): map<string, Interface> {
    if name !in cache && Uncached(modules, name, func).Ok? then cache[func := modules[name]] else cache
  }

  // ----- Histories of lookups -----

  datatype Query = Query(name: string, func: string)

  function CacheAfter(modules: map<string, Interface>, queries: seq<Query>): map<string, Interface> {
    if queries == [] then map[]
    else
      var last := queries[|queries| - 1];
      Remember(modules, CacheAfter(modules, queries[..|queries| - 1]), last.name, last.func)
  }

  /** Under a name the cache holds the interface of some module with a function of that name. */
  lemma {:induction false} CachedUnderFunctionNames(modules: map<string, Interface>, queries: seq<Query>, name: string)
    requires name in CacheAfter(modules, queries)
    ensures exists m :: m in modules && name in modules[m].functions && CacheAfter(modules, queries)[name] == modules[m]
  {
    var init, last := queries[..|queries| - 1], queries[|queries| - 1];
    var before := CacheAfter(modules, init);
    if name in before && CacheAfter(modules, queries)[name] == before[name] {
      CachedUnderFunctionNames(modules, init, name);
    } else {
      assert last.name in modules && name in modules[last.name].functions;
    }
  }

  lemma AnswersDetermine(a: Interface, b: Interface, func: string)
    requires func in a.functions && forall f :: Answer(a, f) == Answer(b, f)
    ensures a == b
  {
    assert Answer(a, func) == Answer(b, func);
    forall f
      ensures f in a.functions <==> f in b.functions
      ensures f in a.functions ==> a.functions[f] == b.functions[f]
    {
      assert Answer(a, f) == Answer(b, f);
    }
    assert a.functions == b.functions;
  }

  /** Lookups under `name` are answered from the loaded modules, after every history. */
  ghost predicate Agrees(modules: map<string, Interface>, name: string) {
    forall queries, func :: Cached(modules, CacheAfter(modules, queries), name, func) == Uncached(modules, name, func)
  }

  /** Every module that exports a function called `name` has the interface of the module called `name`. */
  ghost predicate OwnsItsName(modules: map<string, Interface>, name: string) {
    forall m :: m in modules && name in modules[m].functions ==> name in modules && modules[name] == modules[m]
  }

  lemma AnswersDiffer(a: Interface, b: Interface, func: string)
    requires func in a.functions && a != b
    ensures exists f :: Answer(a, f) != Answer(b, f)
  {
    if forall f :: Answer(a, f) == Answer(b, f) { AnswersDetermine(a, b, func); }
  }

  /** One call is enough to mislead the cache: when `m` exports a function called `name` and the module of
      that name is another one or not loaded, looking up that function makes some lookup in `name` fail
      or answer for `m`. */
  lemma OneCallMisleads(modules: map<string, Interface>, name: string, m: string)
    requires m in modules && name in modules[m].functions
    requires name in modules ==> modules[name] != modules[m]
    ensures exists func :: Cached(modules, CacheAfter(modules, [Query(m, name)]), name, func) != Uncached(modules, name, func)
  {
    var queries := [Query(m, name)];
    assert CacheAfter(modules, queries[..0]) == map[];
    assert CacheAfter(modules, queries) == map[name := modules[m]];
    if name in modules {
      AnswersDiffer(modules[m], modules[name], name);
      var f :| Answer(modules[m], f) != Answer(modules[name], f);
      assert Cached(modules, CacheAfter(modules, queries), name, f) != Uncached(modules, name, f);
    } else {
      assert Cached(modules, CacheAfter(modules, queries), name, name) != Uncached(modules, name, name);
    }
  }

  /** The cache agrees with the modules under a name exactly when no module exports a function of that
      name, save with the very interface of the module so called. Otherwise one earlier call, of that
      function, makes a call of the module be read against another module's interface, or a module
      that is not loaded be found. */
  lemma CacheAgreesExactlyWhen(modules: map<string, Interface>, name: string)
    ensures Agrees(modules, name) <==> OwnsItsName(modules, name)
  {
    if Agrees(modules, name) {
      forall m | m in modules && name in modules[m].functions
        ensures name in modules && modules[name] == modules[m]
      {
        if !(name in modules && modules[name] == modules[m]) { OneCallMisleads(modules, name, m); }
      }
    }
    if OwnsItsName(modules, name) {
      forall queries, func
        ensures Cached(modules, CacheAfter(modules, queries), name, func) == Uncached(modules, name, func)
      {
        if name in CacheAfter(modules, queries) { CachedUnderFunctionNames(modules, queries, name); }
      }
    }
  }
}
