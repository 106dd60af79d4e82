/** Where everything ends up in the generated tables, entry by entry. */
module Layout {
  import opened Wrappers
  import opened ITypes
  import opened SdkAst
  import opened ItAst
  import opened ExportApi
  import opened RecordTable
  import opened Adapters
  import opened GeneratorSpec

  datatype ImportDecl = ImportDecl(namespace: string, fn: ExternFn)

  function Declared(namespace: string, fns: seq<ExternFn>): (r: seq<ImportDecl>)
    ensures |r| == |fns|
  {
    seq(|fns|, i requires 0 <= i < |fns| => ImportDecl(namespace, fns[i]))
  }

  function ModDecls(extern: ExternMod): seq<ImportDecl> {
    if IsHostImport(extern.namespace) then [] else Declared(extern.namespace, extern.imports)
  }

  /** The imports of an AST in order, host imports left out. */
  function ImportDecls(mods: seq<ExternMod>): seq<ImportDecl> {
    if mods == [] then [] else ModDecls(mods[0]) + ImportDecls(mods[1..])
  }

  /** The table entries of exported function `j`, with `n` type entries in front of the functions. */
  ghost predicate FunctionAt(ids: map<string, nat>, n: nat, interfaces: Interfaces, fn: FnSignature, j: nat) {
    var t, e := n + 2 * j, API_COUNT + j;
    && t + 1 < |interfaces.types| && e < |interfaces.exports|
    && j < |interfaces.adapters| && j < |interfaces.implementations|
    && interfaces.types[t].Function?
    && ItArgs(fn.arguments, ids) == Some(interfaces.types[t].arguments)
    && ItOutputs(fn.outputTypes, ids) == Some(interfaces.types[t].outputTypes)
    && interfaces.types[t + 1] == interfaces.types[t]
    && interfaces.exports[e] == Export(fn.name, t + 1)
    && interfaces.adapters[j].functionType == t
    && ExportCode(fn, e, ids) == Some(interfaces.adapters[j].instructions)
    && interfaces.implementations[j] == Implementation(t + 1, t)
  }

  /** The table entries of import `k`, with `m` type entries and `f` functions in front of the imports. */
  ghost predicate ImportAt(ids: map<string, nat>, m: nat, f: nat, interfaces: Interfaces, decl: ImportDecl, k: nat) {
    var t, fn := m + 3 * k, decl.fn;
    && t + 2 < |interfaces.types| && 2 * k + 1 < |interfaces.imports|
    && f + k < |interfaces.adapters| && f + k < |interfaces.implementations|
    && interfaces.types[t].Function?
    && ItArgs(fn.signature.arguments, ids) == Some(interfaces.types[t].arguments)
    && ItOutputs(fn.signature.outputTypes, ids) == Some(interfaces.types[t].outputTypes)
    && interfaces.types[t + 1] == AstType.Function(RawArgs(fn.signature.arguments), RawOutputs(fn.signature.outputTypes))
    && interfaces.types[t + 2] == interfaces.types[t + 1]
    && interfaces.imports[2 * k] == Import(decl.namespace, LinkNameOf(fn), t)
    && interfaces.imports[2 * k + 1] == Import(decl.namespace, LinkNameOf(fn), t + 2)
    && interfaces.adapters[f + k].functionType == t + 1
    && ImportCode(fn.signature, API_COUNT + f + k, ids) == Some(interfaces.adapters[f + k].instructions)
    && interfaces.implementations[f + k] == Implementation(t + 2, t + 1)
  }

  /** The tables once the functions `fns` are in, after `n` types. */
  ghost predicate FunctionsLaid(ids: map<string, nat>, n: nat, interfaces: Interfaces, fns: seq<FnSignature>) {
    && |interfaces.types| == n + 2 * |fns|
    && |interfaces.exports| == API_COUNT + |fns|
    && |interfaces.adapters| == |interfaces.implementations| == |fns|
    && interfaces.imports == []
    && forall j {:trigger fns[j]} :: 0 <= j < |fns| ==> FunctionAt(ids, n, interfaces, fns[j], j)
  }

  /** The tables once the imports `decls` are in as well, after `m` types and `f` functions. */
  ghost predicate ImportsLaid(ids: map<string, nat>, m: nat, f: nat, interfaces: Interfaces, decls: seq<ImportDecl>) {
    && |interfaces.types| == m + 3 * |decls|
    && |interfaces.exports| == API_COUNT + f
    && |interfaces.adapters| == |interfaces.implementations| == f + |decls|
    && |interfaces.imports| == 2 * |decls|
    && forall k {:trigger decls[k]} :: 0 <= k < |decls| ==> ImportAt(ids, m, f, interfaces, decls[k], k)
  }

  /** Table entries are never moved or rewritten once the records are done. */
  ghost predicate Keeps(a: Interfaces, b: Interfaces) {
    a.types <= b.types && a.imports <= b.imports && a.adapters <= b.adapters
    && a.exports <= b.exports && a.implementations <= b.implementations
  }

  lemma FunctionAtKept(ids: map<string, nat>, n: nat, a: Interfaces, b: Interfaces, fn: FnSignature, j: nat)
    requires FunctionAt(ids, n, a, fn, j) && Keeps(a, b)
    ensures FunctionAt(ids, n, b, fn, j)
  {
  }

  lemma ImportAtKept(ids: map<string, nat>, m: nat, f: nat, a: Interfaces, b: Interfaces, decl: ImportDecl, k: nat)
    requires ImportAt(ids, m, f, a, decl, k) && Keeps(a, b)
    ensures ImportAt(ids, m, f, b, decl, k)
  {
  }

  lemma AddFunctionLays(ids: map<string, nat>, n: nat, a: Interfaces, b: Interfaces, done: seq<FnSignature>, fn: FnSignature)
    requires FunctionsLaid(ids, n, a, done) && AddFunction(ids, a, fn) == Some(b)
    ensures Keeps(a, b) && FunctionsLaid(ids, n, b, done + [fn])
  {
    forall j | 0 <= j < |done|
      ensures FunctionAt(ids, n, b, done[j], j)
    {
      FunctionAtKept(ids, n, a, b, done[j], j);
    }
    assert FunctionAt(ids, n, b, fn, |done|);
  }

  lemma {:induction false} AddFunctionsLays(ids: map<string, nat>, n: nat, a: Interfaces, b: Interfaces,
                                            done: seq<FnSignature>, fns: seq<FnSignature>)
    requires FunctionsLaid(ids, n, a, done) && AddFunctions(ids, a, fns) == Some(b)
    ensures Keeps(a, b) && FunctionsLaid(ids, n, b, done + fns)
    decreases |fns|
  {
    if fns == [] {
      assert done + fns == done;
    } else {
      var next := AddFunction(ids, a, fns[0]).value;
      assert done + [fns[0]] + fns[1..] == done + fns;
      assert Keeps(a, next) && FunctionsLaid(ids, n, next, done + [fns[0]]) by {
        AddFunctionLays(ids, n, a, next, done, fns[0]);
      }
      AddFunctionsLays(ids, n, next, b, done + [fns[0]], fns[1..]);
    }
  }

  lemma AddImportLays(ids: map<string, nat>, m: nat, f: nat, a: Interfaces, b: Interfaces,
                      done: seq<ImportDecl>, namespace: string, fn: ExternFn)
    requires ImportsLaid(ids, m, f, a, done) && AddImport(ids, a, namespace, fn) == Some(b)
    ensures Keeps(a, b) && ImportsLaid(ids, m, f, b, done + [ImportDecl(namespace, fn)])
  {
    forall k | 0 <= k < |done|
      ensures ImportAt(ids, m, f, b, done[k], k)
    {
      ImportAtKept(ids, m, f, a, b, done[k], k);
    }
    assert ImportAt(ids, m, f, b, ImportDecl(namespace, fn), |done|);
  }

  lemma {:induction false} AddImportsLays(ids: map<string, nat>, m: nat, f: nat, a: Interfaces, b: Interfaces,
                                          done: seq<ImportDecl>, namespace: string, fns: seq<ExternFn>)
    requires ImportsLaid(ids, m, f, a, done) && AddImports(ids, a, namespace, fns) == Some(b)
    ensures Keeps(a, b) && ImportsLaid(ids, m, f, b, done + Declared(namespace, fns))
    decreases |fns|
  {
    if fns == [] {
      assert done + Declared(namespace, fns) == done;
    } else {
      var next, decl := AddImport(ids, a, namespace, fns[0]).value, ImportDecl(namespace, fns[0]);
      assert done + [decl] + Declared(namespace, fns[1..]) == done + Declared(namespace, fns);
      assert Keeps(a, next) && ImportsLaid(ids, m, f, next, done + [decl]) by {
        AddImportLays(ids, m, f, a, next, done, namespace, fns[0]);
      }
      AddImportsLays(ids, m, f, next, b, done + [decl], namespace, fns[1..]);
    }
  }

  lemma Associate<T>(a: seq<T>, b: seq<T>, c: seq<T>)
    ensures a + b + c == a + (b + c)
  {
  }

  lemma AddExternModLays(ids: map<string, nat>, m: nat, f: nat, a: Interfaces, b: Interfaces,
                         done: seq<ImportDecl>, extern: ExternMod)
    requires ImportsLaid(ids, m, f, a, done) && AddExternMod(ids, a, extern) == Some(b)
    ensures Keeps(a, b) && ImportsLaid(ids, m, f, b, done + ModDecls(extern))
  {
    if IsHostImport(extern.namespace) {
      assert done + ModDecls(extern) == done;
    } else {
      AddImportsLays(ids, m, f, a, b, done, extern.namespace, extern.imports);
    }
  }

  lemma {:induction false} AddExternModsLays(ids: map<string, nat>, m: nat, f: nat, a: Interfaces, b: Interfaces,
                                             done: seq<ImportDecl>, mods: seq<ExternMod>)
    requires ImportsLaid(ids, m, f, a, done) && AddExternMods(ids, a, mods) == Some(b)
    ensures Keeps(a, b) && ImportsLaid(ids, m, f, b, done + ImportDecls(mods))
    decreases |mods|
  {
    if mods == [] {
      assert done + ImportDecls(mods) == done;
    } else {
      var next, first := AddExternMod(ids, a, mods[0]).value, ModDecls(mods[0]);
      var rest := ImportDecls(mods[1..]);
      Associate(done, first, rest);
      assert Keeps(a, next) && ImportsLaid(ids, m, f, next, done + first) by {
        AddExternModLays(ids, m, f, a, next, done, mods[0]);
      }
      AddExternModsLays(ids, m, f, next, b, done + first, mods[1..]);
    }
  }

  ghost predicate HelpersLaid(interfaces: Interfaces) {
    |interfaces.exports| >= API_COUNT
    && forall h :: 0 <= h < API_COUNT ==> interfaces.exports[h] == Export(API_FUNCS[h].name, h)
  }

  ghost predicate RecordsLaid(n: nat, interfaces: Interfaces) {
    API_COUNT <= n <= |interfaces.types|
    && forall i :: 0 <= i < n ==> interfaces.types[i].Record? == (i >= API_COUNT)
  }

  ghost predicate FunctionsAt(ids: map<string, nat>, n: nat, interfaces: Interfaces, fns: seq<FnSignature>) {
    forall j {:trigger fns[j]} :: 0 <= j < |fns| ==> FunctionAt(ids, n, interfaces, fns[j], j)
  }

  /** The complete tables of a module: helpers, `n - API_COUNT` records, functions, imports. */
  ghost predicate Laid(ids: map<string, nat>, n: nat, interfaces: Interfaces, fns: seq<FnSignature>, decls: seq<ImportDecl>) {
    && HelpersLaid(interfaces)
    && RecordsLaid(n, interfaces)
    && FunctionsAt(ids, n, interfaces, fns)
    && ImportsLaid(ids, n + 2 * |fns|, |fns|, interfaces, decls)
  }

  lemma KeptEntries(a: Interfaces, b: Interfaces, c: Interfaces)
    requires Keeps(a, b) && Keeps(b, c)
    ensures a.types <= c.types && a.exports <= c.exports
  {
  }

  lemma FunctionsKept(ids: map<string, nat>, n: nat, a: Interfaces, b: Interfaces, fns: seq<FnSignature>)
    requires FunctionsLaid(ids, n, a, fns) && Keeps(a, b)
    ensures FunctionsAt(ids, n, b, fns)
  {
    forall j | 0 <= j < |fns|
      ensures FunctionAt(ids, n, b, fns[j], j)
    {
      FunctionAtKept(ids, n, a, b, fns[j], j);
    }
  }

  lemma AllFunctionsLaid(ids: map<string, nat>, n: nat, a: Interfaces, b: Interfaces, fns: seq<FnSignature>)
    requires FunctionsLaid(ids, n, a, []) && AddFunctions(ids, a, fns) == Some(b)
    ensures Keeps(a, b) && FunctionsLaid(ids, n, b, fns)
  {
    assert [] + fns == fns;
    AddFunctionsLays(ids, n, a, b, [], fns);
  }

  lemma AllImportsLaid(ids: map<string, nat>, n: nat, a: Interfaces, b: Interfaces, fns: seq<FnSignature>,
                       mods: seq<ExternMod>)
    requires FunctionsLaid(ids, n, a, fns) && AddExternMods(ids, a, mods) == Some(b)
    ensures Keeps(a, b) && ImportsLaid(ids, n + 2 * |fns|, |fns|, b, ImportDecls(mods))
  {
    assert [] + ImportDecls(mods) == ImportDecls(mods);
    AddExternModsLays(ids, n + 2 * |fns|, |fns|, a, b, [], mods);
  }

  lemma AfterFunctions(ids: map<string, nat>, n: nat, a: Interfaces, exported: Interfaces, final: Interfaces,
                       fns: seq<FnSignature>, mods: seq<ExternMod>)
    requires FunctionsLaid(ids, n, a, []) && AddFunctions(ids, a, fns) == Some(exported)
    requires AddExternMods(ids, exported, mods) == Some(final)
    ensures a.types <= final.types && a.exports <= final.exports
    ensures FunctionsAt(ids, n, final, fns)
    ensures ImportsLaid(ids, n + 2 * |fns|, |fns|, final, ImportDecls(mods))
  {
    AllFunctionsLaid(ids, n, a, exported, fns);
    AllImportsLaid(ids, n, exported, final, fns, mods);
    KeptEntries(a, exported, final);
    FunctionsKept(ids, n, exported, final, fns);
  }

  lemma HelpersKept(a: Interfaces, b: Interfaces)
    requires HelpersLaid(a) && a.exports <= b.exports
    ensures HelpersLaid(b)
  {
  }

  lemma RecordsKept(api: seq<AstType>, t: Table, final: Interfaces)
    requires |api| == API_COUNT && forall h :: 0 <= h < API_COUNT ==> api[h].Function?
    requires Sound(api, t.ids, t.types) && t.types <= final.types
    ensures RecordsLaid(|t.types|, final)
  {
  }

  lemma LaidFrom(api: Interfaces, t: Table, exported: Interfaces, final: Interfaces,
                 fns: seq<FnSignature>, mods: seq<ExternMod>)
    requires HelpersLaid(api) && |api.types| == |api.exports| == API_COUNT
    requires forall h :: 0 <= h < API_COUNT ==> api.types[h].Function?
    requires api.imports == [] && api.adapters == [] && api.implementations == []
    requires Sound(api.types, t.ids, t.types)
    requires AddFunctions(t.ids, api.(types := t.types), fns) == Some(exported)
    requires AddExternMods(t.ids, exported, mods) == Some(final)
    ensures Laid(t.ids, |t.types|, final, fns, ImportDecls(mods))
    ensures t.types <= final.types
  {
    hide AddFunctions, AddExternMods, FunctionsAt, ImportsLaid, RecordsLaid;
    var a := api.(types := t.types);
    assert t.types <= final.types && api.exports <= final.exports && FunctionsAt(t.ids, |t.types|, final, fns)
           && ImportsLaid(t.ids, |t.types| + 2 * |fns|, |fns|, final, ImportDecls(mods)) by {
      assert FunctionsLaid(t.ids, |t.types|, a, []);
      AfterFunctions(t.ids, |t.types|, a, exported, final, fns, mods);
    }
    HelpersKept(api, final);
    RecordsKept(api.types, t, final);
  }

  /** Every successful run lays its tables out this way, and keeps the record slots as registered. */
  lemma GeneratedIsLaid(ast: ModuleAst)
    requires Generate(ast).Generated?
    ensures Laid(RecordIds(ast), |RecordSlots(ast)|, Generate(ast).interfaces, ast.functions, ImportDecls(ast.externMods))
    ensures RecordSlots(ast) <= Generate(ast).interfaces.types
  {
    var api := DefaultExportApi();
    var t := RegisterAll(Start(api.types), ast.records).value;
    RegisterAllHolds(api.types, ast.records);
    var exported := AddFunctions(t.ids, api.(types := t.types), ast.functions).value;
    LaidFrom(api, t, exported, Generate(ast).interfaces, ast.functions, ast.externMods);
  }
}
