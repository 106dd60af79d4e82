/** The generator and the loader agree on every index, although no type in the code ties them. */
module Linking {
  import opened Wrappers
  import opened SdkAst
  import opened ItAst
  import opened ExportApi
  import opened Adapters
  import opened GeneratorSpec
  import opened Layout
  import opened Collections
  import opened Loader

  /** The adapter type of implementation `a`: functions take two type entries each, imports three. */
  function AdapterType(n: nat, f: nat, a: nat): nat {
    if a < f then n + 2 * a else n + 2 * f + 3 * (a - f) + 1
  }

  /** The part of the layout that numbering depends on: names and type indexes. */
  ghost predicate Shape(n: nat, interfaces: Interfaces, fns: seq<FnSignature>, decls: seq<ImportDecl>) {
    && HelpersLaid(interfaces)
    && |interfaces.exports| == API_COUNT + |fns|
    && |interfaces.imports| == 2 * |decls|
    && |interfaces.implementations| == |interfaces.adapters| == |fns| + |decls|
    && ExportShape(n, interfaces.exports, fns)
    && ImportShape(n + 2 * |fns|, interfaces.imports, decls)
    && ImplementationShape(n, |fns|, interfaces)
  }

  ghost predicate ExportShape(n: nat, exports: seq<Export>, fns: seq<FnSignature>)
    requires |exports| == API_COUNT + |fns|
  {
    forall j {:trigger fns[j]} :: 0 <= j < |fns| ==> exports[API_COUNT + j] == Export(fns[j].name, n + 2 * j + 1)
  }

  ghost predicate ImportShape(m: nat, imports: seq<Import>, decls: seq<ImportDecl>)
    requires |imports| == 2 * |decls|
  {
    forall k {:trigger decls[k]} :: 0 <= k < |decls| ==>
      && imports[2 * k] == Import(decls[k].namespace, LinkNameOf(decls[k].fn), m + 3 * k)
      && imports[2 * k + 1] == Import(decls[k].namespace, LinkNameOf(decls[k].fn), m + 3 * k + 2)
  }

  ghost predicate ImplementationShape(n: nat, f: nat, interfaces: Interfaces)
    requires |interfaces.implementations| == |interfaces.adapters|
  {
    forall a :: 0 <= a < |interfaces.implementations| ==>
      && interfaces.implementations[a] == Implementation(AdapterType(n, f, a) + 1, AdapterType(n, f, a))
      && interfaces.adapters[a].functionType == AdapterType(n, f, a)
  }

  lemma LaidHasShape(ids: map<string, nat>, n: nat, interfaces: Interfaces, fns: seq<FnSignature>, decls: seq<ImportDecl>)
    requires Laid(ids, n, interfaces, fns, decls)
    ensures Shape(n, interfaces, fns, decls)
  {
    forall a | 0 <= a < |interfaces.implementations|
      ensures interfaces.implementations[a] == Implementation(AdapterType(n, |fns|, a) + 1, AdapterType(n, |fns|, a))
      ensures interfaces.adapters[a].functionType == AdapterType(n, |fns|, a)
    {
      if a < |fns| {
        assert FunctionAt(ids, n, interfaces, fns[a], a);
      } else {
        var k := a - |fns|;
        assert ImportAt(ids, n + 2 * |fns|, |fns|, interfaces, decls[k], k);
      }
    }
  }

  lemma KeysAreDistinct(n: nat, interfaces: Interfaces, fns: seq<FnSignature>, decls: seq<ImportDecl>)
    requires Shape(n, interfaces, fns, decls)
    ensures DistinctKeys(AdapterToCorePairs(interfaces))
    ensures DistinctKeys(CoreToAdapterPairs(interfaces))
    ensures DistinctKeys(AdapterPairs(interfaces))
  {
  }

  // ----- Function numbering -----

  lemma CoreTypesOfImports(n: nat, f: nat, a: nat, k: nat)
    ensures AdapterType(n, f, a) + 1 != n + 2 * f + 3 * k
    ensures AdapterType(n, f, f + k) + 1 == n + 2 * f + 3 * k + 2
  {
  }

  /** Of the two entries of an import only the raw one has an adapter behind it. */
  lemma CoreTypesWithAdapters(n: nat, interfaces: Interfaces, fns: seq<FnSignature>, decls: seq<ImportDecl>, k: nat)
    requires Shape(n, interfaces, fns, decls) && k < |decls|
    ensures n + 2 * |fns| + 3 * k !in NewMIT(interfaces).coreTypeToAdapter
    ensures n + 2 * |fns| + 3 * k + 2 in NewMIT(interfaces).coreTypeToAdapter
  {
    hide AdapterType, HelpersLaid, ExportShape, ImportShape;
    var pairs := CoreToAdapterPairs(interfaces);
    var t := n + 2 * |fns| + 3 * k;
    MultiMapKeys(pairs, t);
    MultiMapKeys(pairs, t + 2);
    forall a | 0 <= a < |pairs|
      ensures pairs[a].0 == AdapterType(n, |fns|, a) + 1 != t
    {
      assert interfaces.implementations[a] == Implementation(AdapterType(n, |fns|, a) + 1, AdapterType(n, |fns|, a));
      CoreTypesOfImports(n, |fns|, a, k);
    }
    CoreTypesOfImports(n, |fns|, 0, k);
    assert pairs[|fns| + k].0 == t + 2;
  }

  function RawImports(imports: seq<Import>, k: nat): seq<Import>
    requires 2 * k <= |imports|
  {
    seq(k, i requires 0 <= i < k => imports[2 * i + 1])
  }

  ghost predicate OnlyRawImplemented(mit: MITInterfaces, imports: seq<Import>, i: nat) {
    && 2 * i + 1 < |imports|
    && imports[2 * i].functionType !in mit.coreTypeToAdapter
    && imports[2 * i + 1].functionType in mit.coreTypeToAdapter
  }

  lemma ImplementedPair(mit: MITInterfaces, imports: seq<Import>, it: Import, raw: Import)
    requires it.functionType !in mit.coreTypeToAdapter && raw.functionType in mit.coreTypeToAdapter
    ensures ImplementedImports(mit, imports + [it] + [raw]) == ImplementedImports(mit, imports) + [raw]
  {
  }

  lemma {:induction false} ImplementedAreRaw(mit: MITInterfaces, imports: seq<Import>, k: nat)
    requires 2 * k <= |imports|
    requires forall i :: 0 <= i < k ==> OnlyRawImplemented(mit, imports, i)
    ensures ImplementedImports(mit, imports[..2 * k]) == RawImports(imports, k)
  {
    if k > 0 {
      var j := k - 1;
      ImplementedAreRaw(mit, imports, j);
      assert OnlyRawImplemented(mit, imports, j);
      ImplementedPair(mit, imports[..2 * j], imports[2 * j], imports[2 * j + 1]);
      assert imports[..2 * j] + [imports[2 * j]] + [imports[2 * j + 1]] == imports[..2 * k];
      assert RawImports(imports, k) == RawImports(imports, j) + [imports[2 * j + 1]];
    }
  }

  lemma AllImplemented(n: nat, interfaces: Interfaces, fns: seq<FnSignature>, decls: seq<ImportDecl>)
    requires Shape(n, interfaces, fns, decls)
    ensures ImplementedImports(NewMIT(interfaces), interfaces.imports) == RawImports(interfaces.imports, |decls|)
  {
    var mit, imports := NewMIT(interfaces), interfaces.imports;
    forall i | 0 <= i < |decls|
      ensures OnlyRawImplemented(mit, imports, i)
    {
      CoreTypesWithAdapters(n, interfaces, fns, decls, i);
      assert imports[2 * i] == Import(decls[i].namespace, LinkNameOf(decls[i].fn), n + 2 * |fns| + 3 * i);
    }
    ImplementedAreRaw(mit, imports, |decls|);
    assert imports[..2 * |decls|] == imports;
  }

  lemma RawExportsLoad<C>(exports: seq<Export>, wasmExports: set<string>)
    ensures ExtractRawExports<C>(exports, wasmExports).Ok? <==> forall e :: 0 <= e < |exports| ==> exports[e].name in wasmExports
  {
    if exports != [] {
      RawExportsLoad<C>(exports[..|exports| - 1], wasmExports);
    }
  }

  ghost predicate RawNumbering<C>(exports: seq<Export>, raw: map<nat, WitFunction<C>>) {
    && |raw| == |exports|
    && (forall i :: i in raw <==> 0 <= i < |exports|)
    && (forall e {:trigger exports[e]} :: 0 <= e < |exports| ==> raw[e] == FromExport(exports[e].name))
  }

  lemma RawExportsNumbered<C>(exports: seq<Export>, wasmExports: set<string>)
    requires ExtractRawExports<C>(exports, wasmExports).Ok?
    ensures RawNumbering(exports, ExtractRawExports<C>(exports, wasmExports).value)
  {
    if exports != [] {
      RawExportsNumbered<C>(exports[..|exports| - 1], wasmExports);
    }
  }

  lemma {:induction false} ImportsLoadEach<C>(mit: MITInterfaces, modules: Modules<C>, imports: seq<Import>, start: nat)
    ensures NumberImports(mit, modules, imports, start).Ok? <==>
            forall k :: 0 <= k < |imports| ==> FromImportDecl(mit, modules, imports[k]).Ok?
  {
    if imports != [] {
      ImportsLoadEach(mit, modules, imports[..|imports| - 1], start);
    }
  }

  ghost predicate ImportNumbering<C>(mit: MITInterfaces, modules: Modules<C>, imports: seq<Import>, start: nat,
                                     linked: map<nat, WitFunction<C>>) {
    && (forall i :: i in linked <==> start <= i < start + |imports|)
    && (forall k {:trigger imports[k]} :: 0 <= k < |imports| ==>
          Ok(linked[start + k]) == FromImportDecl(mit, modules, imports[k]))
  }

  lemma {:induction false} ImportsNumbered<C>(mit: MITInterfaces, modules: Modules<C>, imports: seq<Import>, start: nat)
    requires NumberImports(mit, modules, imports, start).Ok?
    ensures ImportNumbering(mit, modules, imports, start, NumberImports(mit, modules, imports, start).value)
  {
    if imports != [] {
      ImportsNumbered(mit, modules, imports[..|imports| - 1], start);
    }
  }

  /** The function table of an instance: raw exports by position, then implemented imports. */
  ghost predicate Numbered<C>(exports: seq<Export>, imports: seq<Import>, mit: MITInterfaces, modules: Modules<C>,
                              funcs: map<nat, WitFunction<C>>) {
    && (forall i :: i in funcs <==> 0 <= i < |exports| + |imports|)
    && (forall e {:trigger exports[e]} :: 0 <= e < |exports| ==> funcs[e] == FromExport(exports[e].name))
    && (forall k {:trigger imports[k]} :: 0 <= k < |imports| ==>
          Ok(funcs[|exports| + k]) == FromImportDecl(mit, modules, imports[k]))
  }

  lemma InstanceLoads<C>(mit: MITInterfaces, wasmExports: set<string>, modules: Modules<C>, imports: seq<Import>)
    requires imports == ImplementedImports(mit, mit.imports)
    ensures NewInstance(mit, wasmExports, modules).Ok? <==>
            && (forall e :: 0 <= e < |mit.exports| ==> mit.exports[e].name in wasmExports)
            && (forall k :: 0 <= k < |imports| ==> FromImportDecl(mit, modules, imports[k]).Ok?)
  {
    RawExportsLoad<C>(mit.exports, wasmExports);
    if ExtractRawExports<C>(mit.exports, wasmExports).Ok? {
      ImportsLoadEach(mit, modules, imports, |ExtractRawExports<C>(mit.exports, wasmExports).value|);
    }
  }

  lemma MergedNumbering<C>(exports: seq<Export>, imports: seq<Import>, mit: MITInterfaces, modules: Modules<C>,
                           raw: map<nat, WitFunction<C>>, linked: map<nat, WitFunction<C>>)
    requires RawNumbering(exports, raw) && ImportNumbering(mit, modules, imports, |exports|, linked)
    ensures Numbered(exports, imports, mit, modules, raw + linked)
  {
  }

  lemma InstanceNumbered<C>(mit: MITInterfaces, wasmExports: set<string>, modules: Modules<C>, imports: seq<Import>)
    requires imports == ImplementedImports(mit, mit.imports)
    requires NewInstance(mit, wasmExports, modules).Ok?
    ensures Numbered(mit.exports, imports, mit, modules, NewInstance(mit, wasmExports, modules).value)
  {
    var raw := ExtractRawExports<C>(mit.exports, wasmExports).value;
    RawExportsNumbered<C>(mit.exports, wasmExports);
    ImportsNumbered(mit, modules, imports, |mit.exports|);
    MergedNumbering(mit.exports, imports, mit, modules, raw, NumberImports(mit, modules, imports, |mit.exports|).value);
  }

  /** The import adapter's `function_type - 2` is the import's interface-level signature. */
  lemma ImportResolved<C>(ids: map<string, nat>, n: nat, interfaces: Interfaces, fns: seq<FnSignature>,
                          decls: seq<ImportDecl>, modules: Modules<C>, k: nat)
    requires Laid(ids, n, interfaces, fns, decls) && k < |decls|
    ensures 2 * k + 1 < |interfaces.imports|
    ensures FromImportDecl(NewMIT(interfaces), modules, interfaces.imports[2 * k + 1]).Ok? <==>
            decls[k].namespace in modules && LinkNameOf(decls[k].fn) in modules[decls[k].namespace]
    ensures var resolved := FromImportDecl(NewMIT(interfaces), modules, interfaces.imports[2 * k + 1]);
            resolved.Ok? ==> ResolvesTo(ids, decls[k], modules, resolved.value)
  {
    assert ImportAt(ids, n + 2 * |fns|, |fns|, interfaces, decls[k], k);
  }

  ghost predicate ResolvesTo<C>(ids: map<string, nat>, decl: ImportDecl, modules: Modules<C>, func: WitFunction<C>) {
    var link, signature := LinkNameOf(decl.fn), decl.fn.signature;
    && func.FromImport? && func.importName == link
    && decl.namespace in modules && link in modules[decl.namespace]
    && func.callable == modules[decl.namespace][link]
    && ItArgs(signature.arguments, ids) == Some(func.arguments)
    && ItOutputs(signature.outputTypes, ids) == Some(func.outputs)
  }

  ghost predicate HelpersNumbered<C>(funcs: map<nat, WitFunction<C>>) {
    forall h :: 0 <= h < API_COUNT ==> h in funcs && funcs[h] == FromExport(API_FUNCS[h].name)
  }

  ghost predicate FunctionsNumbered<C>(fns: seq<FnSignature>, funcs: map<nat, WitFunction<C>>) {
    forall j {:trigger fns[j]} :: 0 <= j < |fns| ==>
      API_COUNT + j in funcs && funcs[API_COUNT + j] == FromExport(fns[j].name)
  }

  ghost predicate ImportsResolved<C>(ids: map<string, nat>, start: nat, decls: seq<ImportDecl>,
                                     modules: Modules<C>, funcs: map<nat, WitFunction<C>>) {
    forall k {:trigger decls[k]} :: 0 <= k < |decls| ==>
      start + k in funcs && ResolvesTo(ids, decls[k], modules, funcs[start + k])
  }

  /** Every index the generated code calls names the function it was meant for: the helpers at their
      fixed ids, exported function `j` at API_COUNT + j and import `k` after all of them. */
  ghost predicate NumberedAsEmitted<C>(ids: map<string, nat>, fns: seq<FnSignature>, decls: seq<ImportDecl>,
                                       modules: Modules<C>, funcs: map<nat, WitFunction<C>>) {
    && HelpersNumbered(funcs)
    && FunctionsNumbered(fns, funcs)
    && ImportsResolved(ids, API_COUNT + |fns|, decls, modules, funcs)
    && forall i :: i in funcs ==> i < API_COUNT + |fns| + |decls|
  }

  /** Whenever the tables of a module load, every index the generator emitted is right. */
  lemma IndexesAgree<C>(ids: map<string, nat>, n: nat, interfaces: Interfaces, fns: seq<FnSignature>,
                        decls: seq<ImportDecl>, wasmExports: set<string>, modules: Modules<C>)
    requires Laid(ids, n, interfaces, fns, decls)
    requires NewInstance(NewMIT(interfaces), wasmExports, modules).Ok?
    ensures NumberedAsEmitted(ids, fns, decls, modules, NewInstance(NewMIT(interfaces), wasmExports, modules).value)
  {
    LaidHasShape(ids, n, interfaces, fns, decls);
    var raw, funcs := RawImports(interfaces.imports, |decls|), NewInstance(NewMIT(interfaces), wasmExports, modules).value;
    AllImplemented(n, interfaces, fns, decls);
    InstanceNumbered(NewMIT(interfaces), wasmExports, modules, raw);
    ExportsNumberedAsEmitted(n, interfaces, fns, decls, raw, modules, funcs);
    ImportsNumberedAsEmitted(ids, n, interfaces, fns, decls, raw, modules, funcs);
  }

  lemma ExportsNumberedAsEmitted<C>(
      n: nat, interfaces: Interfaces, fns: seq<FnSignature>, decls: seq<ImportDecl>,
      raw: seq<Import>, modules: Modules<C>, funcs: map<nat, WitFunction<C>>)
    requires Shape(n, interfaces, fns, decls)
    requires Numbered(interfaces.exports, raw, NewMIT(interfaces), modules, funcs)
    ensures HelpersNumbered(funcs) && FunctionsNumbered(fns, funcs)
  {
  }

  lemma ImportsNumberedAsEmitted<C>(
      ids: map<string, nat>, n: nat, interfaces: Interfaces, fns: seq<FnSignature>, decls: seq<ImportDecl>,
      raw: seq<Import>, modules: Modules<C>, funcs: map<nat, WitFunction<C>>)
    requires Laid(ids, n, interfaces, fns, decls) && |interfaces.exports| == API_COUNT + |fns|
    requires |interfaces.imports| == 2 * |decls| && raw == RawImports(interfaces.imports, |decls|)
    requires Numbered(interfaces.exports, raw, NewMIT(interfaces), modules, funcs)
    ensures ImportsResolved(ids, API_COUNT + |fns|, decls, modules, funcs)
  {
    hide Laid, NewMIT, ResolvesTo, FromImportDecl;
    forall k | 0 <= k < |decls|
      ensures API_COUNT + |fns| + k in funcs && ResolvesTo(ids, decls[k], modules, funcs[API_COUNT + |fns| + k])
    {
      ImportResolved(ids, n, interfaces, fns, decls, modules, k);
      assert raw[k] == interfaces.imports[2 * k + 1];
      assert |interfaces.exports| + k in funcs;
    }
  }

  /** Loading succeeds exactly when the Wasm module exports every listed name and every import finds
      its module and its function there. */
  lemma LoadsExactlyWhen<C>(ids: map<string, nat>, n: nat, interfaces: Interfaces, fns: seq<FnSignature>,
                            decls: seq<ImportDecl>, wasmExports: set<string>, modules: Modules<C>)
    requires Laid(ids, n, interfaces, fns, decls)
    ensures NewInstance(NewMIT(interfaces), wasmExports, modules).Ok? <==>
            && (forall h :: 0 <= h < API_COUNT ==> API_FUNCS[h].name in wasmExports)
            && (forall j :: 0 <= j < |fns| ==> fns[j].name in wasmExports)
            && (forall k :: 0 <= k < |decls| ==>
                  decls[k].namespace in modules && LinkNameOf(decls[k].fn) in modules[decls[k].namespace])
  {
    LaidHasShape(ids, n, interfaces, fns, decls);
    AllImplemented(n, interfaces, fns, decls);
    var raw := RawImports(interfaces.imports, |decls|);
    InstanceLoads(NewMIT(interfaces), wasmExports, modules, raw);
    ExportNamesLoad(n, interfaces, fns, decls, wasmExports);
    ImportsLoad(ids, n, interfaces, fns, decls, modules);
  }

  lemma ImportsLoad<C>(ids: map<string, nat>, n: nat, interfaces: Interfaces, fns: seq<FnSignature>,
                       decls: seq<ImportDecl>, modules: Modules<C>)
    requires Laid(ids, n, interfaces, fns, decls) && |interfaces.imports| == 2 * |decls|
    ensures var raw := RawImports(interfaces.imports, |decls|);
            (forall k :: 0 <= k < |raw| ==> FromImportDecl(NewMIT(interfaces), modules, raw[k]).Ok?) <==>
            (forall k :: 0 <= k < |decls| ==>
                decls[k].namespace in modules && LinkNameOf(decls[k].fn) in modules[decls[k].namespace])
  {
    hide Laid, NewMIT, FromImportDecl, ResolvesTo;
    var raw := RawImports(interfaces.imports, |decls|);
    forall k | 0 <= k < |decls|
      ensures FromImportDecl(NewMIT(interfaces), modules, raw[k]).Ok? <==>
              decls[k].namespace in modules && LinkNameOf(decls[k].fn) in modules[decls[k].namespace]
    {
      ImportResolved(ids, n, interfaces, fns, decls, modules, k);
    }
  }

  lemma ExportNamesLoad(n: nat, interfaces: Interfaces, fns: seq<FnSignature>,
                        decls: seq<ImportDecl>, wasmExports: set<string>)
    requires Shape(n, interfaces, fns, decls)
    ensures (forall e :: 0 <= e < |interfaces.exports| ==> interfaces.exports[e].name in wasmExports) <==>
            && (forall h :: 0 <= h < API_COUNT ==> API_FUNCS[h].name in wasmExports)
            && (forall j :: 0 <= j < |fns| ==> fns[j].name in wasmExports)
  {
    var exports := interfaces.exports;
    if forall e :: 0 <= e < |exports| ==> exports[e].name in wasmExports {
      forall h | 0 <= h < API_COUNT ensures API_FUNCS[h].name in wasmExports {
        assert exports[h].name in wasmExports;
      }
      forall j | 0 <= j < |fns| ensures fns[j].name in wasmExports {
        assert exports[API_COUNT + j].name in wasmExports;
      }
    } else {
      var e :| 0 <= e < |exports| && exports[e].name !in wasmExports;
      if e >= API_COUNT {
        var j := e - API_COUNT;
        assert exports[e].name == fns[j].name;
      }
    }
  }
}
