/** Reading the generated tables back: the exported interface and the adapters put into the linker. */
module InterfaceRecovery {
  import opened Wrappers
  import opened ITypes
  import opened SdkAst
  import opened ItAst
  import opened ExportApi
  import opened Adapters
  import opened GeneratorSpec
  import opened Layout
  import opened Collections
  import opened Loader
  import opened Linking

  /** The adapter types in table order; a hash map may yield them in any other. */
  function TableOrder(n: nat, f: nat, count: nat): seq<nat> {
    seq(count, a requires 0 <= a < count => AdapterType(n, f, a))
  }

  lemma TableOrderEnumerates(n: nat, interfaces: Interfaces, fns: seq<FnSignature>, decls: seq<ImportDecl>)
    requires Shape(n, interfaces, fns, decls)
    ensures Enumerates(TableOrder(n, |fns|, |fns| + |decls|), NewMIT(interfaces).adapterTypeToCore.Keys)
  {
    var order, pairs := TableOrder(n, |fns|, |fns| + |decls|), AdapterToCorePairs(interfaces);
    assert forall a :: 0 <= a < |order| ==> pairs[a].0 == order[a] by {
      assert forall a :: 0 <= a < |order| ==> interfaces.implementations[a].adapterFunctionType == AdapterType(n, |fns|, a);
    }
    forall k | k in order
      ensures k in NewMIT(interfaces).adapterTypeToCore
    {
      var a :| 0 <= a < |order| && order[a] == k;
      assert pairs[a].0 == k;
      MultiMapKeys(pairs, k);
    }
    forall k | k in NewMIT(interfaces).adapterTypeToCore
      ensures k in order
    {
      MultiMapKeys(pairs, k);
      var a :| 0 <= a < |pairs| && pairs[a].0 == k;
      assert order[a] == k;
    }
  }

  lemma CoreOfAdapter(n: nat, interfaces: Interfaces, fns: seq<FnSignature>, decls: seq<ImportDecl>, a: nat)
    requires Shape(n, interfaces, fns, decls) && a < |fns| + |decls|
    ensures var mit, t := NewMIT(interfaces), AdapterType(n, |fns|, a);
            t in mit.adapterTypeToCore && mit.adapterTypeToCore[t] == [t + 1]
  {
    KeysAreDistinct(n, interfaces, fns, decls);
    MultiMapOfDistinct(AdapterToCorePairs(interfaces), a);
    assert interfaces.implementations[a] == Implementation(AdapterType(n, |fns|, a) + 1, AdapterType(n, |fns|, a));
  }

  // ----- Exports -----

  /** The export table's type indexes: helpers 0 to 5, functions at every second entry from `n` on. */
  lemma ExportKeys(n: nat, interfaces: Interfaces, fns: seq<FnSignature>, decls: seq<ImportDecl>)
    requires Shape(n, interfaces, fns, decls) && n >= API_COUNT
    ensures DistinctKeys(ExportPairs(interfaces))
    ensures forall j {:trigger fns[j]} :: 0 <= j < |fns| ==> ExportPairs(interfaces)[API_COUNT + j] == (n + 2 * j + 1, fns[j].name)
    ensures forall e :: 0 <= e < |interfaces.exports| ==> ExportPairs(interfaces)[e].0 < n + 2 * |fns|
  {
    var pairs := ExportPairs(interfaces);
    forall e | 0 <= e < |interfaces.exports|
      ensures pairs[e].0 == if e < API_COUNT then e else n + 2 * (e - API_COUNT) + 1
    {
      if e < API_COUNT {
        assert interfaces.exports[e] == Export(API_FUNCS[e].name, e);
      } else {
        var j := e - API_COUNT;
        assert interfaces.exports[API_COUNT + j] == Export(fns[j].name, n + 2 * j + 1);
      }
    }
  }

  lemma DescriptorsOf(n: nat, interfaces: Interfaces, fns: seq<FnSignature>, decls: seq<ImportDecl>, a: nat)
    requires Shape(n, interfaces, fns, decls) && n >= API_COUNT && a < |fns| + |decls|
    ensures DescriptorsFor(NewMIT(interfaces), AdapterType(n, |fns|, a)) ==
            if a < |fns| then [ExportDescriptor(n + 2 * a, fns[a].name)] else []
  {
    var mit, t, pairs := NewMIT(interfaces), AdapterType(n, |fns|, a), ExportPairs(interfaces);
    CoreOfAdapter(n, interfaces, fns, decls, a);
    ExportKeys(n, interfaces, fns, decls);
    if a < |fns| {
      assert pairs[API_COUNT + a] == (n + 2 * a + 1, fns[a].name);
      MultiMapOfDistinct(pairs, API_COUNT + a);
    } else {
      MultiMapKeys(pairs, t + 1);
    }
  }

  function SignaturesByKey(mit: MITInterfaces): nat -> seq<IFunctionSignature> {
    (k: nat) => match Signatures(mit, DescriptorsFor(mit, k)) case Ok(s) => s case Err(_) => []
  }

  lemma {:induction false} SignaturesConcat(mit: MITInterfaces, a: seq<ExportDescriptor>, b: seq<ExportDescriptor>)
    requires Signatures(mit, a).Ok? && Signatures(mit, b).Ok?
    ensures Signatures(mit, a + b) == Ok(Signatures(mit, a).value + Signatures(mit, b).value)
  {
    if a == [] {
      assert a + b == b;
      assert [] + Signatures(mit, b).value == Signatures(mit, b).value;
    } else {
      assert (a + b)[0] == a[0] && (a + b)[1..] == a[1..] + b;
      SignaturesConcat(mit, a[1..], b);
      var s := SignatureOf(mit, a[0]).value;
      assert [s] + (Signatures(mit, a[1..]).value + Signatures(mit, b).value) ==
             [s] + Signatures(mit, a[1..]).value + Signatures(mit, b).value;
    }
  }

  lemma {:induction false} SignaturesFlatten(mit: MITInterfaces, order: seq<nat>)
    requires forall k :: k in order ==> Signatures(mit, DescriptorsFor(mit, k)).Ok?
    ensures ExportFuncs(mit, order) == Ok(FlatMap(order, SignaturesByKey(mit)))
  {
    if order != [] {
      assert order[0] in order;
      SignaturesFlatten(mit, order[1..]);
      SignaturesConcat(mit, DescriptorsFor(mit, order[0]), ExportDescriptors(mit, order[1..]));
    }
  }

  /** The exported functions of the AST with their interface-level signatures, in AST order. */
  ghost function AstInterface(n: nat, interfaces: Interfaces, fns: seq<FnSignature>): seq<IFunctionSignature>
    requires forall j :: 0 <= j < |fns| ==> n + 2 * j < |interfaces.types| && interfaces.types[n + 2 * j].Function?
  {
    seq(|fns|, j requires 0 <= j < |fns| =>
      IFunctionSignature(fns[j].name, interfaces.types[n + 2 * j].arguments, interfaces.types[n + 2 * j].outputTypes, n + 2 * j))
  }

  lemma FunctionTypesInPlace(ids: map<string, nat>, n: nat, interfaces: Interfaces, fns: seq<FnSignature>)
    requires FunctionsAt(ids, n, interfaces, fns)
    ensures forall j :: 0 <= j < |fns| ==> n + 2 * j < |interfaces.types| && interfaces.types[n + 2 * j].Function?
    ensures forall j {:trigger fns[j]} :: 0 <= j < |fns| ==>
              ItArgs(fns[j].arguments, ids) == Some(AstInterface(n, interfaces, fns)[j].arguments) &&
              ItOutputs(fns[j].outputTypes, ids) == Some(AstInterface(n, interfaces, fns)[j].outputs)
  {
    forall j | 0 <= j < |fns|
      ensures n + 2 * j < |interfaces.types| && interfaces.types[n + 2 * j].Function?
      ensures ItArgs(fns[j].arguments, ids) == Some(interfaces.types[n + 2 * j].arguments)
      ensures ItOutputs(fns[j].outputTypes, ids) == Some(interfaces.types[n + 2 * j].outputTypes)
    {
      assert FunctionAt(ids, n, interfaces, fns[j], j);
    }
  }

  lemma SignaturesAt(n: nat, interfaces: Interfaces, fns: seq<FnSignature>, decls: seq<ImportDecl>, a: nat)
    requires Shape(n, interfaces, fns, decls) && n >= API_COUNT && a < |fns| + |decls|
    requires forall j :: 0 <= j < |fns| ==> n + 2 * j < |interfaces.types| && interfaces.types[n + 2 * j].Function?
    ensures Signatures(NewMIT(interfaces), DescriptorsFor(NewMIT(interfaces), AdapterType(n, |fns|, a))) ==
            Ok(if a < |fns| then [AstInterface(n, interfaces, fns)[a]] else [])
  {
    DescriptorsOf(n, interfaces, fns, decls, a);
    if a < |fns| {
      var d := ExportDescriptor(n + 2 * a, fns[a].name);
      assert [d][0] == d && [d][1..] == [];
      assert SignatureOf(NewMIT(interfaces), d) == Ok(AstInterface(n, interfaces, fns)[a]);
      assert Signatures(NewMIT(interfaces), [d][1..]) == Ok([]);
      assert [AstInterface(n, interfaces, fns)[a]] + [] == [AstInterface(n, interfaces, fns)[a]];
    }
  }

  lemma InterfaceInTableOrder(n: nat, interfaces: Interfaces, fns: seq<FnSignature>, decls: seq<ImportDecl>)
    requires Shape(n, interfaces, fns, decls) && n >= API_COUNT
    requires forall j :: 0 <= j < |fns| ==> n + 2 * j < |interfaces.types| && interfaces.types[n + 2 * j].Function?
    ensures FlatMap(TableOrder(n, |fns|, |fns| + |decls|), SignaturesByKey(NewMIT(interfaces))) == AstInterface(n, interfaces, fns)
  {
    var order, g := TableOrder(n, |fns|, |fns| + |decls|), SignaturesByKey(NewMIT(interfaces));
    forall a | 0 <= a < |order|
      ensures g(order[a]) == if 0 <= a < |fns| then [AstInterface(n, interfaces, fns)[a]] else []
    {
      SignaturesAt(n, interfaces, fns, decls, a);
    }
    FlatMapStretch(order, g, 0, AstInterface(n, interfaces, fns));
  }

  /** Whatever the iteration order, reading the exports back gives the AST's functions, each once:
      no helper, no import. */
  lemma InterfaceIsRecovered(ids: map<string, nat>, n: nat, interfaces: Interfaces, fns: seq<FnSignature>,
                             decls: seq<ImportDecl>, order: seq<nat>)
    requires Laid(ids, n, interfaces, fns, decls)
    requires Enumerates(order, NewMIT(interfaces).adapterTypeToCore.Keys)
    ensures forall j :: 0 <= j < |fns| ==> n + 2 * j < |interfaces.types| && interfaces.types[n + 2 * j].Function?
    ensures ExportFuncs(NewMIT(interfaces), order).Ok?
    ensures multiset(ExportFuncs(NewMIT(interfaces), order).value) == multiset(AstInterface(n, interfaces, fns))
  {
    var mit, table := NewMIT(interfaces), TableOrder(n, |fns|, |fns| + |decls|);
    LaidHasShape(ids, n, interfaces, fns, decls);
    FunctionTypesInPlace(ids, n, interfaces, fns);
    TableOrderEnumerates(n, interfaces, fns, decls);
    forall k | k in order
      ensures Signatures(mit, DescriptorsFor(mit, k)).Ok?
    {
      assert k in table;
      var a :| 0 <= a < |table| && table[a] == k;
      SignaturesAt(n, interfaces, fns, decls, a);
    }
    SignaturesFlatten(mit, order);
    FlatMapOrder(order, table, mit.adapterTypeToCore.Keys, SignaturesByKey(mit));
    InterfaceInTableOrder(n, interfaces, fns, decls);
  }

  // ----- Imports -----

  lemma {:induction false} RawTypesHaveWTypes(args: seq<FnArgument>)
    ensures WTypes(TypesOf(RawArgs(args))).Some?
  {
    if args != [] {
      RawTypesHaveWTypes(args[1..]);
      var head, rest := ToRawInputTypes(args[0]), RawArgs(args[1..]);
      WTypesConcat(TypesOf(head), TypesOf(rest));
      assert TypesOf(head) + TypesOf(rest) == TypesOf(head + rest);
      assert WTypes(TypesOf(head)).Some? by {
        assert TypesOf(head) == RawInputTypes(args[0].ty);
        RawInputHasWTypes(args[0].ty);
      }
    }
  }

  lemma RawInputHasWTypes(pty: ParsedType)
    ensures WTypes(RawInputTypes(pty)).Some?
    ensures |WTypes(RawInputTypes(pty)).value| == Width(pty)
  {
    var types := RawInputTypes(pty);
    WTypesOne(types[0]);
    if |types| == 2 {
      WTypesOne(types[1]);
      WTypesConcat([types[0]], [types[1]]);
      assert types == [types[0]] + [types[1]];
    } else {
      assert types == [types[0]];
    }
  }

  lemma WTypesOne(ty: IType)
    requires ITypeToWType(ty).Some?
    ensures WTypes([ty]) == Some([ITypeToWType(ty).value])
  {
    assert [ty][1..] == [];
    assert [ITypeToWType(ty).value] + [] == [ITypeToWType(ty).value];
  }

  lemma {:induction false} WTypesConcat(a: seq<IType>, b: seq<IType>)
    ensures WTypes(a).Some? && WTypes(b).Some? ==> WTypes(a + b) == Some(WTypes(a).value + WTypes(b).value)
  {
    if a == [] {
      assert a + b == b;
      if WTypes(b).Some? { assert [] + WTypes(b).value == WTypes(b).value; }
    } else {
      assert (a + b)[0] == a[0] && (a + b)[1..] == a[1..] + b;
      WTypesConcat(a[1..], b);
      if WTypes(a).Some? && WTypes(b).Some? {
        var t := ITypeToWType(a[0]).value;
        assert [t] + (WTypes(a[1..]).value + WTypes(b).value) == [t] + WTypes(a[1..]).value + WTypes(b).value;
      }
    }
  }

  lemma {:induction false} RawOutputsHaveWTypes(outputs: seq<ParsedType>)
    ensures WTypes(RawOutputs(outputs)).Some?
  {
    if outputs != [] {
      RawOutputsHaveWTypes(outputs[1..]);
      var head := ToRawOutputType(outputs[0]);
      WTypesConcat(head, RawOutputs(outputs[1..]));
      if head != [] {
        assert head == [head[0]];
        WTypesOne(head[0]);
      }
    }
  }

  /** Type conversion at link time is total on generated signatures. */
  lemma RawSignaturesLink(signature: FnSignature)
    ensures WTypes(TypesOf(RawArgs(signature.arguments))).Some?
    ensures WTypes(RawOutputs(signature.outputTypes)).Some?
  {
    RawTypesHaveWTypes(signature.arguments);
    RawOutputsHaveWTypes(signature.outputTypes);
  }

  /** What the linker should hold for import `k`: its raw signature and its own adapter. */
  ghost predicate LinkMatches(ids: map<string, nat>, f: nat, decl: ImportDecl, k: nat, link: Option<LinkedImport>) {
    && link.Some?
    && link.value.namespace == decl.namespace && link.value.name == LinkNameOf(decl.fn)
    && WTypes(TypesOf(RawArgs(decl.fn.signature.arguments))) == Some(link.value.params)
    && WTypes(RawOutputs(decl.fn.signature.outputTypes)) == Some(link.value.results)
    && ImportCode(decl.fn.signature, API_COUNT + f + k, ids) == Some(link.value.code)
  }

  lemma ImportKeys(n: nat, interfaces: Interfaces, fns: seq<FnSignature>, decls: seq<ImportDecl>)
    requires Shape(n, interfaces, fns, decls)
    ensures DistinctKeys(ImportPairs(interfaces))
    ensures forall i :: 0 <= i < |interfaces.imports| ==> ImportPairs(interfaces)[i].0 >= n + 2 * |fns|
  {
    var pairs := ImportPairs(interfaces);
    forall i | 0 <= i < |interfaces.imports|
      ensures pairs[i].0 == n + 2 * |fns| + 3 * (i / 2) + 2 * (i % 2)
    {
      var k := i / 2;
      assert interfaces.imports[2 * k] == Import(decls[k].namespace, LinkNameOf(decls[k].fn), n + 2 * |fns| + 3 * k);
      assert i == 2 * k || i == 2 * k + 1;
    }
  }

  function LinkNameAt(decls: seq<ImportDecl>, k: nat): ImportName
    requires k < |decls|
  {
    ImportName(decls[k].namespace, LinkNameOf(decls[k].fn))
  }

  lemma LinksAt(n: nat, interfaces: Interfaces, fns: seq<FnSignature>, decls: seq<ImportDecl>, a: nat)
    requires Shape(n, interfaces, fns, decls) && a < |fns| + |decls|
    ensures var mit, t := NewMIT(interfaces), AdapterType(n, |fns|, a);
            LinksFor(mit, t) == if a < |fns| then [] else [LinkOne(mit, t, LinkNameAt(decls, a - |fns|))]
  {
    CoreOfAdapter(n, interfaces, fns, decls, a);
    ImportNamesAt(n, interfaces, fns, decls, a);
  }

  lemma ImportNamesAt(n: nat, interfaces: Interfaces, fns: seq<FnSignature>, decls: seq<ImportDecl>, a: nat)
    requires Shape(n, interfaces, fns, decls) && a < |fns| + |decls|
    ensures var names, core := NewMIT(interfaces).coreTypeToImports, AdapterType(n, |fns|, a) + 1;
            if a < |fns| then core !in names
            else core in names && names[core] == [ImportName(decls[a - |fns|].namespace, LinkNameOf(decls[a - |fns|].fn))]
  {
    var core, pairs := AdapterType(n, |fns|, a) + 1, ImportPairs(interfaces);
    ImportKeys(n, interfaces, fns, decls);
    if a < |fns| {
      MultiMapKeys(pairs, core);
    } else {
      var k := a - |fns|;
      assert pairs[2 * k + 1] == (core, ImportName(decls[k].namespace, LinkNameOf(decls[k].fn)));
      MultiMapOfDistinct(pairs, 2 * k + 1);
    }
  }

  lemma LinkOneMatches(ids: map<string, nat>, n: nat, interfaces: Interfaces, fns: seq<FnSignature>,
                       decls: seq<ImportDecl>, k: nat)
    requires Laid(ids, n, interfaces, fns, decls) && Shape(n, interfaces, fns, decls) && k < |decls|
    ensures LinkMatches(ids, |fns|, decls[k], k,
                        LinkOne(NewMIT(interfaces), AdapterType(n, |fns|, |fns| + k), LinkNameAt(decls, k)))
  {
    assert ImportAt(ids, n + 2 * |fns|, |fns|, interfaces, decls[k], k);
    KeysAreDistinct(n, interfaces, fns, decls);
    HashMapOfDistinct(AdapterPairs(interfaces), |fns| + k);
    RawSignaturesLink(decls[k].fn.signature);
  }

  /** The linker receives, for every import of the AST and nothing else, that import's own adapter
      under its namespace and link name, with its raw signature. */
  ghost predicate LinksInOrder(ids: map<string, nat>, f: nat, decls: seq<ImportDecl>, links: seq<Option<LinkedImport>>) {
    && |links| == |decls|
    && forall k {:trigger decls[k]} :: 0 <= k < |decls| ==> LinkMatches(ids, f, decls[k], k, links[k])
  }

  function ImportLinks(mit: MITInterfaces, n: nat, f: nat, decls: seq<ImportDecl>): seq<Option<LinkedImport>> {
    seq(|decls|, k requires 0 <= k < |decls| => LinkOne(mit, AdapterType(n, f, f + k), LinkNameAt(decls, k)))
  }

  lemma LinksInTableOrder(mit: MITInterfaces, n: nat, f: nat, decls: seq<ImportDecl>)
    requires forall a: nat {:trigger AdapterType(n, f, a)} :: a < f + |decls| ==>
               LinksFor(mit, AdapterType(n, f, a)) ==
               if a < f then [] else [LinkOne(mit, AdapterType(n, f, a), LinkNameAt(decls, a - f))]
    ensures WitImports(mit, TableOrder(n, f, f + |decls|)) == ImportLinks(mit, n, f, decls)
  {
    var order, links := TableOrder(n, f, f + |decls|), ImportLinks(mit, n, f, decls);
    forall a | 0 <= a < |order|
      ensures LinksByKey(mit)(order[a]) == if f <= a < f + |links| then [links[a - f]] else []
    {
      assert order[a] == AdapterType(n, f, a);
    }
    FlatMapStretch(order, LinksByKey(mit), f, links);
  }

  lemma AllLinksMatch(ids: map<string, nat>, n: nat, interfaces: Interfaces, fns: seq<FnSignature>,
                      decls: seq<ImportDecl>)
    requires Laid(ids, n, interfaces, fns, decls) && Shape(n, interfaces, fns, decls)
    ensures LinksInOrder(ids, |fns|, decls, ImportLinks(NewMIT(interfaces), n, |fns|, decls))
  {
    hide Laid, Shape, NewMIT, LinkMatches, LinkOne, LinkNameAt, AdapterType;
    forall k | 0 <= k < |decls|
      ensures LinkMatches(ids, |fns|, decls[k], k, ImportLinks(NewMIT(interfaces), n, |fns|, decls)[k])
    {
      LinkOneMatches(ids, n, interfaces, fns, decls, k);
    }
  }

  /** Whatever the iteration order, the linker is given exactly the adapters of the AST's imports. */
  lemma ImportsAreLinked(ids: map<string, nat>, n: nat, interfaces: Interfaces, fns: seq<FnSignature>,
                         decls: seq<ImportDecl>, order: seq<nat>) returns (links: seq<Option<LinkedImport>>)
    requires Laid(ids, n, interfaces, fns, decls)
    requires Enumerates(order, NewMIT(interfaces).adapterTypeToCore.Keys)
    ensures multiset(WitImports(NewMIT(interfaces), order)) == multiset(links)
    ensures LinksInOrder(ids, |fns|, decls, links)
  {
    LaidHasShape(ids, n, interfaces, fns, decls);
    AllLinksMatch(ids, n, interfaces, fns, decls);
    links := ImportLinks(NewMIT(interfaces), n, |fns|, decls);
    LinkedInAnyOrder(n, interfaces, fns, decls, order);
  }

  lemma LinkedInTableOrder(n: nat, interfaces: Interfaces, fns: seq<FnSignature>, decls: seq<ImportDecl>)
    requires Shape(n, interfaces, fns, decls)
    ensures WitImports(NewMIT(interfaces), TableOrder(n, |fns|, |fns| + |decls|)) ==
            ImportLinks(NewMIT(interfaces), n, |fns|, decls)
  {
    hide Shape, NewMIT, LinksFor, LinkOne, LinkNameAt, AdapterType, WitImports, ImportLinks;
    var mit := NewMIT(interfaces);
    forall a: nat | a < |fns| + |decls|
      ensures LinksFor(mit, AdapterType(n, |fns|, a)) ==
              if a < |fns| then [] else [LinkOne(mit, AdapterType(n, |fns|, a), LinkNameAt(decls, a - |fns|))]
    {
      LinksAt(n, interfaces, fns, decls, a);
    }
    LinksInTableOrder(mit, n, |fns|, decls);
  }

  lemma LinkedInAnyOrder(n: nat, interfaces: Interfaces, fns: seq<FnSignature>, decls: seq<ImportDecl>, order: seq<nat>)
    requires Shape(n, interfaces, fns, decls)
    requires Enumerates(order, NewMIT(interfaces).adapterTypeToCore.Keys)
    ensures multiset(WitImports(NewMIT(interfaces), order)) ==
            multiset(ImportLinks(NewMIT(interfaces), n, |fns|, decls))
  {
    var mit := NewMIT(interfaces);
    TableOrderEnumerates(n, interfaces, fns, decls);
    FlatMapOrder(order, TableOrder(n, |fns|, |fns| + |decls|), mit.adapterTypeToCore.Keys, LinksByKey(mit));
    LinkedInTableOrder(n, interfaces, fns, decls);
  }
}
