/** A record that contains itself through a vector: the generator accepts it, because validation
    looks at directly nested records only, and reading the interface back refuses it. */
module ArrayRecursion {
  import opened Wrappers
  import opened ITypes
  import opened SdkAst
  import opened ItAst
  import opened ExportApi
  import opened Graphs
  import opened RecordTable
  import opened RecordValidation
  import opened Adapters
  import opened GeneratorSpec
  import opened Layout
  import opened Collections
  import opened Loader
  import opened InterfaceRecovery
  import opened RecordGuarantees
  import opened RecordClosure
  import opened ModuleInterface

  /** struct A { xs: Vec<A> } and fn f(a: A). */
  const A_OF_AS := RecordDef("A", Named([RecordField("xs", Vector(ParsedType.Record("A")))]))
  const RECURSIVE := ModuleAst([A_OF_AS], [Takes("A")], [])

  /** fn f(a: R), for the record called `name`. */
  function Takes(name: string): FnSignature {
    FnSignature("f", [FnArgument("a", ParsedType.Record(name))], [])
  }

  function RecordOfAs(id: nat): RecordType {
    RecordType("A", [RecordFieldType("xs", IType.Array(IType.Record(id)))])
  }

  lemma RegistersItself(api: seq<AstType>)
    ensures RegisterAll(Start(api), [A_OF_AS]) ==
            Ok(Table(map["A" := |api|], api + [AstType.Record(RecordOfAs(|api|))], 0))
  {
    OneField(Start(api), RecordField("xs", Vector(ParsedType.Record("A"))));
    assert (api + [STUB])[|api| := AstType.Record(RecordOfAs(|api|))] == api + [AstType.Record(RecordOfAs(|api|))];
    assert [A_OF_AS][..0] == [];
    assert RegisterAll(Start(api), []) == Ok(Start(api));
  }

  lemma AcceptsIt(api: seq<AstType>)
    requires forall i :: 0 <= i < |api| ==> api[i].Function?
    ensures ValidateRecords(api + [AstType.Record(RecordOfAs(|api|))], 0).Accepted?
  {
    var types := api + [AstType.Record(RecordOfAs(|api|))];
    FlatRecordAccepted(types, RecordOfAs(|api|));
    assert ValidateFrom(types, |api| + 1).Accepted?;
    assert ValidateFrom(types, |api|).Accepted?;
    SkipFunctions(types, 0, |api|);
  }

  lemma ConvertsItsFunction(ids: map<string, nat>, interfaces: Interfaces, name: string)
    requires name in ids
    ensures AddFunctions(ids, interfaces, [Takes(name)]).Some?
  {
    var fn := Takes(name);
    assert [fn][1..] == [];
    assert fn.arguments[1..] == [];
    assert ItArgs([], ids).Some? && ExportArgs([], 1, ids).Some?;
    assert ItArgs(fn.arguments, ids).Some? && ItOutputs([], ids).Some?;
    assert ExportArgs(fn.arguments, 0, ids).Some? && ExportOutputs([], ids).Some?;
    var next := AddFunction(ids, interfaces, fn);
    assert next.Some?;
    assert AddFunctions(ids, next.value, []).Some?;
  }

  lemma RecursiveIsGenerated()
    ensures Generate(RECURSIVE).Generated?
    ensures RecordIds(RECURSIVE) == map["A" := API_COUNT]
    ensures RecordSlots(RECURSIVE) == DefaultExportApi().types + [AstType.Record(RecordOfAs(API_COUNT))]
  {
    var api := DefaultExportApi();
    RegistersItself(api.types);
    AcceptsIt(api.types);
    var t := RegisterAll(Start(api.types), RECURSIVE.records).value;
    ConvertsItsFunction(t.ids, api.(types := t.types), "A");
    var exported := AddFunctions(t.ids, api.(types := t.types), RECURSIVE.functions).value;
    assert AddExternMods(t.ids, exported, []) == Some(exported);
  }

  lemma {:induction false} InRoots(signatures: seq<IFunctionSignature>, s: IFunctionSignature, id: nat)
    requires s in signatures && s.arguments != [] && id in Mentions(s.arguments[0].ty)
    ensures id in RootMentions(ITypesOf(signatures))
  {
    var itypes, first := ITypesOf(signatures), SignatureTypes(signatures[0]);
    if s == signatures[0] {
      assert itypes[0] == first[0] == s.arguments[0].ty;
    } else {
      var rest := ITypesOf(signatures[1..]);
      InRoots(signatures[1..], s, id);
      var k :| 0 <= k < |rest| && id in Mentions(rest[k]);
      assert itypes[|first| + k] == rest[k];
    }
  }

  lemma ItselfReaches(all: RecordTypes, id: nat)
    requires id in all && all[id] == RecordOfAs(id)
    ensures Reaches(RefGraph(all), id, id)
  {
    assert Mentions(all[id].fields[0].ty) == {id};
    assert id in FieldMentions(all[id].fields);
    assert Edge(RefGraph(all), id, id);
    ReachesEdge(RefGraph(all), id, id);
  }

  lemma OneItArg(arg: FnArgument, ids: map<string, nat>)
    requires Convert(arg.ty, ids).Some?
    ensures ItArgs([arg], ids) == Some([FunctionArg(arg.name, Convert(arg.ty, ids).value)])
  {
    assert [arg][1..] == [];
    var out := FunctionArg(arg.name, Convert(arg.ty, ids).value);
    assert ItArgs([arg][1..], ids) == Some([]);
    assert [out] + [] == [out];
  }

  lemma ItsEntry(ids: map<string, nat>, n: nat, interfaces: Interfaces, name: string)
    requires FunctionAt(ids, n, interfaces, Takes(name), 0) && name in ids
    ensures interfaces.types[n].arguments == [FunctionArg("a", IType.Record(ids[name]))]
  {
    OneItArg(FnArgument("a", ParsedType.Record(name)), ids);
  }

  lemma InAnyOrder(read: seq<IFunctionSignature>, expected: seq<IFunctionSignature>, id: nat)
    requires multiset(read) == multiset(expected) && expected != []
    requires expected[0].arguments == [FunctionArg("a", IType.Record(id))]
    ensures id in RootMentions(ITypesOf(read))
  {
    var s := expected[0];
    assert s in multiset(expected) && s in multiset(read);
    assert s in read;
    InRoots(read, s, id);
  }

  lemma ReadsTheFunction(ids: map<string, nat>, n: nat, interfaces: Interfaces, fns: seq<FnSignature>,
                         decls: seq<ImportDecl>, order: seq<nat>, name: string)
    requires Laid(ids, n, interfaces, fns, decls) && Enumerates(order, NewMIT(interfaces).adapterTypeToCore.Keys)
    requires name in ids && |fns| == 1 && fns[0] == Takes(name)
    ensures ExportFuncs(NewMIT(interfaces), order).Ok?
    ensures ids[name] in RootMentions(ITypesOf(ExportFuncs(NewMIT(interfaces), order).value))
  {
    hide NewMIT, ExportFuncs, ITypesOf, Enumerates;
    InterfaceIsRecovered(ids, n, interfaces, fns, decls, order);
    var expected := AstInterface(n, interfaces, fns);
    assert FunctionAt(ids, n, interfaces, fns[0], 0);
    ItsEntry(ids, n, interfaces, name);
    InAnyOrder(ExportFuncs(NewMIT(interfaces), order).value, expected, ids[name]);
  }

  lemma AcceptedButRefused(order: seq<nat>, visit: VisitOrder)
    requires Lists(visit)
    requires Generate(RECURSIVE).Generated? ==> Enumerates(order, NewMIT(Generate(RECURSIVE).interfaces).adapterTypeToCore.Keys)
    ensures Generate(RECURSIVE).Generated?
    ensures var interfaces := Generate(RECURSIVE).interfaces;
            && ExportFuncs(NewMIT(interfaces), order).Ok?
            && GetInterface(AllRecords(interfaces.types), ExportFuncs(NewMIT(interfaces), order).value, visit) ==
               Refused(TooManyRecursionLevels)
  {
    hide NewMIT, ExportFuncs;
    RecursiveIsGenerated();
    GeneratedIsLaid(RECURSIVE);
    var interfaces := Generate(RECURSIVE).interfaces;
    var all := AllRecords(interfaces.types);
    assert RecordSlots(RECURSIVE)[API_COUNT] == interfaces.types[API_COUNT];
    ItselfReaches(all, API_COUNT);
    ReadsTheFunction(RecordIds(RECURSIVE), |RecordSlots(RECURSIVE)|, interfaces, RECURSIVE.functions, ImportDecls(RECURSIVE.externMods),
                     order, "A");
    ReachableCycleFails(all, ITypesOf(ExportFuncs(NewMIT(interfaces), order).value), API_COUNT);
    GeneratedInterfaceReads(RECURSIVE, order, visit);
  }
}
