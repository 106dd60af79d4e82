/** Two limits of 1024 that measure different things: the generator counts one level for a record in a
    record, reading a module's interface counts two. */
module NestingGap {
  import opened Wrappers
  import opened ITypes
  import opened SdkAst
  import opened ItAst
  import opened ExportApi
  import opened Graphs
  import opened RecordTable
  import opened RecordValidation
  import opened GeneratorSpec
  import opened Layout
  import opened Collections
  import opened Loader
  import opened InterfaceRecovery
  import opened RecordGuarantees
  import opened RecordClosure
  import opened ModuleInterface
  import opened ArrayRecursion

  /** How many records inside one another reading lets through. */
  const READABLE_NESTING := 512

  // ----- Reading, where there are no arrays -----

  ghost predicate ArrayFree(all: RecordTypes) {
    forall id, k :: id in all && 0 <= k < |all[id].fields| ==> !all[id].fields[k].ty.Array?
  }

  ghost predicate NoEmptyRecord(all: RecordTypes) {
    forall id :: id in all ==> all[id].fields != []
  }

  lemma FieldMentioned(fields: seq<RecordFieldType>, id: nat)
    requires HasFieldOf(fields, IType.Record(id))
    ensures id in FieldMentions(fields)
  {
    var k :| 0 <= k < |fields| && fields[k].ty == IType.Record(id);
    assert id in Mentions(fields[k].ty);
  }

  /** Without arrays a chain of types is a walk through records, at two levels a record. */
  lemma {:induction false} WalkOfChain(all: RecordTypes, p: seq<IType>) returns (w: seq<nat>)
    requires ArrayFree(all) && Chain(all, p) && |p| >= 2 && p[0].Record?
    ensures Walk(RefGraph(all), w) && |w| == |p| - 1 && w[0] == p[0].id && Cost(p) == 2 * |w|
    ensures w[|w| - 1] in all && HasFieldOf(all[w[|w| - 1]].fields, p[|p| - 1])
    decreases |p|
  {
    ChainTail(all, p);
    if |p| == 2 {
      assert Cost(p[1..]) == 0;
      w := [p[0].id];
    } else {
      ChainTail(all, p[1..]);
      assert p[1].Record?;
      var rest := WalkOfChain(all, p[1..]);
      FieldMentioned(all[p[0].id].fields, p[1].id);
      assert Edge(RefGraph(all), p[0].id, rest[0]);
      WalkPrepend(RefGraph(all), p[0].id, rest);
      w := [p[0].id] + rest;
    }
  }

  lemma {:induction false} WalkStaysInside(all: RecordTypes, w: seq<nat>)
    requires Closed(all) && Walk(RefGraph(all), w) && w[0] in all
    ensures w[|w| - 1] in all
  {
    if |w| > 1 { assert Edge(RefGraph(all), w[|w| - 2], w[|w| - 2 + 1]); }
  }

  /** All walks through records from `r` are short enough to be read. */
  ghost predicate Readable(all: RecordTypes, r: nat) {
    forall w :: Walk(RefGraph(all), w) && w[0] == r ==> |w| <= READABLE_NESTING
  }

  lemma NoCost(p: seq<IType>)
    requires |p| == 1
    ensures Cost(p) == 0
  {
  }

  lemma ReadableChain(all: RecordTypes, r: nat, p: seq<IType>)
    requires Closed(all) && ArrayFree(all) && r in all && Readable(all, r)
    requires Chain(all, p) && p[0] == IType.Record(r)
    ensures Fits(all, p, 0)
  {
    assert |p| > 0;
    hide Cost, Chain, FieldMentions;
    if |p| == 1 {
      NoCost(p);
    } else {
      var w := WalkOfChain(all, p);
      assert |w| <= READABLE_NESTING;
      if p[|p| - 1].Record? {
        FieldMentioned(all[w[|w| - 1]].fields, p[|p| - 1].id);
        assert Edge(RefGraph(all), w[|w| - 1], p[|p| - 1].id);
      }
    }
  }

  lemma BoundedExactlyReadable(all: RecordTypes, r: nat)
    requires Closed(all) && ArrayFree(all) && NoEmptyRecord(all) && r in all
    ensures Bounded(all, IType.Record(r), 0) <==> Readable(all, r)
  {
    if Bounded(all, IType.Record(r), 0) {
      forall w | Walk(RefGraph(all), w) && w[0] == r
        ensures |w| <= READABLE_NESTING
      {
        WalkStaysInside(all, w);
        BoundedWalks(all, IType.Record(r), r, w);
      }
    }
    if Readable(all, r) {
      forall p: seq<IType> | Chain(all, p) && p[0] == IType.Record(r)
        ensures Fits(all, p, 0)
      {
        ReadableChain(all, r, p);
      }
    }
  }

  lemma ScalarBounded(all: RecordTypes, ty: IType)
    requires !ty.Record? && !ty.Array?
    ensures Bounded(all, ty, 0)
  {
    forall p: seq<IType> | Chain(all, p) && p[0] == ty
      ensures Fits(all, p, 0)
    {
      if |p| > 1 { ChainTail(all, p); }
    }
  }

  /** Without arrays, what is read is exactly what nests at most 512 records. */
  lemma ArrayFreeReads(all: RecordTypes, itypes: seq<IType>)
    requires Closed(all) && ArrayFree(all) && NoEmptyRecord(all) && MentionsIn(itypes, all)
    requires forall i :: 0 <= i < |itypes| ==> !itypes[i].Array?
    ensures AllBounded(all, itypes) <==> forall r :: r in RootMentions(itypes) ==> Readable(all, r)
  {
    hide Bounded, Readable, Closed, ArrayFree;
    forall i | 0 <= i < |itypes|
      ensures Bounded(all, itypes[i], 0) <==> (itypes[i].Record? ==> Readable(all, itypes[i].id))
      ensures itypes[i].Record? ==> itypes[i].id in RootMentions(itypes)
    {
      if itypes[i].Record? {
        assert itypes[i].id in Mentions(itypes[i]);
        BoundedExactlyReadable(all, itypes[i].id);
      } else {
        ScalarBounded(all, itypes[i]);
      }
    }
    if AllBounded(all, itypes) {
      forall r | r in RootMentions(itypes)
        ensures Readable(all, r)
      {
        var k :| 0 <= k < |itypes| && r in Mentions(itypes[k]);
        assert itypes[k] == IType.Record(r);
      }
    }
  }

  // ----- Generated modules -----

  lemma {:induction false} RegisteredNotEmpty(api: seq<AstType>, defs: seq<RecordDef>)
    requires forall i :: 0 <= i < |api| ==> api[i].Function?
    requires RegisterAll(Start(api), defs).Ok?
    ensures forall i :: 0 <= i < |RegisterAll(Start(api), defs).value.types| && RegisterAll(Start(api), defs).value.types[i].Record? ==>
              RegisterAll(Start(api), defs).value.types[i].record.fields != []
  {
    if defs != [] {
      var init, def := defs[..|defs| - 1], defs[|defs| - 1];
      RegisteredNotEmpty(api, init);
      if !def.fields.Unit? { FieldsUncheckedGrows(RegisterAll(Start(api), init).value, def.fields.fields); }
    }
  }

  lemma SameRecords(slots: seq<AstType>, types: seq<AstType>)
    requires slots <= types && forall i :: |slots| <= i < |types| ==> types[i].Function?
    ensures AllRecords(types) == AllRecords(slots)
  {
  }

  /** The records of a generated module are those of the record phase, in the same places. */
  lemma RecordsAreSlots(ast: ModuleAst)
    requires Generate(ast).Generated?
    ensures AllRecords(Generate(ast).interfaces.types) == AllRecords(RecordSlots(ast))
  {
    hide Generate, AllRecords, RecordSlots, RecordIds;
    var types, slots := Generate(ast).interfaces.types, RecordSlots(ast);
    GeneratedIsLaid(ast);
    forall i: nat | |slots| <= i < |types|
      ensures types[i].Function?
    {
      OnlyFunctionsAfter(RecordIds(ast), |slots|, Generate(ast).interfaces, ast.functions, ImportDecls(ast.externMods), i);
    }
    SameRecords(slots, types);
  }

  lemma GeneratedNotEmpty(ast: ModuleAst)
    requires Generate(ast).Generated?
    ensures NoEmptyRecord(AllRecords(Generate(ast).interfaces.types))
  {
    RegisteredNotEmpty(DefaultExportApi().types, ast.records);
    RecordsAreSlots(ast);
  }

  /** Without arrays, a walk the reader takes is one the generator has counted. */
  lemma GeneratedWalk(ast: ModuleAst, w: seq<nat>)
    requires Generate(ast).Generated? && ArrayFree(AllRecords(Generate(ast).interfaces.types))
    requires Walk(RefGraph(AllRecords(Generate(ast).interfaces.types)), w) && w[0] in AllRecords(Generate(ast).interfaces.types)
    ensures Walk(NestGraph(RecordSlots(ast)), w) && w[0] in NestGraph(RecordSlots(ast))
  {
    hide Generate;
    var all, slots := AllRecords(Generate(ast).interfaces.types), RecordSlots(ast);
    RecordsAreSlots(ast);
    forall i | 0 <= i < |w| - 1
      ensures Edge(NestGraph(slots), w[i], w[i + 1])
    {
      assert Edge(RefGraph(all), w[i], w[i + 1]);
      var fields := all[w[i]].fields;
      var k :| 0 <= k < |fields| && w[i + 1] in Mentions(fields[k].ty);
      assert fields[k].ty == IType.Record(w[i + 1]);
      assert w[i + 1] in DirectRefs(slots[w[i]].record.fields);
    }
  }

  /** For every generated module without arrays: no nesting is deeper than 1024 records, and the interface
      can be read exactly when what its functions mention nests at most 512. So everything in between is
      generated and then refused. */
  lemma LimitsDiffer(ast: ModuleAst, order: seq<nat>, visit: VisitOrder)
    requires Generate(ast).Generated? && Enumerates(order, NewMIT(Generate(ast).interfaces).adapterTypeToCore.Keys) && Lists(visit)
    requires ArrayFree(AllRecords(Generate(ast).interfaces.types))
    ensures forall w :: Walk(RefGraph(AllRecords(Generate(ast).interfaces.types)), w) &&
                        w[0] in AllRecords(Generate(ast).interfaces.types) ==>
              |w| <= RecordValidation.TYPE_RESOLVE_RECURSION_LIMIT
    ensures ExportFuncs(NewMIT(Generate(ast).interfaces), order).Ok?
    ensures var all, read := AllRecords(Generate(ast).interfaces.types), ExportFuncs(NewMIT(Generate(ast).interfaces), order).value;
            (forall i :: 0 <= i < |ITypesOf(read)| ==> !ITypesOf(read)[i].Array?) ==>
              (GetInterface(all, read, visit).Built? <==> forall r :: r in RootMentions(ITypesOf(read)) ==> Readable(all, r))
  {
    var all := AllRecords(Generate(ast).interfaces.types);
    forall w | Walk(RefGraph(all), w) && w[0] in all
      ensures |w| <= RecordValidation.TYPE_RESOLVE_RECURSION_LIMIT
    {
      GeneratedWalk(ast, w);
      NestingAccepted(ast, w);
    }
    GeneratedInterfaceReads(ast, order, visit);
    var read := ExportFuncs(NewMIT(Generate(ast).interfaces), order).value;
    if forall i :: 0 <= i < |ITypesOf(read)| ==> !ITypesOf(read)[i].Array? { GeneratedReads(ast, order, visit); }
  }

  lemma NestingAccepted(ast: ModuleAst, w: seq<nat>)
    requires Generate(ast).Generated? && Walk(NestGraph(RecordSlots(ast)), w) && w[0] in NestGraph(RecordSlots(ast))
    ensures |w| <= RecordValidation.TYPE_RESOLVE_RECURSION_LIMIT
  {
    hide NestGraph, Walk;
    GeneratedMeansAccepted(ast);
    GeneratedRecordsAreSound(ast);
    AcceptsExactlyBoundedNesting(RecordSlots(ast));
  }

  lemma GeneratedReads(ast: ModuleAst, order: seq<nat>, visit: VisitOrder)
    requires Generate(ast).Generated? && Enumerates(order, NewMIT(Generate(ast).interfaces).adapterTypeToCore.Keys) && Lists(visit)
    requires ArrayFree(AllRecords(Generate(ast).interfaces.types))
    requires ExportFuncs(NewMIT(Generate(ast).interfaces), order).Ok?
    requires var read := ExportFuncs(NewMIT(Generate(ast).interfaces), order).value;
             forall i :: 0 <= i < |ITypesOf(read)| ==> !ITypesOf(read)[i].Array?
    ensures var all, read := AllRecords(Generate(ast).interfaces.types), ExportFuncs(NewMIT(Generate(ast).interfaces), order).value;
            GetInterface(all, read, visit).Built? <==> forall r :: r in RootMentions(ITypesOf(read)) ==> Readable(all, r)
  {
    var all, read := AllRecords(Generate(ast).interfaces.types), ExportFuncs(NewMIT(Generate(ast).interfaces), order).value;
    hide *;
    GeneratedInterfaceReads(ast, order, visit);
    GeneratedRecordsClosed(ast);
    GeneratedMention(ast, order);
    GeneratedNotEmpty(ast);
    ArrayFreeReads(all, ITypesOf(read));
  }

  // ----- A module in between -----

  function Name(i: nat): string {
    seq(i + 1, k => 'R')
  }

  /** struct R { x: u8 }, struct RR { inner: R }, struct RRR { inner: RR } and so on. */
  function DeepDef(i: nat): RecordDef {
    RecordDef(Name(i), Named([if i == 0 then RecordField("x", ParsedType.U8) else RecordField("inner", ParsedType.Record(Name(i - 1)))]))
  }

  function DeepDefs(n: nat): (defs: seq<RecordDef>)
    ensures |defs| == n
  {
    if n == 0 then [] else DeepDefs(n - 1) + [DeepDef(n - 1)]
  }

  /** The first `n` of these records and a function that takes the last. */
  function DeepModule(n: nat): ModuleAst
    requires n > 0
  {
    ModuleAst(DeepDefs(n), [Takes(Name(n - 1))], [])
  }

  function DeepRecord(i: nat, base: nat): RecordType {
    RecordType(Name(i), [if i == 0 then RecordFieldType("x", IType.U8) else RecordFieldType("inner", IType.Record(base + i - 1))])
  }

  function DeepSlots(n: nat, base: nat): (slots: seq<AstType>)
    ensures |slots| == n && forall i :: 0 <= i < n ==> slots[i] == AstType.Record(DeepRecord(i, base))
  {
    if n == 0 then [] else DeepSlots(n - 1, base) + [AstType.Record(DeepRecord(n - 1, base))]
  }

  function DeepIds(n: nat, base: nat): map<string, nat> {
    if n == 0 then map[] else DeepIds(n - 1, base)[Name(n - 1) := base + n - 1]
  }

  lemma {:induction false} DeepIdsHave(n: nat, base: nat, i: nat)
    ensures Name(i) in DeepIds(n, base) <==> i < n
    ensures i < n ==> DeepIds(n, base)[Name(i)] == base + i
  {
    if n > 0 {
      DeepIdsHave(n - 1, base, i);
      assert |Name(i)| == i + 1 && |Name(n - 1)| == n;
    }
  }

  lemma {:induction false} DeepRegisters(api: seq<AstType>, n: nat)
    ensures RegisterAll(Start(api), DeepDefs(n)) == Ok(Table(DeepIds(n, |api|), api + DeepSlots(n, |api|), 0))
  {
    if n == 0 {
      assert api + [] == api;
    } else {
      DeepRegisters(api, n - 1);
      assert DeepDefs(n)[..n - 1] == DeepDefs(n - 1);
      DeepRegister(api, n - 1);
    }
  }

  lemma DeepRegister(api: seq<AstType>, i: nat)
    ensures Register(Table(DeepIds(i, |api|), api + DeepSlots(i, |api|), 0), DeepDef(i)) ==
            Ok(Table(DeepIds(i + 1, |api|), api + DeepSlots(i + 1, |api|), 0))
  {
    var t := Table(DeepIds(i, |api|), api + DeepSlots(i, |api|), 0);
    DeepIdsHave(i, |api|, i);
    OneField(t, DeepDef(i).fields.fields[0]);
    if i > 0 { DeepIdsHave(i, |api|, i - 1); }
    assert t.types + [AstType.Record(DeepRecord(i, |api|))] == api + DeepSlots(i + 1, |api|);
  }

  lemma {:induction false} DeepRecordAccepted(types: seq<AstType>, base: nat, i: nat, level: nat)
    requires base + i < |types| && forall k :: 0 <= k <= i ==> types[base + k] == AstType.Record(DeepRecord(k, base))
    requires level + i < RecordValidation.TYPE_RESOLVE_RECURSION_LIMIT
    ensures ValidateRecord(types, DeepRecord(i, base), level).Accepted?
    decreases i
  {
    var fields := DeepRecord(i, base).fields;
    if i > 0 {
      assert types[base + (i - 1)] == AstType.Record(DeepRecord(i - 1, base));
      DeepRecordAccepted(types, base, i - 1, level + 1);
    }
    assert ValidateField(types, fields[0].ty, level).Accepted?;
    assert fields[1..] == [];
    assert ValidateFields(types, [], level).Accepted?;
  }

  lemma DeepAccepted(api: seq<AstType>, n: nat)
    requires n <= RecordValidation.TYPE_RESOLVE_RECURSION_LIMIT && forall i :: 0 <= i < |api| ==> api[i].Function?
    ensures ValidateRecords(api + DeepSlots(n, |api|), 0).Accepted?
  {
    var types := api + DeepSlots(n, |api|);
    forall j | 0 <= j < |types| && types[j].Record?
      ensures ValidateRecord(types, types[j].record, 0).Accepted?
    {
      forall k | 0 <= k <= j - |api|
        ensures types[|api| + k] == AstType.Record(DeepRecord(k, |api|))
      {
        assert types[|api| + k] == DeepSlots(n, |api|)[k];
      }
      DeepRecordAccepted(types, |api|, j - |api|, 0);
    }
    ValidateFromMeaning(types, 0);
  }

  lemma DeepIsGenerated(n: nat)
    requires 0 < n <= RecordValidation.TYPE_RESOLVE_RECURSION_LIMIT
    ensures Generate(DeepModule(n)).Generated?
    ensures RecordIds(DeepModule(n)) == DeepIds(n, API_COUNT)
    ensures RecordSlots(DeepModule(n)) == DefaultExportApi().types + DeepSlots(n, API_COUNT)
  {
    var api := DefaultExportApi();
    hide DefaultExportApi, DeepIds, DeepSlots, DeepDefs, RegisterAll, ValidateRecords;
    DeepRegisters(api.types, n);
    DeepAccepted(api.types, n);
    DeepIdsHave(n, API_COUNT, n - 1);
    var t := RegisterAll(Start(api.types), DeepDefs(n)).value;
    ConvertsItsFunction(t.ids, api.(types := t.types), Name(n - 1));
    var exported := AddFunctions(t.ids, api.(types := t.types), DeepModule(n).functions).value;
    assert AddExternMods(t.ids, exported, []) == Some(exported);
  }

  /** The records of the module are these, from `base` on. */
  ghost predicate DeepTable(all: RecordTypes, n: nat, base: nat) {
    && (forall id :: id in all <==> base <= id < base + n)
    && forall i: nat :: i < n ==> all[base + i] == DeepRecord(i, base)
  }

  lemma DeepTables(n: nat)
    requires 0 < n <= RecordValidation.TYPE_RESOLVE_RECURSION_LIMIT && Generate(DeepModule(n)).Generated?
    ensures DeepTable(AllRecords(Generate(DeepModule(n)).interfaces.types), n, API_COUNT)
  {
    hide Generate, DeepDefs, DeepIds, DeepModule, AllRecords, DefaultExportApi, RecordSlots, RecordIds, DeepTable, DeepSlots;
    DeepIsGenerated(n);
    RecordsAreSlots(DeepModule(n));
    ApiHasNoRecords();
    DeepSlotsTable(DefaultExportApi().types, n);
  }

  lemma DeepSlotsTable(api: seq<AstType>, n: nat)
    requires forall i :: 0 <= i < |api| ==> api[i].Function?
    ensures DeepTable(AllRecords(api + DeepSlots(n, |api|)), n, |api|)
  {
    var types := api + DeepSlots(n, |api|);
    forall i: nat | i < n
      ensures types[|api| + i] == AstType.Record(DeepRecord(i, |api|))
    {
      assert types[|api| + i] == DeepSlots(n, |api|)[i];
    }
    forall id: nat
      ensures id in AllRecords(types) <==> |api| <= id < |api| + n
    {
      if |api| <= id < |api| + n { assert types[|api| + (id - |api|)] == AstType.Record(DeepRecord(id - |api|, |api|)); }
    }
  }

  lemma ApiHasNoRecords()
    ensures |DefaultExportApi().types| == API_COUNT && forall h :: 0 <= h < API_COUNT ==> DefaultExportApi().types[h].Function?
  {
  }

  lemma DeepEdge(all: RecordTypes, n: nat, base: nat, a: nat, b: nat)
    requires DeepTable(all, n, base)
    ensures Edge(RefGraph(all), a, b) <==> base < a < base + n && b == a - 1
  {
    if a in all {
      var fields := all[base + (a - base)].fields;
      assert fields == DeepRecord(a - base, base).fields;
      if a > base { assert b in FieldMentions(fields) <==> b in Mentions(fields[0].ty); }
    }
  }

  lemma {:induction false} DeepWalkShort(all: RecordTypes, n: nat, base: nat, w: seq<nat>)
    requires DeepTable(all, n, base) && Walk(RefGraph(all), w) && w[0] in all
    ensures |w| <= w[0] - base + 1
    decreases |w|
  {
    if |w| > 1 {
      WalkTail(RefGraph(all), w);
      DeepEdge(all, n, base, w[0], w[1]);
      DeepWalkShort(all, n, base, w[1..]);
    }
  }

  /** From a record all the way down. */
  lemma {:induction false} DeepWalk(all: RecordTypes, n: nat, base: nat, i: nat) returns (w: seq<nat>)
    requires DeepTable(all, n, base) && i < n
    ensures Walk(RefGraph(all), w) && w[0] == base + i && |w| == i + 1 && w[i] == base
  {
    if i == 0 {
      w := [base];
    } else {
      var below := DeepWalk(all, n, base, i - 1);
      DeepEdge(all, n, base, base + i, base + i - 1);
      WalkPrepend(RefGraph(all), base + i, below);
      w := [base + i] + below;
    }
  }

  lemma DeepArrayFree(all: RecordTypes, n: nat, base: nat)
    requires DeepTable(all, n, base)
    ensures ArrayFree(all)
  {
    forall id, k | id in all && 0 <= k < |all[id].fields|
      ensures !all[id].fields[k].ty.Array?
    {
      assert all[base + (id - base)] == DeepRecord(id - base, base);
    }
  }

  lemma DeepReadable(all: RecordTypes, n: nat, base: nat)
    requires DeepTable(all, n, base) && n > 0
    ensures Readable(all, base + n - 1) <==> n <= READABLE_NESTING
  {
    if n <= READABLE_NESTING {
      forall w | Walk(RefGraph(all), w) && w[0] == base + n - 1
        ensures |w| <= READABLE_NESTING
      {
        DeepWalkShort(all, n, base, w);
      }
    } else {
      var w := DeepWalk(all, n, base, n - 1);
    }
  }

  lemma OneRead(read: seq<IFunctionSignature>, s: IFunctionSignature, ty: IType)
    requires multiset(read) == multiset([s]) && s.arguments == [FunctionArg("a", ty)] && s.outputs == []
    ensures ITypesOf(read) == [ty]
  {
    assert |read| == |multiset(read)| == |multiset([s])| == 1;
    assert read[0] in multiset(read) && read[0] in multiset([s]);
    assert read[1..] == [] && ITypesOf(read[1..]) == [];
    assert SignatureTypes(s) == [ty];
  }

  lemma ReadsOnlyIt(ids: map<string, nat>, n: nat, interfaces: Interfaces, fns: seq<FnSignature>, decls: seq<ImportDecl>,
                    order: seq<nat>, name: string)
    requires Laid(ids, n, interfaces, fns, decls) && Enumerates(order, NewMIT(interfaces).adapterTypeToCore.Keys)
    requires name in ids && fns == [Takes(name)]
    ensures ExportFuncs(NewMIT(interfaces), order).Ok?
    ensures ITypesOf(ExportFuncs(NewMIT(interfaces), order).value) == [IType.Record(ids[name])]
  {
    hide NewMIT, ExportFuncs, ITypesOf, Enumerates;
    InterfaceIsRecovered(ids, n, interfaces, fns, decls, order);
    var expected := AstInterface(n, interfaces, fns);
    assert FunctionAt(ids, n, interfaces, fns[0], 0);
    ItsEntry(ids, n, interfaces, name);
    assert expected == [expected[0]];
    OneRead(ExportFuncs(NewMIT(interfaces), order).value, expected[0], IType.Record(ids[name]));
  }

  lemma OnlyRoot(itypes: seq<IType>, id: nat)
    requires itypes == [IType.Record(id)]
    ensures RootMentions(itypes) == {id}
  {
    assert id in Mentions(itypes[0]);
  }

  lemma OneRootReads(ast: ModuleAst, order: seq<nat>, visit: VisitOrder, id: nat)
    requires Generate(ast).Generated? && Enumerates(order, NewMIT(Generate(ast).interfaces).adapterTypeToCore.Keys) && Lists(visit)
    requires ArrayFree(AllRecords(Generate(ast).interfaces.types))
    requires ExportFuncs(NewMIT(Generate(ast).interfaces), order).Ok?
    requires ITypesOf(ExportFuncs(NewMIT(Generate(ast).interfaces), order).value) == [IType.Record(id)]
    ensures var all, read := AllRecords(Generate(ast).interfaces.types), ExportFuncs(NewMIT(Generate(ast).interfaces), order).value;
            var outcome := GetInterface(all, read, visit);
            if Readable(all, id) then outcome.Built? else outcome == Refused(TooManyRecursionLevels)
  {
    hide Generate, NewMIT, ExportFuncs, GetInterface, ITypesOf, Enumerates, Readable, ArrayFree;
    GeneratedReads(ast, order, visit);
    OnlyRoot(ITypesOf(ExportFuncs(NewMIT(Generate(ast).interfaces), order).value), id);
    GeneratedInterfaceReads(ast, order, visit);
  }

  lemma DeepReadsOne(n: nat, order: seq<nat>)
    requires 0 < n <= RecordValidation.TYPE_RESOLVE_RECURSION_LIMIT && Generate(DeepModule(n)).Generated?
    requires Enumerates(order, NewMIT(Generate(DeepModule(n)).interfaces).adapterTypeToCore.Keys)
    ensures ExportFuncs(NewMIT(Generate(DeepModule(n)).interfaces), order).Ok?
    ensures ITypesOf(ExportFuncs(NewMIT(Generate(DeepModule(n)).interfaces), order).value) == [IType.Record(API_COUNT + n - 1)]
  {
    var ast := DeepModule(n);
    assert ast.functions == [Takes(Name(n - 1))];
    hide Generate, DeepDefs, DeepModule, DeepIds, NewMIT, ExportFuncs, ITypesOf, Enumerates, Laid;
    DeepIsGenerated(n);
    DeepIdsHave(n, API_COUNT, n - 1);
    GeneratedIsLaid(ast);
    ReadsOnlyIt(RecordIds(ast), |RecordSlots(ast)|, Generate(ast).interfaces, ast.functions, ImportDecls(ast.externMods), order,
                Name(n - 1));
  }

  /** The limits apart, record by record: a module of `n` records, each inside the next, is generated up
      to n = 1024, but its interface can be read only up to n = 512. */
  lemma DeepReadsUpToHalf(n: nat, order: seq<nat>, visit: VisitOrder)
    requires 0 < n <= RecordValidation.TYPE_RESOLVE_RECURSION_LIMIT && Lists(visit)
    requires Generate(DeepModule(n)).Generated? ==> Enumerates(order, NewMIT(Generate(DeepModule(n)).interfaces).adapterTypeToCore.Keys)
    ensures Generate(DeepModule(n)).Generated?
    ensures var interfaces := Generate(DeepModule(n)).interfaces;
            && ExportFuncs(NewMIT(interfaces), order).Ok?
            && var outcome := GetInterface(AllRecords(interfaces.types), ExportFuncs(NewMIT(interfaces), order).value, visit);
            if n <= READABLE_NESTING then outcome.Built? else outcome == Refused(TooManyRecursionLevels)
  {
    hide Generate, DeepModule, NewMIT, ExportFuncs, GetInterface, ITypesOf, Enumerates, Readable, DeepTable, ArrayFree, AllRecords;
    var ast := DeepModule(n);
    DeepIsGenerated(n);
    DeepReadsOne(n, order);
    DeepTables(n);
    DeepArrayFree(AllRecords(Generate(ast).interfaces.types), n, API_COUNT);
    DeepReadable(AllRecords(Generate(ast).interfaces.types), n, API_COUNT);
    OneRootReads(ast, order, visit, API_COUNT + n - 1);
  }
}
