/** What a successful run of the generator guarantees about its record types, for a whole AST. */
module RecordGuarantees {
  import opened Wrappers
  import opened RustInts
  import opened ITypes
  import opened SdkAst
  import opened ExportApi
  import opened Graphs
  import opened RecordTable
  import opened RecordValidation
  import opened GeneratorSpec
  import opened Layout
  import RecordClosure
  import ModuleInterface

  const USIZE_COUNT := 0x1_0000_0000_0000_0000

  function TableOf(ast: ModuleAst): Result<Table, GenError> {
    RegisterAll(Start(DefaultExportApi().types), ast.records)
  }

  /** No two definitions with fields share a name. */
  ghost predicate DistinctRecordNames(defs: seq<RecordDef>) {
    forall i, j {:trigger defs[i], defs[j]} :: 0 <= i < j < |defs| && !defs[i].fields.Unit? && !defs[j].fields.Unit? ==>
      defs[i].name != defs[j].name
  }

  // ----- Ids -----

  lemma RegisterKeepsIds(api: seq<AstType>, t: Table, def: RecordDef)
    requires Sound(api, t.ids, t.types) && Register(t, def).Ok?
    ensures SubMap(t.ids, Register(t, def).value.ids)
    ensures |t.types| <= |Register(t, def).value.types|
  {
    if !def.fields.Unit? {
      var (out, t1) := FieldsUnchecked(t, def.fields.fields);
      FieldsUncheckedGrows(t, def.fields.fields);
      GrowsKeepsSound(api, t, t1);
      FieldsConvertedNamed(def.fields.fields, out, t1.ids);
      InsertKeepsSound(api, t1, RecordType(def.name, out));
    }
  }

  /** An id once given to a name is never moved: what was handed out after any prefix of the
      definitions is still right at the end. */
  lemma {:induction false} IdsNeverMove(api: seq<AstType>, defs: seq<RecordDef>, k: nat)
    requires RegisterAll(Start(api), defs).Ok? && k <= |defs|
    ensures RegisterAll(Start(api), defs[..k]).Ok?
    ensures SubMap(RegisterAll(Start(api), defs[..k]).value.ids, RegisterAll(Start(api), defs).value.ids)
    ensures |RegisterAll(Start(api), defs[..k]).value.types| <= |RegisterAll(Start(api), defs).value.types|
  {
    if k == |defs| {
      assert defs[..k] == defs;
    } else {
      var init := defs[..|defs| - 1];
      assert init[..k] == defs[..k];
      IdsNeverMove(api, init, k);
      RegisterAllHolds(api, init);
      RegisterKeepsIds(api, RegisterAll(Start(api), init).value, defs[|defs| - 1]);
    }
  }

  // ----- The counter of unresolved types -----

  lemma {:induction false} DefinedNames(defs: seq<RecordDef>, name: string)
    ensures name in Definitions(defs) <==> exists i :: 0 <= i < |defs| && !defs[i].fields.Unit? && defs[i].name == name
  {
    if defs != [] {
      var init, last := defs[..|defs| - 1], defs[|defs| - 1];
      DefinedNames(init, name);
      if exists i :: 0 <= i < |init| && !init[i].fields.Unit? && init[i].name == name {
        var i :| 0 <= i < |init| && !init[i].fields.Unit? && init[i].name == name;
        assert defs[i] == init[i];
      }
      if exists i :: 0 <= i < |defs| && !defs[i].fields.Unit? && defs[i].name == name {
        var i :| 0 <= i < |defs| && !defs[i].fields.Unit? && defs[i].name == name;
        assert i < |init| ==> init[i] == defs[i];
      }
    }
  }

  lemma {:induction false} NoRepeatsExactlyDistinct(defs: seq<RecordDef>)
    ensures Repeats(defs) == 0 <==> DistinctRecordNames(defs)
    ensures Repeats(defs) <= |defs|
  {
    if defs != [] {
      var n := |defs| - 1;
      var init, last := defs[..n], defs[n];
      NoRepeatsExactlyDistinct(init);
      DefinedNames(init, last.name);
      assert forall i :: 0 <= i < n ==> init[i] == defs[i];
      if DistinctRecordNames(defs) {
        assert DistinctRecordNames(init);
        assert forall i :: 0 <= i < n && !last.fields.Unit? && !init[i].fields.Unit? ==> defs[i].name != defs[n].name;
      }
    }
  }

  /** The names mentioned in a field but never defined. */
  function Missing(defs: seq<RecordDef>): set<string> {
    Mentioned(defs) - Definitions(defs).Keys
  }

  lemma UnionLess<T>(a: set<T>, b: set<T>)
    ensures (a + b) - b == a - b
  {
  }

  /** What the check on the counter really tests: missing names less repeated definitions, modulo
      the width of usize. */
  lemma CounterTestsBalance(ast: ModuleAst)
    requires TableOf(ast).Ok?
    ensures TableOf(ast).value.unresolved == |Missing(ast.records)| - Repeats(ast.records)
    ensures AsU64(TableOf(ast).value.unresolved) == 0 <==> (|Missing(ast.records)| - Repeats(ast.records)) % USIZE_COUNT == 0
  {
    RegisterAllTallied(DefaultExportApi().types, ast.records);
    UnionLess(Mentioned(ast.records), Definitions(ast.records).Keys);
  }

  /** With distinct names the counter is the number of stubs, after every definition. */
  lemma CounterCountsStubs(ast: ModuleAst, k: nat)
    requires TableOf(ast).Ok? && DistinctRecordNames(ast.records) && k <= |ast.records|
    ensures var t := RegisterAll(Start(DefaultExportApi().types), ast.records[..k]);
            && t.Ok?
            && t.value.unresolved == |t.value.ids.Keys - Definitions(ast.records[..k]).Keys|
            && forall n :: n in t.value.ids && n !in Definitions(ast.records[..k]) ==>
                 t.value.ids[n] < |t.value.types| && t.value.types[t.value.ids[n]] == STUB
  {
    var api, defs := DefaultExportApi().types, ast.records[..k];
    IdsNeverMove(api, ast.records, k);
    assert DistinctRecordNames(defs) by {
      assert forall i :: 0 <= i < |defs| ==> defs[i] == ast.records[i];
    }
    NoRepeatsExactlyDistinct(defs);
    RegisterAllTallied(api, defs);
    RegisterAllHolds(api, defs);
  }

  // ----- Successful runs -----

  lemma GeneratedMeansAccepted(ast: ModuleAst)
    requires Generate(ast).Generated?
    ensures TableOf(ast).Ok? && TableOf(ast).value.ids == RecordIds(ast) && TableOf(ast).value.types == RecordSlots(ast)
    ensures ValidateRecords(RecordSlots(ast), AsU64(TableOf(ast).value.unresolved)).Accepted?
  {
  }

  ghost predicate AllDefined(ast: ModuleAst) {
    forall n :: n in RecordIds(ast) ==> n in Definitions(ast.records)
  }

  lemma EmptyExactly<T>(s: set<T>)
    ensures |s| == 0 <==> s == {}
  {
  }

  lemma SmallMultiple(a: nat, b: nat)
    requires a < USIZE_COUNT && b < USIZE_COUNT && (a - b) % USIZE_COUNT == 0
    ensures a == b
  {
  }

  /** A successful run leaves no stub exactly when no record name repeats: a second definition of a
      name lowers the counter once more and can hide a name that never got one. The bounds are the
      size of an address space. */
  lemma NoStubLeftExactlyWhenNamesDistinct(ast: ModuleAst)
    requires Generate(ast).Generated?
    requires |Missing(ast.records)| < USIZE_COUNT && |ast.records| < USIZE_COUNT
    ensures AllDefined(ast) <==> DistinctRecordNames(ast.records)
  {
    var defs := ast.records;
    GeneratedMeansAccepted(ast);
    CounterTestsBalance(ast);
    NoRepeatsExactlyDistinct(defs);
    SmallMultiple(|Missing(defs)|, Repeats(defs));
    EmptyExactly(Missing(defs));
    assert RecordIds(ast).Keys == Mentioned(defs) + Definitions(defs).Keys by {
      RegisterAllTallied(DefaultExportApi().types, defs);
    }
    AllInExactly(RecordIds(ast), Definitions(defs), Mentioned(defs));
  }

  lemma AllInExactly<T>(ids: map<string, nat>, d: map<string, T>, mentioned: set<string>)
    requires ids.Keys == mentioned + d.Keys
    ensures (forall n :: n in ids ==> n in d) <==> mentioned - d.Keys == {}
  {
    if mentioned - d.Keys == {} {
      forall n | n in ids ensures n in d {
        assert n in mentioned + d.Keys;
        assert n !in mentioned - d.Keys;
      }
    }
    if mentioned - d.Keys != {} {
      var n :| n in mentioned - d.Keys;
      assert n in ids.Keys && n !in d;
    }
  }

  /** A { b: B } and then A { x: u8 }. */
  const A_OF_B := RecordDef("A", Named([RecordField("b", ParsedType.Record("B"))]))
  const A_OF_U8 := RecordDef("A", Named([RecordField("x", ParsedType.U8)]))

  function SlotsOfA(api: seq<AstType>, field: RecordFieldType): seq<AstType> {
    api + [STUB, AstType.Record(RecordType("A", [field]))]
  }

  lemma FirstOfA(api: seq<AstType>)
    ensures Register(Start(api), A_OF_B) ==
            Ok(Table(map["B" := |api|, "A" := |api| + 1], SlotsOfA(api, RecordFieldType("b", IType.Record(|api|))), 1))
  {
    assert "A"[0] != "B"[0];
    OneField(Start(api), RecordField("b", ParsedType.Record("B")));
    assert api + [STUB] + [AstType.Record(RecordType("A", [RecordFieldType("b", IType.Record(|api|))]))] ==
           SlotsOfA(api, RecordFieldType("b", IType.Record(|api|)));
  }

  lemma SecondOfA(api: seq<AstType>, field: RecordFieldType)
    ensures Register(Table(map["B" := |api|, "A" := |api| + 1], SlotsOfA(api, field), 1), A_OF_U8) ==
            Ok(Table(map["B" := |api|, "A" := |api| + 1], SlotsOfA(api, RecordFieldType("x", IType.U8)), 0))
  {
    OneField(Table(map["B" := |api|, "A" := |api| + 1], SlotsOfA(api, field), 1), RecordField("x", ParsedType.U8));
    assert SlotsOfA(api, field)[|api| + 1 := AstType.Record(RecordType("A", [RecordFieldType("x", IType.U8)]))] ==
           SlotsOfA(api, RecordFieldType("x", IType.U8));
  }

  lemma BothOfA(api: seq<AstType>)
    ensures RegisterAll(Start(api), [A_OF_B, A_OF_U8]) ==
            Ok(Table(map["B" := |api|, "A" := |api| + 1], SlotsOfA(api, RecordFieldType("x", IType.U8)), 0))
  {
    FirstOfA(api);
    SecondOfA(api, RecordFieldType("b", IType.Record(|api|)));
    assert [A_OF_B, A_OF_U8][..1] == [A_OF_B] && [A_OF_B][..0] == [];
    assert RegisterAll(Start(api), []) == Ok(Start(api));
    assert RegisterAll(Start(api), [A_OF_B]) == Register(Start(api), A_OF_B);
  }

  /** The two definitions of A leave the counter at zero while B is still a stub. */
  lemma RepeatedNameHidesStub()
    ensures var ast := ModuleAst([A_OF_B, A_OF_U8], [], []);
            && Generate(ast).Generated?
            && "B" in RecordIds(ast) && RecordIds(ast)["B"] < |RecordSlots(ast)|
            && RecordSlots(ast)[RecordIds(ast)["B"]] == STUB && "B" !in Definitions(ast.records)
  {
    hide RegisterAll, Definitions;
    var api := DefaultExportApi().types;
    BothOfA(api);
    FlatTableAccepted(api, [STUB.record, RecordType("A", [RecordFieldType("x", IType.U8)])]);
    RepeatedNameIsDefinedOnce(A_OF_B, A_OF_U8);
  }

  lemma OneField(t: Table, f: RecordField)
    ensures FieldsUnchecked(t, [f]) == ([RecordFieldType(f.name, TypeUnchecked(t, f.ty).0)], TypeUnchecked(t, f.ty).1)
  {
    assert [f][..0] == [];
    assert FieldsUnchecked(t, [f][..0]) == ([], t);
    assert [] + [RecordFieldType(f.name, TypeUnchecked(t, f.ty).0)] == [RecordFieldType(f.name, TypeUnchecked(t, f.ty).0)];
  }

  lemma RepeatedNameIsDefinedOnce(first: RecordDef, second: RecordDef)
    requires first.name == second.name == "A" && !first.fields.Unit? && !second.fields.Unit?
    ensures "B" !in Definitions([first, second])
  {
    assert "A"[0] != "B"[0];
    DefinedNames([first, second], "B");
  }

  lemma FlatTableAccepted(api: seq<AstType>, records: seq<RecordType>)
    requires |records| == 2 && forall i :: 0 <= i < |api| ==> api[i].Function?
    requires forall i :: 0 <= i < 2 ==> |records[i].fields| == 1 && !records[i].fields[0].ty.Record?
    ensures ValidateRecords(api + [AstType.Record(records[0]), AstType.Record(records[1])], 0).Accepted?
  {
    var types := api + [AstType.Record(records[0]), AstType.Record(records[1])];
    FlatRecordAccepted(types, records[0]);
    FlatRecordAccepted(types, records[1]);
    assert ValidateFrom(types, |api| + 2).Accepted?;
    assert ValidateFrom(types, |api| + 1).Accepted?;
    assert ValidateFrom(types, |api|).Accepted?;
    SkipFunctions(types, 0, |api|);
  }

  lemma FlatRecordAccepted(types: seq<AstType>, record: RecordType)
    requires |record.fields| == 1 && !record.fields[0].ty.Record?
    ensures ValidateRecord(types, record, 0).Accepted?
  {
    assert record.fields[1..] == [];
    assert ValidateFields(types, [], 0).Accepted?;
    assert ValidateField(types, record.fields[0].ty, 0).Accepted?;
    assert ValidateFields(types, record.fields, 0).Accepted?;
  }

  lemma {:induction false} SkipFunctions(types: seq<AstType>, i: nat, k: nat)
    requires i <= k <= |types| && forall j :: i <= j < k ==> types[j].Function?
    ensures ValidateFrom(types, i) == ValidateFrom(types, k)
    decreases k - i
  {
    if i < k { SkipFunctions(types, i + 1, k); }
  }

  /** Every defined name's slot holds its definition in the generated tables, under final ids. */
  lemma DefinedNamesAreFilled(ast: ModuleAst, n: string)
    requires Generate(ast).Generated? && n in Definitions(ast.records)
    ensures Filled(RecordIds(ast), Generate(ast).interfaces.types, n, Definitions(ast.records)[n])
  {
    GeneratedMeansAccepted(ast);
    GeneratedIsLaid(ast);
    RegisterAllHolds(DefaultExportApi().types, ast.records);
    assert Filled(RecordIds(ast), RecordSlots(ast), n, Definitions(ast.records)[n]);
  }

  /** No reference in a generated table dangles, through arrays or not, and no record directly contains
      itself, at any distance. */
  lemma GeneratedRecordsAreSound(ast: ModuleAst)
    requires Generate(ast).Generated?
    ensures RecordClosure.Closed(RecordClosure.AllRecords(Generate(ast).interfaces.types))
    ensures NoDangling(RecordSlots(ast)) && Acyclic(NestGraph(RecordSlots(ast)))
  {
    ModuleInterface.GeneratedRecordsClosed(ast);
    GeneratedMeansAccepted(ast);
    RegisterAllHolds(DefaultExportApi().types, ast.records);
    SoundHasNoDangling(DefaultExportApi().types, RecordIds(ast), RecordSlots(ast));
    AcceptedIsAcyclic(RecordSlots(ast));
  }

  /** The panic in get_record_type is out of reach for every AST. */
  lemma GenerateNeverPanics(ast: ModuleAst)
    ensures !Generate(ast).GeneratorPanic?
  {
    var api := DefaultExportApi().types;
    if TableOf(ast).Ok? {
      var t := TableOf(ast).value;
      RegisterAllHolds(api, ast.records);
      SoundHasNoDangling(api, t.ids, t.types);
      ValidateNeverPanics(t.types, 0);
    }
  }
}
