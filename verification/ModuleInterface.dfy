/** The public interface of a module: signatures and records as text, records sorted. */
module ModuleInterface {
  import opened Wrappers
  import opened ITypes
  import opened SdkAst
  import opened ItAst
  import opened ExportApi
  import opened Graphs
  import opened RecordTable
  import opened Adapters
  import opened GeneratorSpec
  import opened Layout
  import opened Collections
  import opened Loader
  import opened InterfaceRecovery
  import opened RecordClosure
  import opened RecordSort

  /** itype_text_view; None is its unwrap on a record that is not there. */
  function ITypeTextView(ty: IType, records: RecordTypes): Option<string> {
    match ty
    case Record(id) => if id in records then Some(records[id].name) else None
    case Array(elem) =>
      (match ITypeTextView(elem, records)
       case None => None
       case Some(text) => Some("[]" + text))
    case Boolean => Some("bool")
    case S8 => Some("i8")
    case S16 => Some("i16")
    case S32 => Some("i32")
    case S64 => Some("i64")
    case U8 => Some("u8")
    case U16 => Some("u16")
    case U32 => Some("u32")
    case U64 => Some("u64")
    case F32 => Some("f32")
    case F64 => Some("f64")
    case String => Some("string")
    case ByteArray => Some("[]u8")
    case I32 => Some("i32")
    case I64 => Some("i64")
  }

  datatype NamedText = NamedText(name: string, ty: string)

  datatype TextSignature = TextSignature(name: string, arguments: seq<NamedText>, outputs: seq<string>)

  datatype TextRecord = TextRecord(name: string, id: nat, fields: seq<NamedText>)

  function ViewArgs(args: seq<FunctionArg>, records: RecordTypes): Option<seq<NamedText>> {
    if args == [] then Some([])
    else
      match (ITypeTextView(args[0].ty, records), ViewArgs(args[1..], records))
      case (Some(text), Some(rest)) => Some([NamedText(args[0].name, text)] + rest)
      case _ => None
  }

  function ViewOutputs(outputs: seq<IType>, records: RecordTypes): Option<seq<string>> {
    if outputs == [] then Some([])
    else
      match (ITypeTextView(outputs[0], records), ViewOutputs(outputs[1..], records))
      case (Some(text), Some(rest)) => Some([text] + rest)
      case _ => None
  }

  function ViewSignatures(signatures: seq<IFunctionSignature>, records: RecordTypes): Option<seq<TextSignature>> {
    if signatures == [] then Some([])
    else
      var s := signatures[0];
      match (ViewArgs(s.arguments, records), ViewOutputs(s.outputs, records), ViewSignatures(signatures[1..], records))
      case (Some(args), Some(outputs), Some(rest)) => Some([TextSignature(s.name, args, outputs)] + rest)
      case _ => None
  }

  function ViewFields(fields: seq<RecordFieldType>, records: RecordTypes): Option<seq<NamedText>> {
    if fields == [] then Some([])
    else
      match (ITypeTextView(fields[0].ty, records), ViewFields(fields[1..], records))
      case (Some(text), Some(rest)) => Some([NamedText(fields[0].name, text)] + rest)
      case _ => None
  }

  /** into_transformed_records: both its unwraps are the None cases. */
  function ViewRecords(order: seq<nat>, records: RecordTypes): Option<seq<TextRecord>> {
    if order == [] then Some([])
    else if order[0] !in records then None
    else
      match (ViewFields(records[order[0]].fields, records), ViewRecords(order[1..], records))
      case (Some(fields), Some(rest)) => Some([TextRecord(records[order[0]].name, order[0], fields)] + rest)
      case _ => None
  }

  function SignatureTypes(s: IFunctionSignature): seq<IType> {
    seq(|s.arguments|, i requires 0 <= i < |s.arguments| => s.arguments[i].ty) + s.outputs
  }

  function ITypesOf(signatures: seq<IFunctionSignature>): seq<IType> {
    if signatures == [] then [] else SignatureTypes(signatures[0]) + ITypesOf(signatures[1..])
  }

  datatype InterfaceOutcome =
    | Built(functions: seq<TextSignature>, records: seq<TextRecord>)
    | Refused(closure: ClosureError)
    | SortFailed(sort: SortError)
    | Panicked

  /** How the sort visits a record map: some listing of its keys. */
  type VisitOrder = RecordTypes -> seq<nat>

  ghost predicate Lists(visit: VisitOrder) {
    forall records :: Enumerates(visit(records), records.Keys)
  }

  /** get_interface from the signatures on: closure, text views, sort. */
  function GetInterface(all: RecordTypes, signatures: seq<IFunctionSignature>, visit: VisitOrder): InterfaceOutcome
    requires Lists(visit)
  {
    match GetRecordTypes(all, ITypesOf(signatures))
    case Err(e) => Refused(e)
    case Ok(exported) =>
      match ViewSignatures(signatures, exported)
      case None => Panicked
      case Some(functions) =>
        assert Enumerates(visit(exported), exported.Keys);
        match TopologicalSort(exported, visit(exported))
        case Err(e) => SortFailed(e)
        case Ok(st) =>
          match ViewRecords(st.order, exported)
          case None => Panicked
          case Some(records) => Built(functions, records)
  }

  // ----- The unwraps are safe -----

  lemma {:induction false} TextViewDefined(ty: IType, records: RecordTypes)
    ensures ITypeTextView(ty, records).Some? <==> Mentions(ty) <= records.Keys
  {
    if ty.Array? { TextViewDefined(ty.elem, records); }
  }

  lemma {:induction false} ArgsViewed(args: seq<FunctionArg>, records: RecordTypes)
    requires forall i :: 0 <= i < |args| ==> Mentions(args[i].ty) <= records.Keys
    ensures ViewArgs(args, records).Some?
  {
    if args != [] {
      TextViewDefined(args[0].ty, records);
      ArgsViewed(args[1..], records);
    }
  }

  lemma {:induction false} OutputsViewed(outputs: seq<IType>, records: RecordTypes)
    requires forall i :: 0 <= i < |outputs| ==> Mentions(outputs[i]) <= records.Keys
    ensures ViewOutputs(outputs, records).Some?
  {
    if outputs != [] {
      TextViewDefined(outputs[0], records);
      OutputsViewed(outputs[1..], records);
    }
  }

  lemma {:induction false} FieldsViewed(fields: seq<RecordFieldType>, records: RecordTypes)
    requires FieldMentions(fields) <= records.Keys
    ensures ViewFields(fields, records).Some?
  {
    if fields != [] {
      MentionsSplit(fields);
      TextViewDefined(fields[0].ty, records);
      FieldsViewed(fields[1..], records);
    }
  }

  lemma {:induction false} SignaturesViewed(signatures: seq<IFunctionSignature>, records: RecordTypes)
    requires RootMentions(ITypesOf(signatures)) <= records.Keys
    ensures ViewSignatures(signatures, records).Some?
  {
    if signatures != [] {
      var s, all := signatures[0], ITypesOf(signatures);
      var first, rest := SignatureTypes(s), ITypesOf(signatures[1..]);
      forall k | 0 <= k < |first| ensures Mentions(first[k]) <= records.Keys {
        assert all[k] == first[k];
        assert Mentions(all[k]) <= RootMentions(all);
      }
      forall i | 0 <= i < |s.arguments| ensures Mentions(s.arguments[i].ty) <= records.Keys {
        assert first[i] == s.arguments[i].ty;
      }
      forall i | 0 <= i < |s.outputs| ensures Mentions(s.outputs[i]) <= records.Keys {
        assert first[|s.arguments| + i] == s.outputs[i];
      }
      ArgsViewed(s.arguments, records);
      OutputsViewed(s.outputs, records);
      assert RootMentions(rest) <= RootMentions(all) by {
        assert forall k :: 0 <= k < |rest| ==> all[|first| + k] == rest[k];
      }
      SignaturesViewed(signatures[1..], records);
    }
  }

  /** Entry `i` of the result shows record `order[i]`. */
  ghost predicate Shows(records: RecordTypes, order: seq<nat>, view: seq<TextRecord>) {
    && |view| == |order|
    && forall i {:trigger view[i]} :: 0 <= i < |order| ==>
         && order[i] in records
         && view[i].id == order[i] && view[i].name == records[order[i]].name
         && ViewFields(records[order[i]].fields, records) == Some(view[i].fields)
  }

  lemma {:induction false} RecordsViewed(order: seq<nat>, records: RecordTypes)
    requires Closed(records) && forall id :: id in order ==> id in records
    ensures ViewRecords(order, records).Some? && Shows(records, order, ViewRecords(order, records).value)
  {
    if order != [] {
      var id := order[0];
      forall m | m in FieldMentions(records[id].fields) ensures m in records {
        assert Edge(RefGraph(records), id, m);
      }
      FieldsViewed(records[id].fields, records);
      RecordsViewed(order[1..], records);
      var view, rest := ViewRecords(order, records).value, ViewRecords(order[1..], records).value;
      forall i | 0 <= i < |order|
        ensures && order[i] in records
                && view[i].id == order[i] && view[i].name == records[order[i]].name
                && ViewFields(records[order[i]].fields, records) == Some(view[i].fields)
      {
        if i > 0 { assert view[i] == rest[i - 1]; }
      }
    }
  }

  /** A list of records in which each one comes after every record its fields mention. */
  ghost predicate Sorted(all: RecordTypes, view: seq<TextRecord>) {
    && (forall i {:trigger view[i]} :: 0 <= i < |view| ==> view[i].id in all && view[i].name == all[view[i].id].name)
    && (forall i, j :: 0 <= i < j < |view| ==> view[i].id != view[j].id)
    && (forall i, m :: 0 <= i < |view| && view[i].id in all && m in FieldMentions(all[view[i].id].fields) ==>
          exists j :: 0 <= j < i && view[j].id == m)
  }

  lemma ShownIsSorted(all: RecordTypes, records: RecordTypes, order: seq<nat>, view: seq<TextRecord>)
    requires PartOf(records, all) && Shows(records, order, view) && Distinct(order) && Topological(records, order)
    ensures Sorted(all, view)
  {
    forall i, j | 0 <= i < j < |view|
      ensures view[i].id != view[j].id
    {
      assert order[i] != order[j];
    }
    forall i, m | 0 <= i < |view| && view[i].id in all && m in FieldMentions(all[view[i].id].fields)
      ensures exists j :: 0 <= j < i && view[j].id == m
    {
      assert order[i] == view[i].id;
      assert m in order[..i];
      var j :| 0 <= j < i && order[j] == m;
      assert view[j].id == m;
    }
  }

  /** Reading the interface never panics and the sort never fails: whenever the depth bound lets the
      closure through, all lookups succeed, exactly the needed records are listed, each once, and
      each after all records it mentions. */
  lemma InterfaceIsSorted(all: RecordTypes, signatures: seq<IFunctionSignature>, visit: VisitOrder)
    requires Lists(visit)
    ensures var outcome := GetInterface(all, signatures, visit);
            && (outcome.Built? || outcome.Refused?)
            && (outcome.Built? <==> AllBounded(all, ITypesOf(signatures)))
            && (outcome.Built? ==>
                  && Sorted(all, outcome.records)
                  && forall id :: Needed(all, RootMentions(ITypesOf(signatures)), id) <==>
                       exists i :: 0 <= i < |outcome.records| && outcome.records[i].id == id)
  {
    var itypes, result := ITypesOf(signatures), GetRecordTypes(all, ITypesOf(signatures));
    SucceedsExactlyWhenBounded(all, itypes, map[]);
    if result.Ok? {
      var exported := result.value;
      CollectsExactlyTheNeeded(all, itypes);
      CollectedIsAcyclic(all, itypes);
      assert RootMentions(itypes) <= exported.Keys by {
        assert forall id :: id in RootMentions(itypes) ==> Needed(all, RootMentions(itypes), id);
      }
      SignaturesViewed(signatures, exported);
      assert Enumerates(visit(exported), exported.Keys);
      SortsExactlyClosedMaps(exported, visit(exported));
      TopologicalExactlyWhenAcyclic(exported, visit(exported));
      var order := TopologicalSort(exported, visit(exported)).value.order;
      RecordsViewed(order, exported);
      var view := ViewRecords(order, exported).value;
      ShownIsSorted(all, exported, order, view);
      ListedExactly(exported, order, view);
    }
  }

  lemma ListedExactly(records: RecordTypes, order: seq<nat>, view: seq<TextRecord>)
    requires Shows(records, order, view) && forall id :: id in order <==> id in records.Keys
    ensures forall id :: id in records <==> exists i :: 0 <= i < |view| && view[i].id == id
  {
    forall id | id in records
      ensures exists i :: 0 <= i < |view| && view[i].id == id
    {
      assert id in order;
      var i :| 0 <= i < |order| && order[i] == id;
      assert view[i].id == id;
    }
  }

  // ----- Interfaces of generated modules -----

  lemma {:induction false} NamedMentions(ty: IType, ids: map<string, nat>)
    requires RefsNamed(ty, ids)
    ensures forall id :: id in Mentions(ty) ==> exists n :: n in ids && ids[n] == id
  {
    if ty.Array? { NamedMentions(ty.elem, ids); }
  }

  lemma SlotsClosed(api: seq<AstType>, ids: map<string, nat>, slots: seq<AstType>, types: seq<AstType>)
    requires Sound(api, ids, slots) && slots <= types
    requires forall i :: 0 <= i < |api| ==> api[i].Function?
    requires forall i :: |slots| <= i < |types| ==> types[i].Function?
    ensures Closed(AllRecords(types))
    ensures forall n :: n in ids ==> ids[n] in AllRecords(types)
  {
    forall n | n in ids
      ensures ids[n] in AllRecords(types)
    {
      assert slots[ids[n]].Record?;
    }
    forall a: nat, b: nat | Edge(RefGraph(AllRecords(types)), a, b)
      ensures b in AllRecords(types)
    {
      var fields := types[a].record.fields;
      assert a < |slots| && slots[a] == types[a];
      assert FieldsNamed(fields, ids);
      var k :| 0 <= k < |fields| && b in Mentions(fields[k].ty);
      assert RefsNamed(fields[k].ty, ids);
      NamedMentions(fields[k].ty, ids);
    }
  }

  /** On a closed map the only way to fail is the depth bound. */
  lemma {:induction false} ClosedFailsByDepth(ty: IType, all: RecordTypes, exported: RecordTypes, level: nat)
    requires Closed(all) && Mentions(ty) <= all.Keys
    ensures HandleItype(ty, all, exported, level) == Err(TooManyRecursionLevels) || HandleItype(ty, all, exported, level).Ok?
    decreases RecordClosure.TYPE_RESOLVE_RECURSION_LIMIT + 3 - level, 1, 0
  {
    if level <= RecordClosure.TYPE_RESOLVE_RECURSION_LIMIT {
      match ty
      case Record(id) =>
        forall m | m in FieldMentions(all[id].fields) ensures m in all {
          assert Edge(RefGraph(all), id, m);
        }
        ClosedFieldsFailByDepth(all[id].fields, all, exported[id := all[id]], level + 1);
      case Array(elem) => ClosedFailsByDepth(elem, all, exported, level + 1);
      case _ =>
    }
  }

  lemma {:induction false} ClosedFieldsFailByDepth(fields: seq<RecordFieldType>, all: RecordTypes, exported: RecordTypes, level: nat)
    requires level <= RecordClosure.TYPE_RESOLVE_RECURSION_LIMIT + 1
    requires Closed(all) && FieldMentions(fields) <= all.Keys
    ensures HandleFields(fields, all, exported, level) == Err(TooManyRecursionLevels) || HandleFields(fields, all, exported, level).Ok?
    decreases RecordClosure.TYPE_RESOLVE_RECURSION_LIMIT + 3 - level, 0, |fields|
  {
    if fields != [] {
      MentionsSplit(fields);
      ClosedFailsByDepth(fields[0].ty, all, exported, level + 1);
      var first := HandleItype(fields[0].ty, all, exported, level + 1);
      if first.Ok? { ClosedFieldsFailByDepth(fields[1..], all, first.value, level); }
    }
  }

  lemma {:induction false} ClosedAllFailByDepth(itypes: seq<IType>, all: RecordTypes, exported: RecordTypes)
    requires Closed(all) && forall i :: 0 <= i < |itypes| ==> Mentions(itypes[i]) <= all.Keys
    ensures HandleAll(itypes, all, exported) == Err(TooManyRecursionLevels) || HandleAll(itypes, all, exported).Ok?
    decreases |itypes|
  {
    if itypes != [] {
      ClosedFailsByDepth(itypes[0], all, exported, 0);
      var first := HandleItype(itypes[0], all, exported, 0);
      if first.Ok? { ClosedAllFailByDepth(itypes[1..], all, first.value); }
    }
  }

  lemma ConvertedMentions(pty: ParsedType, ids: map<string, nat>, all: RecordTypes)
    requires Convert(pty, ids).Some? && forall n :: n in ids ==> ids[n] in all
    ensures Mentions(Convert(pty, ids).value) <= all.Keys
  {
    ConvertNamed(pty, ids);
    NamedMentions(Convert(pty, ids).value, ids);
  }

  lemma {:induction false} ConvertedArgsMention(args: seq<FnArgument>, ids: map<string, nat>, all: RecordTypes)
    requires ItArgs(args, ids).Some? && forall n :: n in ids ==> ids[n] in all
    ensures forall i :: 0 <= i < |ItArgs(args, ids).value| ==> Mentions(ItArgs(args, ids).value[i].ty) <= all.Keys
  {
    if args != [] {
      ConvertedMentions(args[0].ty, ids, all);
      ConvertedArgsMention(args[1..], ids, all);
    }
  }

  lemma {:induction false} ConvertedOutputsMention(outputs: seq<ParsedType>, ids: map<string, nat>, all: RecordTypes)
    requires ItOutputs(outputs, ids).Some? && forall n :: n in ids ==> ids[n] in all
    ensures forall i :: 0 <= i < |ItOutputs(outputs, ids).value| ==> Mentions(ItOutputs(outputs, ids).value[i]) <= all.Keys
  {
    if outputs != [] {
      ConvertedMentions(outputs[0], ids, all);
      ConvertedOutputsMention(outputs[1..], ids, all);
    }
  }

  ghost predicate MentionsIn(itypes: seq<IType>, all: RecordTypes) {
    forall i :: 0 <= i < |itypes| ==> Mentions(itypes[i]) <= all.Keys
  }

  lemma {:induction false} SignaturesMention(signatures: seq<IFunctionSignature>, all: RecordTypes)
    requires forall s :: s in signatures ==> MentionsIn(SignatureTypes(s), all)
    ensures MentionsIn(ITypesOf(signatures), all)
  {
    if signatures != [] {
      assert signatures[0] in signatures;
      SignaturesMention(signatures[1..], all);
    }
  }

  lemma FunctionsAfter(ids: map<string, nat>, n: nat, interfaces: Interfaces, fns: seq<FnSignature>, i: nat)
    requires FunctionsAt(ids, n, interfaces, fns) && n <= i < n + 2 * |fns| && i < |interfaces.types|
    ensures interfaces.types[i].Function?
  {
    var j := (i - n) / 2;
    assert FunctionAt(ids, n, interfaces, fns[j], j);
  }

  lemma ImportsAfter(ids: map<string, nat>, m: nat, f: nat, interfaces: Interfaces, decls: seq<ImportDecl>, i: nat)
    requires ImportsLaid(ids, m, f, interfaces, decls) && m <= i < |interfaces.types|
    ensures interfaces.types[i].Function?
  {
    var k := (i - m) / 3;
    assert ImportAt(ids, m, f, interfaces, decls[k], k);
  }

  /** Nothing but functions follows the record slots. */
  lemma OnlyFunctionsAfter(ids: map<string, nat>, n: nat, interfaces: Interfaces, fns: seq<FnSignature>,
                           decls: seq<ImportDecl>, i: nat)
    requires Laid(ids, n, interfaces, fns, decls) && n <= i < |interfaces.types|
    ensures interfaces.types[i].Function?
  {
    if i < n + 2 * |fns| { FunctionsAfter(ids, n, interfaces, fns, i); }
    else { ImportsAfter(ids, n + 2 * |fns|, |fns|, interfaces, decls, i); }
  }

  lemma GeneratedRecordsClosed(ast: ModuleAst)
    requires Generate(ast).Generated?
    ensures Closed(AllRecords(Generate(ast).interfaces.types))
    ensures forall n :: n in RecordIds(ast) ==> RecordIds(ast)[n] in AllRecords(Generate(ast).interfaces.types)
  {
    var api, types := DefaultExportApi().types, Generate(ast).interfaces.types;
    GeneratedIsLaid(ast);
    RegisterAllHolds(api, ast.records);
    forall i | |RecordSlots(ast)| <= i < |types|
      ensures types[i].Function?
    {
      OnlyFunctionsAfter(RecordIds(ast), |RecordSlots(ast)|, Generate(ast).interfaces, ast.functions, ImportDecls(ast.externMods), i);
    }
    SlotsClosed(api, RecordIds(ast), RecordSlots(ast), types);
  }

  lemma ExportedFunctionMentions(ids: map<string, nat>, n: nat, interfaces: Interfaces, fn: FnSignature, j: nat,
                                 all: RecordTypes)
    requires FunctionAt(ids, n, interfaces, fn, j) && forall name :: name in ids ==> ids[name] in all
    ensures var t := n + 2 * j;
            MentionsIn(SignatureTypes(IFunctionSignature(fn.name, interfaces.types[t].arguments, interfaces.types[t].outputTypes, t)), all)
  {
    ConvertedArgsMention(fn.arguments, ids, all);
    ConvertedOutputsMention(fn.outputTypes, ids, all);
  }

  lemma ReorderedMention(read: seq<IFunctionSignature>, expected: seq<IFunctionSignature>, all: RecordTypes)
    requires multiset(read) == multiset(expected)
    requires forall j :: 0 <= j < |expected| ==> MentionsIn(SignatureTypes(expected[j]), all)
    ensures MentionsIn(ITypesOf(read), all)
  {
    forall s | s in read
      ensures MentionsIn(SignatureTypes(s), all)
    {
      assert s in multiset(read);
      assert s in expected;
    }
    SignaturesMention(read, all);
  }

  lemma LaidSignaturesMention(ids: map<string, nat>, n: nat, interfaces: Interfaces, fns: seq<FnSignature>,
                              decls: seq<ImportDecl>, order: seq<nat>, all: RecordTypes)
    requires Laid(ids, n, interfaces, fns, decls) && Enumerates(order, NewMIT(interfaces).adapterTypeToCore.Keys)
    requires forall name :: name in ids ==> ids[name] in all
    ensures ExportFuncs(NewMIT(interfaces), order).Ok?
    ensures MentionsIn(ITypesOf(ExportFuncs(NewMIT(interfaces), order).value), all)
  {
    hide NewMIT, ExportFuncs, MentionsIn, SignatureTypes, ITypesOf, Enumerates, FunctionAt;
    InterfaceIsRecovered(ids, n, interfaces, fns, decls, order);
    var expected := AstInterface(n, interfaces, fns);
    forall j | 0 <= j < |expected|
      ensures MentionsIn(SignatureTypes(expected[j]), all)
    {
      assert FunctionAt(ids, n, interfaces, fns[j], j);
      ExportedFunctionMentions(ids, n, interfaces, fns[j], j, all);
    }
    ReorderedMention(ExportFuncs(NewMIT(interfaces), order).value, expected, all);
  }

  lemma ClosedInterfaceReads(all: RecordTypes, signatures: seq<IFunctionSignature>, visit: VisitOrder)
    requires Closed(all) && MentionsIn(ITypesOf(signatures), all) && Lists(visit)
    ensures ReadsOrTooDeep(all, GetInterface(all, signatures, visit))
    ensures GetInterface(all, signatures, visit).Built? <==> AllBounded(all, ITypesOf(signatures))
  {
    ClosedAllFailByDepth(ITypesOf(signatures), all, map[]);
    InterfaceIsSorted(all, signatures, visit);
  }

  ghost predicate ReadsOrTooDeep(all: RecordTypes, outcome: InterfaceOutcome) {
    outcome == Refused(TooManyRecursionLevels) || (outcome.Built? && Sorted(all, outcome.records))
  }

  lemma GeneratedMention(ast: ModuleAst, order: seq<nat>)
    requires Generate(ast).Generated? && Enumerates(order, NewMIT(Generate(ast).interfaces).adapterTypeToCore.Keys)
    ensures ExportFuncs(NewMIT(Generate(ast).interfaces), order).Ok?
    ensures MentionsIn(ITypesOf(ExportFuncs(NewMIT(Generate(ast).interfaces), order).value), AllRecords(Generate(ast).interfaces.types))
  {
    var all := AllRecords(Generate(ast).interfaces.types);
    GeneratedRecordsClosed(ast);
    assert Laid(RecordIds(ast), |RecordSlots(ast)|, Generate(ast).interfaces, ast.functions, ImportDecls(ast.externMods)) by {
      GeneratedIsLaid(ast);
    }
    LaidSignaturesMention(RecordIds(ast), |RecordSlots(ast)|, Generate(ast).interfaces, ast.functions, ImportDecls(ast.externMods),
                          order, all);
  }

  /** Whatever the generator produced, reading its interface back gives the sorted interface exactly when
      all chains of types from the signatures stay within the limit, and otherwise reports that records
      are nested too deep; nothing is ever missing. */
  lemma GeneratedInterfaceReads(ast: ModuleAst, order: seq<nat>, visit: VisitOrder)
    requires Generate(ast).Generated? && Enumerates(order, NewMIT(Generate(ast).interfaces).adapterTypeToCore.Keys) && Lists(visit)
    ensures ExportFuncs(NewMIT(Generate(ast).interfaces), order).Ok?
    ensures var all, read := AllRecords(Generate(ast).interfaces.types), ExportFuncs(NewMIT(Generate(ast).interfaces), order).value;
            && ReadsOrTooDeep(all, GetInterface(all, read, visit))
            && (GetInterface(all, read, visit).Built? <==> AllBounded(all, ITypesOf(read)))
  {
    hide *;
    GeneratedRecordsClosed(ast);
    GeneratedMention(ast, order);
    ClosedInterfaceReads(AllRecords(Generate(ast).interfaces.types), ExportFuncs(NewMIT(Generate(ast).interfaces), order).value, visit);
  }
}
