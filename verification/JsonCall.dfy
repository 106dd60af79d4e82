/** Calls with JSON arguments: json_to_ivalues, the export adapter and ivalues_to_json, one after the
    other. */
module JsonCall {
  import opened Wrappers
  import opened ITypes
  import opened Graphs
  import opened SdkAst
  import opened RecordTable
  import opened Adapters
  import opened GeneratorSpec
  import opened Collections
  import opened Loader
  import opened Machine
  import opened ImportMeaning
  import opened ExportMeaning
  import opened LinkMeaning
  import opened ModuleLink
  import opened RecordClosure
  import opened ModuleInterface
  import opened Json
  import opened JsonLaws

  /** The names and types JSON arguments are read against. */
  function JsonFields(arguments: seq<FunctionArg>): seq<RecordFieldType> {
    seq(|arguments|, i requires 0 <= i < |arguments| => RecordFieldType(arguments[i].name, arguments[i].ty))
  }

  // ----- JSON's types of values and the machine's -----

  /** What JSON can say of a type is a value of it for the module. */
  lemma {:induction false} PlainConforms(v: IValue, ty: IType, records: RecordTypes, types: seq<AstType>)
    requires HasType(v, ty, records) && Plain(v) && PartOf(records, AllRecords(types))
    ensures Conforms(v, ty, types)
    decreases v
  {
    match (v, ty)
    case (Array(items), ByteArray) =>
      forall i | 0 <= i < |items| ensures items[i].U8? { assert HasType(items[i], IType.U8, records); }
    case (Array(items), Array(elem)) =>
      forall i | 0 <= i < |items| ensures Conforms(items[i], elem, types) { PlainConforms(items[i], elem, records, types); }
    case (Record(vs), Record(id)) =>
      forall i | 0 <= i < |vs| ensures Conforms(vs[i], types[id].record.fields[i].ty, types) {
        PlainConforms(vs[i], records[id].fields[i].ty, records, types);
      }
    case _ =>
  }

  lemma FieldMentioned(records: RecordTypes, id: nat, i: nat)
    requires Closed(records) && id in records && i < |records[id].fields|
    ensures Mentions(records[id].fields[i].ty) <= records.Keys
  {
    forall b | b in Mentions(records[id].fields[i].ty) ensures b in records {
      assert Edge(RefGraph(records), id, b);
    }
  }

  /** A value of the module can be put into JSON, if the interface shows the records of its type. */
  lemma {:induction false} ConformingIsTyped(v: IValue, ty: IType, records: RecordTypes, types: seq<AstType>)
    requires Conforms(v, ty, types) && PartOf(records, AllRecords(types)) && Closed(records) && Mentions(ty) <= records.Keys
    ensures HasType(v, ty, records)
    decreases v
  {
    match (v, ty)
    case (Array(items), ByteArray) =>
    case (Array(items), Array(elem)) =>
      forall i | 0 <= i < |items| ensures HasType(items[i], elem, records) { ConformingIsTyped(items[i], elem, records, types); }
    case (Record(vs), Record(id)) =>
      assert id in records;
      forall i | 0 <= i < |vs| ensures HasType(vs[i], records[id].fields[i].ty, records) {
        FieldMentioned(records, id, i);
        ConformingIsTyped(vs[i], records[id].fields[i].ty, records, types);
      }
    case _ =>
  }

  /** The form JSON gives a value and the form memory gives it cancel out. */
  lemma {:induction false} CanonicalOfNormal(v: IValue, ty: IType, types: seq<AstType>)
    requires Conforms(v, ty, types) && Canonical(v, ty, types) == v
    ensures Canonical(Normalise(v), ty, types) == v
    decreases v
  {
    match (ty, v)
    case (ByteArray, ByteArray(bytes)) =>
      assert BytesOf(Normalise(v).items) == bytes;
    case (Array(elem), Array(items)) =>
      var back := Canonical(Normalise(v), ty, types);
      forall i | 0 <= i < |items| ensures back.items[i] == items[i] {
        assert Canonical(v, ty, types).items[i] == Canonical(items[i], elem, types);
        CanonicalOfNormal(items[i], elem, types);
      }
      assert back.items == items;
    case (Record(id), Record(fields)) =>
      var back := Canonical(Normalise(v), ty, types);
      forall i | 0 <= i < |fields| ensures back.fields[i] == fields[i] {
        assert Canonical(v, ty, types).fields[i] == Canonical(fields[i], types[id].record.fields[i].ty, types);
        CanonicalOfNormal(fields[i], types[id].record.fields[i].ty, types);
      }
      assert back.fields == fields;
    case _ =>
  }

  // ----- One call -----

  /** The records shown with a signature: a closed part of the module's types that has all it mentions. */
  ghost predicate Shown(records: RecordTypes, arguments: seq<FunctionArg>, outputs: seq<IType>, types: seq<AstType>) {
    && PartOf(records, AllRecords(types)) && Closed(records)
    && (forall i :: 0 <= i < |arguments| ==> Mentions(arguments[i].ty) <= records.Keys)
    && (forall i :: 0 <= i < |outputs| ==> Mentions(outputs[i]) <= records.Keys)
  }

  /** Decoded arguments are arguments for the export adapter. */
  lemma JsonArgumentsConform(ctx: Context, ids: map<string, nat>, args: seq<FnArgument>, records: RecordTypes,
                             j: JValue, vs: seq<IValue>)
    requires ItArgs(args, ids).Some? && PartOf(records, AllRecords(ctx.types))
    requires JsonToIValues(j, JsonFields(ItArgs(args, ids).value), records) == Ok(vs)
    ensures ArgsConform(ctx, ids, args, vs)
  {
    var fields := JsonFields(ItArgs(args, ids).value);
    ArgumentsAreTyped(j, fields, records, vs);
    ItArgTypes(args, ids);
    forall i | 0 <= i < |args|
      ensures Convert(args[i].ty, ids).Some? && Conforms(vs[i], Convert(args[i].ty, ids).value, ctx.types)
    {
      PlainConforms(vs[i], fields[i].ty, records, ctx.types);
    }
  }

  /** Results of the declared types can be put into JSON. */
  lemma ResultsEncode(rs: seq<IValue>, outputs: seq<IType>, records: RecordTypes, types: seq<AstType>)
    requires |outputs| <= 1 && AllConform(rs, outputs, types)
    requires Shown(records, [], outputs, types)
    ensures IValuesToJson(rs, outputs, records).Converted? && IValuesToJson(rs, outputs, records).result.Ok?
  {
    if outputs != [] {
      ConformingIsTyped(rs[0], outputs[0], records, types);
      EncodesExactlyTyped(rs[0], outputs[0], records);
    }
  }

  /** What a call with JSON arguments that stand for `ws` comes to: the result of the core function on
      `ws`, as JSON, or a trap because the module's allocator refused an argument or the core function
      gave nothing. */
  ghost predicate AnswersJson(ctx: Context, ids: map<string, nat>, signature: FnSignature, f: CoreFn, ws: seq<IValue>, rs: seq<IValue>,
                              outputs: seq<IType>, records: RecordTypes, world: World, outcome: Outcome)
  {
    && Returns(ctx, ids, signature, f, ws, rs, world, outcome)
    && (outcome.Done? ==>
          && IValuesToJson(outcome.st.stack, outputs, records).Converted?
          && IValuesToJson(outcome.st.stack, outputs, records).result.Ok?)
  }

  /** `sem` gives results of the declared types. */
  ghost predicate WellTyped(ctx: Context, ids: map<string, nat>, signature: FnSignature, outputs: seq<IType>,
                            sem: seq<IValue> -> seq<IValue>)
  {
    forall ws :: ArgsConform(ctx, ids, signature.arguments, ws) ==> AllConform(sem(ws), outputs, ctx.types)
  }

  /** Whatever JSON decodes to arguments of an exported function reaches its core function through the
      export adapter, byte arrays as such, and the result goes back into JSON; the call finishes if nothing
      stands in its way. */
  lemma JsonCallComputes(ctx: Context, ids: map<string, nat>, signature: FnSignature, index: nat, f: CoreFn,
                         sem: seq<IValue> -> seq<IValue>, records: RecordTypes, j: JValue, vs: seq<IValue>, world: World)
    requires HasHelpers(ctx) && Fresh(ctx.alloc) && |signature.outputTypes| <= 1
    requires HasCore(ctx, signature, index, f) && Implements(f, ctx, ids, signature, sem)
    requires ExportCode(signature, index, ids).Some?
    requires ItArgs(signature.arguments, ids).Some? && ItOutputs(signature.outputTypes, ids).Some?
    requires Shown(records, ItArgs(signature.arguments, ids).value, ItOutputs(signature.outputTypes, ids).value, ctx.types)
    requires JsonToIValues(j, JsonFields(ItArgs(signature.arguments, ids).value), records) == Ok(vs)
    requires WellTyped(ctx, ids, signature, ItOutputs(signature.outputTypes, ids).value, sem)
    ensures ArgsConform(ctx, ids, signature.arguments, vs)
    ensures var ws := CanonicalArgs(ctx, ids, signature.arguments, vs);
            var o := Run(ctx, ExportCode(signature, index, ids).value, vs, State([], world));
            && AnswersJson(ctx, ids, signature, f, ws, sem(ws), ItOutputs(signature.outputTypes, ids).value, records, world, o)
            && (Unhindered(ctx, ids, signature, f, ws, world) ==> o.Done?)
  {
    JsonArgumentsConform(ctx, ids, signature.arguments, records, j, vs);
    var ws, outputs := CanonicalArgs(ctx, ids, signature.arguments, vs), ItOutputs(signature.outputTypes, ids).value;
    ExportAdapterMeaning(ctx, ids, signature, index, f, sem, vs, world);
    ItOutputTypes(signature.outputTypes, ids);
    ResultsEncode(sem(ws), outputs, records, ctx.types);
  }

  /** Values sent as JSON arrive at the core function as they were: `js` encodes `ws`, which JSON can
      carry; then the arguments decoded from it stand for `ws` again. */
  lemma {:induction false} EncodedArgumentsArrive(ctx: Context, ids: map<string, nat>, args: seq<FnArgument>, records: RecordTypes,
                                                  ws: seq<IValue>, js: seq<JValue>)
    requires ArgsConform(ctx, ids, args, ws) && CanonicalArgs(ctx, ids, args, ws) == ws
    requires ItArgs(args, ids).Some? && PartOf(records, AllRecords(ctx.types)) && |js| == |args|
    requires forall i :: 0 <= i < |args| ==>
               Encode(ws[i], Convert(args[i].ty, ids).value, records) == Ok(js[i]) && JsonSafe(ws[i], Convert(args[i].ty, ids).value, records)
    ensures JsonToIValues(Arr(js), JsonFields(ItArgs(args, ids).value), records).Ok?
    ensures var vs := JsonToIValues(Arr(js), JsonFields(ItArgs(args, ids).value), records).value;
            ArgsConform(ctx, ids, args, vs) && CanonicalArgs(ctx, ids, args, vs) == ws
  {
    hide Decode, Encode, HasType, Conforms, Canonical, Normalise, JsonSafe, DecodePositional, Plain, Convert;
    var fields := JsonFields(ItArgs(args, ids).value);
    ItArgTypes(args, ids);
    forall i | 0 <= i < |args|
      ensures Decode(js[i], fields[i].ty, records) == Ok(Normalise(ws[i]))
    {
      RoundTrip(ws[i], fields[i].ty, records);
    }
    DecodePositionalEach(Arr(js), fields, 0, records);
    var vs := DecodePositional(Arr(js), fields, 0, records).value;
    JsonArgumentsConform(ctx, ids, args, records, Arr(js), vs);
    var back := CanonicalArgs(ctx, ids, args, vs);
    forall i | 0 <= i < |args|
      ensures back[i] == ws[i]
    {
      assert Decode(js[i], fields[i].ty, records) == Ok(vs[i - 0]);
      assert CanonicalArgs(ctx, ids, args, ws)[i] == ws[i];
      CanonicalOfNormal(ws[i], fields[i].ty, ctx.types);
    }
    assert back == ws;
  }

  // ----- One call of a loaded module -----

  lemma {:induction false} TypesListed(signatures: seq<IFunctionSignature>, s: IFunctionSignature, k: nat)
    requires s in signatures && k < |SignatureTypes(s)|
    ensures SignatureTypes(s)[k] in ITypesOf(signatures)
  {
    var first, rest := SignatureTypes(signatures[0]), ITypesOf(signatures[1..]);
    if s == signatures[0] {
      assert (first + rest)[k] == first[k];
    } else {
      TypesListed(signatures[1..], s, k);
      var i :| 0 <= i < |rest| && rest[i] == SignatureTypes(s)[k];
      assert (first + rest)[|first| + i] == rest[i];
    }
  }

  lemma CollectedShows(types: seq<AstType>, signatures: seq<IFunctionSignature>, s: IFunctionSignature)
    requires GetRecordTypes(AllRecords(types), ITypesOf(signatures)).Ok? && s in signatures
    ensures Shown(GetRecordTypes(AllRecords(types), ITypesOf(signatures)).value, s.arguments, s.outputs, types)
  {
    var all, itypes := AllRecords(types), ITypesOf(signatures);
    var records := GetRecordTypes(all, itypes).value;
    CollectsExactlyTheNeeded(all, itypes);
    forall k | 0 <= k < |SignatureTypes(s)|
      ensures Mentions(SignatureTypes(s)[k]) <= records.Keys
    {
      TypesListed(signatures, s, k);
      forall id | id in Mentions(SignatureTypes(s)[k]) ensures id in records {
        assert Needed(all, RootMentions(itypes), id);
      }
    }
    forall i | 0 <= i < |s.arguments| ensures Mentions(s.arguments[i].ty) <= records.Keys {
      assert SignatureTypes(s)[i] == s.arguments[i].ty;
    }
    forall i | 0 <= i < |s.outputs| ensures Mentions(s.outputs[i]) <= records.Keys {
      assert SignatureTypes(s)[|s.arguments| + i] == s.outputs[i];
    }
  }

  /** The interface entry under a function's name is that function's signature. */
  lemma NamedSignature(b: Instance, order: seq<nat>, j: nat, s: IFunctionSignature)
    requires Generate(b.ast).Generated? && DistinctNames(b.ast.functions) && j < |b.ast.functions|
    requires Enumerates(order, NewMIT(Generate(b.ast).interfaces).adapterTypeToCore.Keys)
    requires ExportFuncs(NewMIT(Generate(b.ast).interfaces), order).Ok?
    requires s in ExportFuncs(NewMIT(Generate(b.ast).interfaces), order).value && s.name == b.ast.functions[j].name
    ensures ItArgs(b.ast.functions[j].arguments, RecordIds(b.ast)) == Some(s.arguments)
    ensures ItOutputs(b.ast.functions[j].outputTypes, RecordIds(b.ast)) == Some(s.outputs)
  {
    hide *;
    var expected := InterfaceNames(b.ast, b.ctx, order, j);
    assert forall x, y :: 0 <= x < y < |expected| ==> expected[x].name != expected[y].name by { NamesDiffer(b.ast.functions); }
    OnlyOneNamed(ExportFuncs(NewMIT(Generate(b.ast).interfaces), order).value, expected, j);
  }

  /** The interface that a JSON call of function `fn` of a loaded module is read against. */
  ghost predicate Interfaced(b: Instance, order: seq<nat>, fn: FnSignature, s: IFunctionSignature, records: RecordTypes) {
    && ExportFuncs(b.mit, order).Ok? && s in ExportFuncs(b.mit, order).value && s.name == fn.name
    && GetRecordTypes(AllRecords(b.mit.types), ITypesOf(ExportFuncs(b.mit, order).value)) == Ok(records)
  }

  lemma InterfacedFits(b: Instance, order: seq<nat>, callables: map<string, Callable>, j: nat, s: IFunctionSignature,
                       records: RecordTypes)
    requires Live(b) && Offers(b, order, callables) && DistinctNames(b.ast.functions) && j < |b.ast.functions|
    requires Interfaced(b, order, b.ast.functions[j], s, records)
    ensures ItArgs(b.ast.functions[j].arguments, RecordIds(b.ast)) == Some(s.arguments)
    ensures ItOutputs(b.ast.functions[j].outputTypes, RecordIds(b.ast)) == Some(s.outputs)
    ensures Shown(records, s.arguments, s.outputs, b.ctx.types)
  {
    hide Generate, NewInstance, ExportFuncs, InstantiateExports, GetRecordTypes, ITypesOf, DistinctNames, Shown, ItArgs, ItOutputs;
    NamedSignature(b, order, j, s);
    CollectedShows(b.mit.types, ExportFuncs(b.mit, order).value, s);
  }

  /** A JSON call of a loaded module: the arguments are read against the module's interface, as it was
      read back in any order; the callable found under the function's name computes the core function. */
  lemma LoadedModuleAnswersJson(
      b: Instance, order: seq<nat>, callables: map<string, Callable>, j: nat, s: IFunctionSignature, records: RecordTypes,
      sem: seq<IValue> -> seq<IValue>, json: JValue, vs: seq<IValue>, world: World)
    requires Live(b) && Offers(b, order, callables) && DistinctNames(b.ast.functions) && j < |b.ast.functions|
    requires HasRawExport(b, b.ast.functions[j]) && |b.ast.functions[j].outputTypes| <= 1
    requires Interfaced(b, order, b.ast.functions[j], s, records)
    requires Implements(b.cores[b.ast.functions[j].name].f, b.ctx, RecordIds(b.ast), b.ast.functions[j], sem)
    requires WellTyped(b.ctx, RecordIds(b.ast), b.ast.functions[j], s.outputs, sem)
    requires JsonToIValues(json, JsonFields(s.arguments), records) == Ok(vs)
    ensures b.ast.functions[j].name in callables
    ensures ArgsConform(b.ctx, RecordIds(b.ast), b.ast.functions[j].arguments, vs)
    ensures var fn, ws := b.ast.functions[j], CanonicalArgs(b.ctx, RecordIds(b.ast), b.ast.functions[j].arguments, vs);
            var o := Run(b.ctx, callables[fn.name].code, vs, State([], world));
            && AnswersJson(b.ctx, RecordIds(b.ast), fn, b.cores[fn.name].f, ws, sem(ws), s.outputs, records, world, o)
            && (Unhindered(b.ctx, RecordIds(b.ast), fn, b.cores[fn.name].f, ws, world) ==> o.Done?)
  {
    hide Live, Offers, DistinctNames, Interfaced, Implements, WellTyped, JsonToIValues, ArgsConform, CanonicalArgs, AnswersJson, Unhindered, Run,
         HasCore, Shown, ItArgs, ItOutputs, ExportCode, JsonFields;
    var fn := b.ast.functions[j];
    OfferedCallable(b, order, callables, j);
    ExportingSide(b, j, map[]);
    InterfacedFits(b, order, callables, j, s, records);
    JsonCallComputes(b.ctx, RecordIds(b.ast), fn, ExportIndex(j), b.cores[fn.name].f, sem, records, json, vs, world);
  }
}
