/** The generator as it runs: a resolver whose tables grow in place, driven over the AST. */
module Generator {
  import opened Wrappers
  import opened RustInts
  import opened ITypes
  import opened SdkAst
  import opened ItAst
  import opened ExportApi
  import opened RecordTable
  import opened RecordValidation
  import opened Adapters
  import opened GeneratorSpec

  lemma AsU64Step(x: int)
    ensures AsU64(AsU64(x) + 1) == AsU64(x + 1) && AsU64(AsU64(x) - 1) == AsU64(x - 1)
  {
  }

  class ITResolver {
    var types: map<string, nat>
    var interfaces: Interfaces
    var unresolvedTypesCount: u64
    /** Stubs added less slots filled; the counter is this number modulo 2^64. */
    ghost var balance: int

    ghost predicate Valid()
      reads this
    {
      && unresolvedTypesCount == AsU64(balance)
      && forall n :: n in types ==> types[n] < |interfaces.types|
    }

    ghost function Tables(): Table
      reads this
    {
      Table(types, interfaces.types, balance)
    }

    constructor ()
      ensures Valid() && types == map[] && interfaces == EMPTY_INTERFACES && balance == 0
    {
      types, interfaces, unresolvedTypesCount, balance := map[], EMPTY_INTERFACES, 0, 0;
    }

    method GetRecordTypeIdUnchecked(recordName: string) returns (id: nat)
      requires Valid()
      modifies this
      ensures Valid() && (id, Tables()) == IdUnchecked(old(Tables()), recordName)
      ensures interfaces == old(interfaces).(types := interfaces.types)
    {
      if recordName in types {
        return types[recordName];
      }
      id := |interfaces.types|;
      AsU64Step(balance);
      types := types[recordName := id];
      interfaces := interfaces.(types := interfaces.types + [STUB]);
      unresolvedTypesCount, balance := AsU64(unresolvedTypesCount + 1), balance + 1;
    }

    method InsertRecordType(record: RecordType)
      requires Valid()
      modifies this
      ensures Valid() && Tables() == Insert(old(Tables()), record)
      ensures interfaces == old(interfaces).(types := interfaces.types)
    {
      if record.name in types {
        AsU64Step(balance);
        interfaces := interfaces.(types := interfaces.types[types[record.name] := AstType.Record(record)]);
        unresolvedTypesCount, balance := AsU64(unresolvedTypesCount - 1), balance - 1;
      } else {
        types := types[record.name := |interfaces.types|];
        interfaces := interfaces.(types := interfaces.types + [AstType.Record(record)]);
      }
    }

    method AddFnType(arguments: seq<FunctionArg>, outputTypes: seq<IType>)
      requires Valid()
      modifies this`interfaces
      ensures Valid()
      ensures interfaces == old(interfaces).(types := old(interfaces).types + [AstType.Function(arguments, outputTypes)])
    {
      interfaces := interfaces.(types := interfaces.types + [AstType.Function(arguments, outputTypes)]);
    }

    method AddExport(name: string, functionType: nat)
      requires Valid()
      modifies this`interfaces
      ensures Valid()
      ensures interfaces == old(interfaces).(exports := old(interfaces).exports + [Export(name, functionType)])
    {
      interfaces := interfaces.(exports := interfaces.exports + [Export(name, functionType)]);
    }

    method AddImport(namespace: string, name: string, functionType: nat)
      requires Valid()
      modifies this`interfaces
      ensures Valid()
      ensures interfaces == old(interfaces).(imports := old(interfaces).imports + [Import(namespace, name, functionType)])
    {
      interfaces := interfaces.(imports := interfaces.imports + [Import(namespace, name, functionType)]);
    }

    method AddAdapter(functionType: nat, instructions: seq<Instruction>)
      requires Valid()
      modifies this`interfaces
      ensures Valid()
      ensures interfaces == old(interfaces).(adapters := old(interfaces).adapters + [Adapter(functionType, instructions)])
    {
      interfaces := interfaces.(adapters := interfaces.adapters + [Adapter(functionType, instructions)]);
    }

    method AddImplementation(coreFunctionType: nat, adapterFunctionType: nat)
      requires Valid()
      modifies this`interfaces
      ensures Valid()
      ensures interfaces == old(interfaces).(implementations :=
                              old(interfaces).implementations + [Implementation(coreFunctionType, adapterFunctionType)])
    {
      interfaces := interfaces.(implementations :=
        interfaces.implementations + [Implementation(coreFunctionType, adapterFunctionType)]);
    }
  }

  // ----- Records -----

  method PtypeToItypeUnchecked(pty: ParsedType, resolver: ITResolver) returns (ty: IType)
    requires resolver.Valid()
    modifies resolver
    ensures resolver.Valid() && (ty, resolver.Tables()) == TypeUnchecked(old(resolver.Tables()), pty)
    ensures resolver.interfaces == old(resolver.interfaces).(types := resolver.interfaces.types)
    decreases pty
  {
    match pty
    case Vector(elem) =>
      var elemType := PtypeToItypeUnchecked(elem, resolver);
      ty := VectorOf(elemType);
    case Record(name) =>
      var id := resolver.GetRecordTypeIdUnchecked(name);
      ty := IType.Record(id);
    case _ =>
      ty := TypeUnchecked(Table(map[], [], 0), pty).0;
  }

  method GenerateRecord(def: RecordDef, resolver: ITResolver) returns (failure: Option<GenError>)
    requires resolver.Valid()
    modifies resolver
    ensures resolver.Valid()
    ensures Register(old(resolver.Tables()), def) == if failure.Some? then Err(failure.value) else Ok(resolver.Tables())
    ensures resolver.interfaces == old(resolver.interfaces).(types := resolver.interfaces.types)
  {
    if def.fields.Unit? {
      return None;
    }
    var fields := def.fields.fields;
    var converted: seq<RecordFieldType> := [];
    for i := 0 to |fields|
      invariant resolver.Valid()
      invariant FieldsUnchecked(old(resolver.Tables()), fields[..i]) == (converted, resolver.Tables())
      invariant resolver.interfaces == old(resolver.interfaces).(types := resolver.interfaces.types)
    {
      assert fields[..i + 1][..i] == fields[..i];
      var ty := PtypeToItypeUnchecked(fields[i].ty, resolver);
      converted := converted + [RecordFieldType(fields[i].name, ty)];
    }
    assert fields[..|fields|] == fields;
    if converted == [] {
      return Some(NoFields(def.name));
    }
    resolver.InsertRecordType(RecordType(def.name, converted));
    return None;
  }

  lemma {:induction false} RegisterAllStops(t: Table, defs: seq<RecordDef>, i: nat)
    requires i <= |defs| && RegisterAll(t, defs[..i]).Err?
    ensures RegisterAll(t, defs) == RegisterAll(t, defs[..i])
  {
    if i < |defs| {
      assert defs[..|defs| - 1][..i] == defs[..i];
      RegisterAllStops(t, defs[..|defs| - 1], i);
    } else {
      assert defs[..i] == defs;
    }
  }

  method GenerateRecords(defs: seq<RecordDef>, resolver: ITResolver) returns (failure: Option<GenError>)
    requires resolver.Valid()
    modifies resolver
    ensures resolver.Valid()
    ensures RegisterAll(old(resolver.Tables()), defs) == if failure.Some? then Err(failure.value) else Ok(resolver.Tables())
    ensures resolver.interfaces == old(resolver.interfaces).(types := resolver.interfaces.types)
  {
    for i := 0 to |defs|
      invariant resolver.Valid()
      invariant RegisterAll(old(resolver.Tables()), defs[..i]) == Ok(resolver.Tables())
      invariant resolver.interfaces == old(resolver.interfaces).(types := resolver.interfaces.types)
    {
      assert defs[..i + 1][..i] == defs[..i];
      failure := GenerateRecord(defs[i], resolver);
      if failure.Some? {
        RegisterAllStops(old(resolver.Tables()), defs, i + 1);
        return;
      }
    }
    assert defs[..|defs|] == defs;
    return None;
  }

  // ----- Exported functions -----

  method GenerateExport(signature: FnSignature, resolver: ITResolver) returns (failed: bool)
    requires resolver.Valid()
    modifies resolver`interfaces
    ensures resolver.Valid()
    ensures AddFunction(resolver.types, old(resolver.interfaces), signature) ==
            if failed then None else Some(resolver.interfaces)
  {
    var arguments := ItArgs(signature.arguments, resolver.types);
    var outputs := ItOutputs(signature.outputTypes, resolver.types);
    if arguments.None? || outputs.None? {
      return true;
    }
    resolver.AddFnType(arguments.value, outputs.value);
    resolver.AddFnType(arguments.value, outputs.value);
    resolver.AddExport(signature.name, |resolver.interfaces.types| - 1);
    assert ExportTypes(resolver.types, old(resolver.interfaces), signature) == Some(resolver.interfaces);

    var code := ExportInstructionList(signature, |resolver.interfaces.exports| - 1, resolver.types);
    if code.None? {
      return true;
    }
    var typesCount := |resolver.interfaces.types|;
    resolver.AddAdapter(typesCount - 2, code.value);
    resolver.AddImplementation(typesCount - 1, typesCount - 2);
    return false;
  }

  method ExportInstructionList(signature: FnSignature, functionIndex: nat, ids: map<string, nat>)
    returns (code: Option<seq<Instruction>>)
    ensures code == ExportCode(signature, functionIndex, ids)
  {
    code := ExportArgList(signature.arguments, ids);
    if code.None? {
      return;
    }
    var instructions := code.value + [CallCore(functionIndex)];
    var outputCode, shouldGenerateRelease := ExportOutputList(signature.outputTypes, ids);
    if outputCode.None? {
      return None;
    }
    instructions := instructions + outputCode.value;
    if shouldGenerateRelease {
      instructions := instructions + [CallCore(RELEASE_OBJECTS)];
    } else {
      assert instructions + [] == instructions;
    }
    return Some(instructions);
  }

  method ExportArgList(args: seq<FnArgument>, ids: map<string, nat>) returns (code: Option<seq<Instruction>>)
    ensures code == ExportArgs(args, 0, ids)
  {
    var instructions: seq<Instruction> := [];
    PrefixedNil(ExportArgs(args, 0, ids));
    assert args[0..] == args;
    for i := 0 to |args|
      invariant ExportArgs(args, 0, ids) == Prefixed(instructions, ExportArgs(args[i..], i, ids))
    {
      assert args[i..][0] == args[i] && args[i..][1..] == args[i + 1..];
      var next := ExportArg(args[i].ty, i, ids);
      if next.None? {
        return None;
      }
      PrefixedAppend(instructions, next.value, ExportArgs(args[i + 1..], i + 1, ids));
      instructions := instructions + next.value;
    }
    assert instructions + [] == instructions;
    return Some(instructions);
  }

  method ExportOutputList(outputs: seq<ParsedType>, ids: map<string, nat>)
    returns (code: Option<seq<Instruction>>, shouldGenerateRelease: bool)
    ensures code == ExportOutputs(outputs, ids)
    ensures code.Some? ==> shouldGenerateRelease == AnyComplex(outputs)
  {
    var instructions: seq<Instruction> := [];
    shouldGenerateRelease := false;
    PrefixedNil(ExportOutputs(outputs, ids));
    assert outputs[0..] == outputs;
    for i := 0 to |outputs|
      invariant ExportOutputs(outputs, ids) == Prefixed(instructions, ExportOutputs(outputs[i..], ids))
      invariant shouldGenerateRelease == AnyComplex(outputs[..i])
    {
      assert outputs[i..][0] == outputs[i] && outputs[i..][1..] == outputs[i + 1..];
      var next := ExportOutput(outputs[i], ids);
      if next.None? {
        return None, false;
      }
      PrefixedAppend(instructions, next.value, ExportOutputs(outputs[i + 1..], ids));
      instructions := instructions + next.value;
      AnyComplexSnoc(outputs, i);
      shouldGenerateRelease := shouldGenerateRelease || outputs[i].IsComplexType();
    }
    assert instructions + [] == instructions;
    assert outputs[..|outputs|] == outputs;
    return Some(instructions), shouldGenerateRelease;
  }

  function Prefixed(done: seq<Instruction>, rest: Option<seq<Instruction>>): Option<seq<Instruction>> {
    if rest.None? then None else Some(done + rest.value)
  }

  lemma PrefixedNil(rest: Option<seq<Instruction>>)
    ensures Prefixed([], rest) == rest
  {
    if rest.Some? { assert [] + rest.value == rest.value; }
  }

  lemma PrefixedAppend(done: seq<Instruction>, next: seq<Instruction>, rest: Option<seq<Instruction>>)
    ensures Prefixed(done, Prefixed(next, rest)) == Prefixed(done + next, rest)
  {
    if rest.Some? { assert done + (next + rest.value) == done + next + rest.value; }
  }

  lemma AnyComplexSnoc(ptys: seq<ParsedType>, i: nat)
    requires i < |ptys|
    ensures AnyComplex(ptys[..i + 1]) == (AnyComplex(ptys[..i]) || ptys[i].IsComplexType())
  {
  }

  // ----- Imported functions -----

  method GenerateImport(fn: ExternFn, namespace: string, resolver: ITResolver) returns (failed: bool)
    requires resolver.Valid()
    modifies resolver`interfaces
    ensures resolver.Valid()
    ensures GeneratorSpec.AddImport(resolver.types, old(resolver.interfaces), namespace, fn) ==
            if failed then None else Some(resolver.interfaces)
  {
    var arguments := ItArgs(fn.signature.arguments, resolver.types);
    var outputs := ItOutputs(fn.signature.outputTypes, resolver.types);
    if arguments.None? || outputs.None? {
      return true;
    }
    resolver.AddFnType(arguments.value, outputs.value);
    var rawArguments, rawOutputs := RawArgs(fn.signature.arguments), RawOutputs(fn.signature.outputTypes);
    resolver.AddFnType(rawArguments, rawOutputs);
    resolver.AddFnType(rawArguments, rawOutputs);
    var typesCount := |resolver.interfaces.types|;
    resolver.AddImport(namespace, LinkNameOf(fn), typesCount - 3);
    resolver.AddImport(namespace, LinkNameOf(fn), typesCount - 1);
    assert ImportTypes(resolver.types, old(resolver.interfaces), namespace, fn) == Some(resolver.interfaces);

    var importFunctionIndex := |resolver.interfaces.exports| + |resolver.interfaces.imports| / 2 - 1;
    var code := ImportInstructionList(fn.signature, importFunctionIndex, resolver.types);
    if code.None? {
      return true;
    }
    resolver.AddAdapter(typesCount - 2, code.value);
    resolver.AddImplementation(typesCount - 1, typesCount - 2);
    return false;
  }

  method ImportInstructionList(signature: FnSignature, functionIndex: nat, ids: map<string, nat>)
    returns (code: Option<seq<Instruction>>)
    ensures code == ImportCode(signature, functionIndex, ids)
  {
    var shouldGenerateRelease;
    code, shouldGenerateRelease := ImportArgList(signature.arguments, ids);
    if code.None? {
      return;
    }
    var instructions := code.value;
    if shouldGenerateRelease {
      instructions := instructions + [CallCore(RELEASE_OBJECTS)];
    } else {
      assert instructions + [] == instructions;
    }
    instructions := instructions + [CallCore(functionIndex)];
    var outputCode := ImportOutputList(signature.outputTypes, ids);
    if outputCode.None? {
      return None;
    }
    return Some(instructions + outputCode.value);
  }

  method ImportArgList(args: seq<FnArgument>, ids: map<string, nat>)
    returns (code: Option<seq<Instruction>>, shouldGenerateRelease: bool)
    ensures code == ImportArgs(args, 0, ids)
    ensures code.Some? ==> shouldGenerateRelease == AnyComplex(ArgTypes(args))
  {
    ghost var types := ArgTypes(args);
    var instructions: seq<Instruction> := [];
    var argId: nat := 0;
    shouldGenerateRelease := false;
    PrefixedNil(ImportArgs(args, 0, ids));
    assert args[0..] == args;
    for i := 0 to |args|
      invariant ImportArgs(args, 0, ids) == Prefixed(instructions, ImportArgs(args[i..], argId, ids))
      invariant shouldGenerateRelease == AnyComplex(types[..i])
    {
      assert args[i..][0] == args[i] && args[i..][1..] == args[i + 1..];
      var next, shift := ImportArg(args[i].ty, argId, ids), ImportShift(args[i].ty);
      if next.None? {
        return None, false;
      }
      AnyComplexSnoc(types, i);
      shouldGenerateRelease := shouldGenerateRelease || args[i].ty.IsComplexType();
      PrefixedAppend(instructions, next.value, ImportArgs(args[i + 1..], argId + shift, ids));
      instructions, argId := instructions + next.value, argId + shift;
    }
    assert instructions + [] == instructions;
    assert types[..|args|] == types;
    return Some(instructions), shouldGenerateRelease;
  }

  method ImportOutputList(outputs: seq<ParsedType>, ids: map<string, nat>) returns (code: Option<seq<Instruction>>)
    ensures code == ImportOutputs(outputs, ids)
  {
    var instructions: seq<Instruction> := [];
    PrefixedNil(ImportOutputs(outputs, ids));
    assert outputs[0..] == outputs;
    for i := 0 to |outputs|
      invariant ImportOutputs(outputs, ids) == Prefixed(instructions, ImportOutputs(outputs[i..], ids))
    {
      assert outputs[i..][0] == outputs[i] && outputs[i..][1..] == outputs[i + 1..];
      var next := ImportOutput(outputs[i], ids);
      if next.None? {
        return None;
      }
      PrefixedAppend(instructions, next.value, ImportOutputs(outputs[i + 1..], ids));
      instructions := instructions + next.value;
    }
    assert instructions + [] == instructions;
    return Some(instructions);
  }

  method GenerateExternMod(extern: ExternMod, resolver: ITResolver) returns (failed: bool)
    requires resolver.Valid()
    modifies resolver`interfaces
    ensures resolver.Valid()
    ensures AddExternMod(resolver.types, old(resolver.interfaces), extern) ==
            if failed then None else Some(resolver.interfaces)
  {
    if IsHostImport(extern.namespace) {
      return false;
    }
    ghost var whole := AddImports(resolver.types, resolver.interfaces, extern.namespace, extern.imports);
    for i := 0 to |extern.imports|
      invariant resolver.Valid()
      invariant whole == AddImports(resolver.types, resolver.interfaces, extern.namespace, extern.imports[i..])
    {
      assert extern.imports[i..][1..] == extern.imports[i + 1..];
      failed := GenerateImport(extern.imports[i], extern.namespace, resolver);
      if failed {
        return;
      }
    }
    return false;
  }

  // ----- The whole run -----

  /** generate_interfaces: helpers, records, validation, exported functions, imported functions. */
  method GenerateInterfaces(ast: ModuleAst) returns (result: Generation)
    ensures result == Generate(ast)
  {
    var resolver := new ITResolver();
    resolver.interfaces := DefaultExportApi();
    var failure := GenerateRecords(ast.records, resolver);
    if failure.Some? {
      return Failed(failure.value);
    }
    ghost var tables := resolver.Tables();
    var verdict := RunValidateRecords(resolver.interfaces.types, resolver.unresolvedTypesCount);
    if verdict.Rejected? {
      return Failed(verdict.error);
    }
    if verdict.Panicked? {
      return GeneratorPanic;
    }
    ghost var exported := AddFunctions(resolver.types, resolver.interfaces, ast.functions);
    for i := 0 to |ast.functions|
      invariant resolver.Valid() && resolver.types == tables.ids
      invariant exported == AddFunctions(resolver.types, resolver.interfaces, ast.functions[i..])
    {
      assert ast.functions[i..][1..] == ast.functions[i + 1..];
      var failed := GenerateExport(ast.functions[i], resolver);
      if failed {
        return Failed(RecordNotFound);
      }
    }
    ghost var linked := AddExternMods(resolver.types, resolver.interfaces, ast.externMods);
    for i := 0 to |ast.externMods|
      invariant resolver.Valid() && resolver.types == tables.ids
      invariant linked == AddExternMods(resolver.types, resolver.interfaces, ast.externMods[i..])
    {
      assert ast.externMods[i..][1..] == ast.externMods[i + 1..];
      var failed := GenerateExternMod(ast.externMods[i], resolver);
      if failed {
        return Failed(RecordNotFound);
      }
    }
    return Generated(resolver.interfaces);
  }
}
