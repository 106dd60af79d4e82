/** The interface-types section: its tables (wasmer_it::ast) and the instructions adapters are made of. */
module ItAst {
  import opened ITypes

  datatype Instruction =
    | ArgumentGet(index: nat)
    | CallCore(functionIndex: nat)
    | PushI32(value: int)
    | Dup | Swap2
    | BoolFromI32 | S8FromI32 | S16FromI32 | S32FromI32 | S64FromI64
    | U8FromI32 | U16FromI32 | U32FromI32 | U64FromI64
    | I32FromBool | I32FromS8 | I32FromS16 | I32FromS32 | I64FromS64
    | I32FromU8 | I32FromU16 | I32FromU32 | I64FromU64
    | StringSize | StringLiftMemory | StringLowerMemory
    | ByteArrayLiftMemory
    | ArrayLiftMemory(valueType: IType) | ArrayLowerMemory(valueType: IType)
    | RecordLiftMemory(recordTypeId: nat) | RecordLowerMemory(recordTypeId: nat)

  datatype Import = Import(namespace: string, name: string, functionType: nat)

  datatype Export = Export(name: string, functionType: nat)

  datatype Adapter = Adapter(functionType: nat, instructions: seq<Instruction>)

  datatype Implementation = Implementation(coreFunctionType: nat, adapterFunctionType: nat)

  datatype Interfaces = Interfaces(
    types: seq<AstType>,
    imports: seq<Import>,
    adapters: seq<Adapter>,
    exports: seq<Export>,
    implementations: seq<Implementation>)
}

/** The functions every SDK module exports for the runtime, at fixed indexes. */
module ExportApi {
  import opened ITypes
  import opened ItAst

  const ALLOCATE_FUNC := 0
  const RELEASE_OBJECTS := 1
  const GET_RESULT_SIZE_FUNC := 2
  const GET_RESULT_PTR_FUNC := 3
  const SET_RESULT_SIZE_FUNC := 4
  const SET_RESULT_PTR_FUNC := 5
  const API_COUNT := 6

  datatype ApiExportFuncDescriptor =
    ApiExportFuncDescriptor(name: string, id: nat, arguments: seq<FunctionArg>, outputTypes: seq<IType>)

  const API_FUNCS: seq<ApiExportFuncDescriptor> := [
    ApiExportFuncDescriptor("allocate", 0, [FunctionArg("size", IType.I32)], [IType.I32]),
    ApiExportFuncDescriptor("release_objects", 1, [], []),
    ApiExportFuncDescriptor("get_result_size", 2, [], [IType.I32]),
    ApiExportFuncDescriptor("get_result_ptr", 3, [], [IType.I32]),
    ApiExportFuncDescriptor("set_result_size", 4, [FunctionArg("result_size", IType.I32)], []),
    ApiExportFuncDescriptor("set_result_ptr", 5, [FunctionArg("result_ptr", IType.I32)], [])
  ]

  function UpdateInterfaces(descriptor: ApiExportFuncDescriptor, interfaces: Interfaces): Interfaces {
    interfaces.(
      types := interfaces.types + [AstType.Function(descriptor.arguments, descriptor.outputTypes)],
      exports := interfaces.exports + [Export(descriptor.name, descriptor.id)])
  }

  const EMPTY_INTERFACES := Interfaces([], [], [], [], [])

  /** generate_default_export_api: the six helpers, in the order of their ids. */
  function DefaultExportApi(): (r: Interfaces)
    ensures |r.types| == |r.exports| == API_COUNT
    ensures forall h :: 0 <= h < API_COUNT ==>
              && r.types[h] == AstType.Function(API_FUNCS[h].arguments, API_FUNCS[h].outputTypes)
              && r.exports[h] == Export(API_FUNCS[h].name, h)
    ensures r.imports == [] && r.adapters == [] && r.implementations == []
  {
    var i0 := UpdateInterfaces(API_FUNCS[0], EMPTY_INTERFACES);
    var i1 := UpdateInterfaces(API_FUNCS[1], i0);
    var i2 := UpdateInterfaces(API_FUNCS[2], i1);
    var i3 := UpdateInterfaces(API_FUNCS[3], i2);
    var i4 := UpdateInterfaces(API_FUNCS[4], i3);
    UpdateInterfaces(API_FUNCS[5], i4)
  }
}
