/** The instruction sequences the generator emits for one argument, one result and one signature. */
module Adapters {
  import opened Wrappers
  import opened ITypes
  import opened SdkAst
  import opened ItAst
  import opened ExportApi
  import opened RecordTable

  /** it_lilo's size of a serialised u8, passed to `allocate` as its type tag. */
  const U8_TYPE_TAG := 1

  // ----- Raw signatures: what the Wasm side of an import looks like -----

  function RawInputTypes(pty: ParsedType): (r: seq<IType>)
    ensures |r| == if pty.Utf8Str? || pty.Utf8String? || pty.Vector? then 2 else 1
  {
    match pty
    case Boolean | I8 | I16 | I32 | U8 | U16 | U32 | Record(_) => [IType.I32]
    case I64 | U64 => [IType.I64]
    case F32 => [IType.F32]
    case F64 => [IType.F64]
    case Utf8Str | Utf8String | Vector(_) => [IType.I32, IType.I32]
  }

  function Width(pty: ParsedType): nat {
    |RawInputTypes(pty)|
  }

  /** to_raw_input_types; the source gives both halves of a pointer-and-size pair the `_ptr` suffix. */
  function ToRawInputTypes(arg: FnArgument): seq<FunctionArg> {
    var types := RawInputTypes(arg.ty);
    if |types| == 1 then [FunctionArg(arg.name, types[0])]
    else [FunctionArg(arg.name + "_ptr", types[0]), FunctionArg(arg.name + "_ptr", types[1])]
  }

  /** to_raw_output_type followed by wtype_to_itype: signed 32 and 64 bit types stand for i32 and i64. */
  function ToRawOutputType(pty: ParsedType): seq<IType> {
    match pty
    case Boolean | I8 | I16 | I32 | U8 | U16 | U32 => [IType.S32]
    case I64 | U64 => [IType.S64]
    case F32 => [IType.F32]
    case F64 => [IType.F64]
    case Utf8Str | Utf8String | Vector(_) | Record(_) => []
  }

  function RawArgs(args: seq<FnArgument>): seq<FunctionArg> {
    if args == [] then [] else ToRawInputTypes(args[0]) + RawArgs(args[1..])
  }

  function RawOutputs(outputs: seq<ParsedType>): seq<IType> {
    if outputs == [] then [] else ToRawOutputType(outputs[0]) + RawOutputs(outputs[1..])
  }

  // ----- Interface-level signatures -----

  function ItArgs(args: seq<FnArgument>, ids: map<string, nat>): Option<seq<FunctionArg>> {
    if args == [] then Some([])
    else
      match (Convert(args[0].ty, ids), ItArgs(args[1..], ids))
      case (Some(ty), Some(rest)) => Some([FunctionArg(args[0].name, ty)] + rest)
      case _ => None
  }

  function ItOutputs(outputs: seq<ParsedType>, ids: map<string, nat>): Option<seq<IType>> {
    if outputs == [] then Some([])
    else
      match (Convert(outputs[0], ids), ItOutputs(outputs[1..], ids))
      case (Some(ty), Some(rest)) => Some([ty] + rest)
      case _ => None
  }

  // ----- Export adapters (fn_instructions) -----

  /** Lowers the interface value at argument `index` to its raw form. */
  function ExportArg(pty: ParsedType, index: nat, ids: map<string, nat>): Option<seq<Instruction>> {
    match pty
    case Boolean => Some([ArgumentGet(index), I32FromBool])
    case I8 => Some([ArgumentGet(index), I32FromS8])
    case I16 => Some([ArgumentGet(index), I32FromS16])
    case I32 => Some([ArgumentGet(index), I32FromS32])
    case I64 => Some([ArgumentGet(index), I64FromS64])
    case U8 => Some([ArgumentGet(index), I32FromU8])
    case U16 => Some([ArgumentGet(index), I32FromU16])
    case U32 => Some([ArgumentGet(index), I32FromU32])
    case U64 => Some([ArgumentGet(index), I64FromU64])
    case F32 => Some([ArgumentGet(index)])
    case F64 => Some([ArgumentGet(index)])
    case Utf8Str | Utf8String =>
      Some([ArgumentGet(index), StringSize, PushI32(U8_TYPE_TAG), CallCore(ALLOCATE_FUNC),
            ArgumentGet(index), StringLowerMemory])
    case Vector(elem) =>
      (match Convert(elem, ids)
       case None => None
       case Some(ty) => Some([ArgumentGet(index), ArrayLowerMemory(ty)]))
    case Record(name) =>
      if name in ids then Some([ArgumentGet(index), RecordLowerMemory(ids[name])]) else None
  }

  /** Lifts the raw result on the stack, or the one announced through the result cells. */
  function ExportOutput(pty: ParsedType, ids: map<string, nat>): Option<seq<Instruction>> {
    match pty
    case Boolean => Some([BoolFromI32])
    case I8 => Some([S8FromI32])
    case I16 => Some([S16FromI32])
    case I32 => Some([S32FromI32])
    case I64 => Some([S64FromI64])
    case U8 => Some([U8FromI32])
    case U16 => Some([U16FromI32])
    case U32 => Some([U32FromI32])
    case U64 => Some([U64FromI64])
    case F32 => Some([])
    case F64 => Some([])
    case Utf8Str | Utf8String =>
      Some([CallCore(GET_RESULT_PTR_FUNC), CallCore(GET_RESULT_SIZE_FUNC), StringLiftMemory])
    case Vector(elem) =>
      (match Convert(elem, ids)
       case None => None
       case Some(ty) =>
         if ty.U8? then Some([CallCore(GET_RESULT_PTR_FUNC), CallCore(GET_RESULT_SIZE_FUNC), ByteArrayLiftMemory])
         else Some([CallCore(GET_RESULT_PTR_FUNC), CallCore(GET_RESULT_SIZE_FUNC), ArrayLiftMemory(ty)]))
    case Record(name) =>
      if name in ids then Some([CallCore(GET_RESULT_PTR_FUNC), RecordLiftMemory(ids[name])]) else None
  }

  function ExportArgs(args: seq<FnArgument>, index: nat, ids: map<string, nat>): Option<seq<Instruction>> {
    if args == [] then Some([])
    else
      match (ExportArg(args[0].ty, index, ids), ExportArgs(args[1..], index + 1, ids))
      case (Some(code), Some(rest)) => Some(code + rest)
      case _ => None
  }

  function ExportOutputs(outputs: seq<ParsedType>, ids: map<string, nat>): Option<seq<Instruction>> {
    if outputs == [] then Some([])
    else
      match (ExportOutput(outputs[0], ids), ExportOutputs(outputs[1..], ids))
      case (Some(code), Some(rest)) => Some(code + rest)
      case _ => None
  }

  predicate AnyComplex(ptys: seq<ParsedType>) {
    exists i :: 0 <= i < |ptys| && ptys[i].IsComplexType()
  }

  function ArgTypes(args: seq<FnArgument>): seq<ParsedType> {
    seq(|args|, i requires 0 <= i < |args| => args[i].ty)
  }

  function Release(needed: bool): seq<Instruction> {
    if needed then [CallCore(RELEASE_OBJECTS)] else []
  }

  /** The adapter of an exported function: lower the arguments, call it, lift the result, release. */
  function ExportCode(signature: FnSignature, functionIndex: nat, ids: map<string, nat>): Option<seq<Instruction>> {
    match (ExportArgs(signature.arguments, 0, ids), ExportOutputs(signature.outputTypes, ids))
    case (Some(args), Some(outputs)) =>
      Some(args + [CallCore(functionIndex)] + outputs + Release(AnyComplex(signature.outputTypes)))
    case _ => None
  }

  // ----- Import adapters (foreign_mod_instructions) -----

  /** Lifts the raw argument or arguments from `index` on to one interface value. */
  function ImportArg(pty: ParsedType, index: nat, ids: map<string, nat>): Option<seq<Instruction>> {
    match pty
    case Boolean => Some([ArgumentGet(index), BoolFromI32])
    case I8 => Some([ArgumentGet(index), S8FromI32])
    case I16 => Some([ArgumentGet(index), S16FromI32])
    case I32 => Some([ArgumentGet(index), S32FromI32])
    case I64 => Some([ArgumentGet(index), S64FromI64])
    case U8 => Some([ArgumentGet(index), U8FromI32])
    case U16 => Some([ArgumentGet(index), U16FromI32])
    case U32 => Some([ArgumentGet(index), U32FromI32])
    case U64 => Some([ArgumentGet(index), U64FromI64])
    case F32 => Some([ArgumentGet(index)])
    case F64 => Some([ArgumentGet(index)])
    case Utf8Str | Utf8String => Some([ArgumentGet(index), ArgumentGet(index + 1), StringLiftMemory])
    case Vector(elem) =>
      (match Convert(elem, ids)
       case None => None
       case Some(ty) =>
         if ty.U8? then Some([ArgumentGet(index), ArgumentGet(index + 1), ByteArrayLiftMemory])
         else Some([ArgumentGet(index), ArgumentGet(index + 1), ArrayLiftMemory(ty)]))
    case Record(name) =>
      if name in ids then Some([ArgumentGet(index), RecordLiftMemory(ids[name])]) else None
  }

  /** How far the next argument's raw form starts behind this one's, as the source counts it. */
  function ImportShift(pty: ParsedType): nat {
    match pty
    case Utf8Str | Utf8String | Vector(_) => 2
    case _ => 1
  }

  /** Lowers the interface value on the stack to a raw result. */
  function ImportOutput(pty: ParsedType, ids: map<string, nat>): Option<seq<Instruction>> {
    match pty
    case Boolean => Some([I32FromBool])
    case I8 => Some([I32FromS8])
    case I16 => Some([I32FromS16])
    case I32 => Some([I32FromS32])
    case I64 => Some([I64FromS64])
    case U8 => Some([I32FromU8])
    case U16 => Some([I32FromU16])
    case U32 => Some([I32FromU32])
    case U64 => Some([I64FromU64])
    case F32 => Some([])
    case F64 => Some([])
    case Utf8Str | Utf8String =>
      Some([Dup, StringSize, PushI32(U8_TYPE_TAG), CallCore(ALLOCATE_FUNC), Swap2, StringLowerMemory,
            CallCore(SET_RESULT_SIZE_FUNC), CallCore(SET_RESULT_PTR_FUNC)])
    case Vector(elem) =>
      (match Convert(elem, ids)
       case None => None
       case Some(ty) =>
         Some([ArrayLowerMemory(ty), CallCore(SET_RESULT_SIZE_FUNC), CallCore(SET_RESULT_PTR_FUNC)]))
    case Record(name) =>
      if name in ids then Some([RecordLowerMemory(ids[name]), CallCore(SET_RESULT_PTR_FUNC)]) else None
  }

  function ImportArgs(args: seq<FnArgument>, index: nat, ids: map<string, nat>): Option<seq<Instruction>> {
    if args == [] then Some([])
    else
      match (ImportArg(args[0].ty, index, ids), ImportArgs(args[1..], index + ImportShift(args[0].ty), ids))
      case (Some(code), Some(rest)) => Some(code + rest)
      case _ => None
  }

  function ImportOutputs(outputs: seq<ParsedType>, ids: map<string, nat>): Option<seq<Instruction>> {
    if outputs == [] then Some([])
    else
      match (ImportOutput(outputs[0], ids), ImportOutputs(outputs[1..], ids))
      case (Some(code), Some(rest)) => Some(code + rest)
      case _ => None
  }

  /** The adapter of an imported function: lift the arguments, release, call it, lower the result. */
  function ImportCode(signature: FnSignature, functionIndex: nat, ids: map<string, nat>): Option<seq<Instruction>> {
    match (ImportArgs(signature.arguments, 0, ids), ImportOutputs(signature.outputTypes, ids))
    case (Some(args), Some(outputs)) =>
      Some(args + Release(AnyComplex(ArgTypes(signature.arguments))) + [CallCore(functionIndex)] + outputs)
    case _ => None
  }
}
