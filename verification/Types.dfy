/** Value types shared by every part of the model: Rust integers, interface types and
    values, Wasm types and values, and the parsed Rust types of the SDK's AST. */
module Wrappers {
  datatype Option<+T> = None | Some(value: T)

  datatype Result<+T, +E> = Ok(value: T) | Err(error: E) {
    predicate IsFailure() { Err? }

    function PropagateFailure<U>(): Result<U, E>
      requires Err?
    {
      Err(error)
    }

    function Extract(): T
      requires Ok?
    {
      value
    }
  }
}

/** Rust's fixed-width integers and its `as` casts between them. */
module RustInts {
  type i8 = x: int | -0x80 <= x < 0x80
  type i16 = x: int | -0x8000 <= x < 0x8000
  type i32 = x: int | -0x8000_0000 <= x < 0x8000_0000
  type i64 = x: int | -0x8000_0000_0000_0000 <= x < 0x8000_0000_0000_0000
  type u8 = x: int | 0 <= x < 0x100
  type u16 = x: int | 0 <= x < 0x1_0000
  type u32 = x: int | 0 <= x < 0x1_0000_0000
  type u64 = x: int | 0 <= x < 0x1_0000_0000_0000_0000

  // `x as i8` and so on: keep the low bits, read them in two's complement.
  function AsI8(x: int): i8 { var y := x % 0x100; if y < 0x80 then y else y - 0x100 }

  function AsI16(x: int): i16 { var y := x % 0x1_0000; if y < 0x8000 then y else y - 0x1_0000 }

  function AsI32(x: int): i32 { var y := x % 0x1_0000_0000; if y < 0x8000_0000 then y else y - 0x1_0000_0000 }

  function AsI64(x: int): i64 {
    var y := x % 0x1_0000_0000_0000_0000;
    if y < 0x8000_0000_0000_0000 then y else y - 0x1_0000_0000_0000_0000
  }

  function AsU8(x: int): u8 { x % 0x100 }

  function AsU16(x: int): u16 { x % 0x1_0000 }

  function AsU32(x: int): u32 { x % 0x1_0000_0000 }

  function AsU64(x: int): u64 { x % 0x1_0000_0000_0000_0000 }
}

module ITypes {
  import opened RustInts

  /** Interface types (wasmer_it::IType). Record types are named by their index in the type table. */
  datatype IType =
    | Boolean | S8 | S16 | S32 | S64 | U8 | U16 | U32 | U64 | F32 | F64
    | String | ByteArray | Array(elem: IType) | I32 | I64 | Record(id: nat)

  /** A float is a real number or one of the values JSON cannot carry (NaN, infinities). */
  datatype Float = Finite(r: real) | NonFinite

  /** Interface values (wasmer_it::IValue). A string is taken as its sequence of UTF-8 code units. */
  datatype IValue =
    | Boolean(b: bool)
    | S8(s8: i8) | S16(s16: i16) | S32(s32: i32) | S64(s64: i64)
    | U8(u8: u8) | U16(u16: u16) | U32(u32: u32) | U64(u64: u64)
    | I32(i32: i32) | I64(i64: i64)
    | F32(f32: Float) | F64(f64: Float)
    | String(s: string)
    | ByteArray(bytes: seq<u8>)
    | Array(items: seq<IValue>)
    | Record(fields: seq<IValue>)

  datatype WType = I32 | I64 | F32 | F64

  datatype WValue = I32(i32: i32) | I64(i64: i64) | F32(f32: Float) | F64(f64: Float)

  datatype FunctionArg = FunctionArg(name: string, ty: IType)

  datatype RecordFieldType = RecordFieldType(name: string, ty: IType)

  /** `fields` is a NEVec in the source; places that rely on it being non-empty say so. */
  datatype RecordType = RecordType(name: string, fields: seq<RecordFieldType>)

  /** One entry of the interface-types type table. */
  datatype AstType =
    | Function(arguments: seq<FunctionArg>, outputTypes: seq<IType>)
    | Record(record: RecordType)
}

/** The AST that the SDK's macros leave in a module (marine_macro_impl), without passing styles. */
module SdkAst {
  datatype ParsedType =
    | Boolean | I8 | I16 | I32 | I64 | U8 | U16 | U32 | U64 | F32 | F64
    | Utf8Str | Utf8String
    | Vector(elem: ParsedType)
    | Record(name: string)
  {
    /** Strings, vectors and records live in linear memory and are passed by pointer. */
    predicate IsComplexType() {
      Utf8Str? || Utf8String? || Vector? || Record?
    }
  }

  datatype FnArgument = FnArgument(name: string, ty: ParsedType)

  datatype FnSignature = FnSignature(name: string, arguments: seq<FnArgument>, outputTypes: seq<ParsedType>)

  datatype RecordField = RecordField(name: string, ty: ParsedType)

  datatype RecordFields = Named(fields: seq<RecordField>) | Unnamed(fields: seq<RecordField>) | Unit

  datatype RecordDef = RecordDef(name: string, fields: RecordFields)

  datatype ExternFn = ExternFn(linkName: LinkName, signature: FnSignature)

  datatype LinkName = SameName | Renamed(name: string)

  datatype ExternMod = ExternMod(namespace: string, imports: seq<ExternFn>)

  datatype ModuleAst = ModuleAst(records: seq<RecordDef>, functions: seq<FnSignature>, externMods: seq<ExternMod>)
}
