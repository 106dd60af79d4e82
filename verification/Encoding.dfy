/** How a Rust value appears on the Wasm side: in raw arguments, in raw results and in memory. */
module Encoding {
  import opened Wrappers
  import opened RustInts
  import opened ITypes
  import opened SdkAst
  import opened RecordTable
  import opened Adapters
  import opened Loader
  import opened Machine

  /** `raws` is the raw form of interface value `v` passed as a `pty`, with `mem` behind its pointers. */
  predicate EncodesArg(mem: Memory, ids: map<string, nat>, pty: ParsedType, v: IValue, raws: seq<IValue>) {
    |raws| == Width(pty) &&
    match pty
    case Boolean => raws[0].I32? && v == IValue.Boolean(raws[0].i32 != 0)
    case I8 => raws[0].I32? && v == IValue.S8(AsI8(raws[0].i32))
    case I16 => raws[0].I32? && v == IValue.S16(AsI16(raws[0].i32))
    case I32 => raws[0].I32? && v == IValue.S32(raws[0].i32)
    case I64 => raws[0].I64? && v == IValue.S64(raws[0].i64)
    case U8 => raws[0].I32? && v == IValue.U8(AsU8(raws[0].i32))
    case U16 => raws[0].I32? && v == IValue.U16(AsU16(raws[0].i32))
    case U32 => raws[0].I32? && v == IValue.U32(AsU32(raws[0].i32))
    case U64 => raws[0].I64? && v == IValue.U64(AsU64(raws[0].i64))
    case F32 => raws[0].F32? && v == raws[0]
    case F64 => raws[0].F64? && v == raws[0]
    case Utf8Str => EncodesText(mem, v, raws[0], raws[1])
    case Utf8String => EncodesText(mem, v, raws[0], raws[1])
    case Vector(elem) => EncodesElements(mem, Convert(elem, ids), v, raws[0], raws[1])
    case Record(name) => EncodesStruct(mem, ids, name, v, raws[0])
  }

  predicate EncodesText(mem: Memory, v: IValue, p: IValue, n: IValue) {
    && v.String? && p.I32? && p.i32 in mem.cells
    && mem.cells[p.i32] == Text(v.s) && n == IValue.I32(AsI32(|v.s|))
  }

  predicate EncodesElements(mem: Memory, elem: Option<IType>, v: IValue, p: IValue, n: IValue) {
    && elem.Some? && p.I32? && p.i32 in mem.cells
    && (if elem.value.U8? then v.ByteArray? else v.Array?)
    && mem.cells[p.i32] == Elements(elem.value, v) && n == IValue.I32(AsI32(Count(v)))
  }

  predicate EncodesStruct(mem: Memory, ids: map<string, nat>, name: string, v: IValue, p: IValue) {
    && name in ids && p.I32? && p.i32 in mem.cells && mem.cells[p.i32] == Struct(ids[name], v)
  }

  predicate EncodesArgs(mem: Memory, ids: map<string, nat>, args: seq<FnArgument>, vs: seq<IValue>, raws: seq<IValue>) {
    if args == [] then vs == [] && raws == []
    else
      var w := Width(args[0].ty);
      && vs != [] && |raws| >= w
      && EncodesArg(mem, ids, args[0].ty, vs[0], raws[..w])
      && EncodesArgs(mem, ids, args[1..], vs[1..], raws[w..])
  }

  /** A complex result is announced through the result cells, a simple one returned. */
  predicate EncodesResult(mem: Memory, ids: map<string, nat>, outputs: seq<ParsedType>, rs: seq<IValue>, outs: seq<IValue>) {
    && |rs| == |outputs|
    && if outputs == [] then outs == []
       else if outputs[0].IsComplexType() then outs == [] && EncodesArg(mem, ids, outputs[0], rs[0], ResultCells(mem, outputs[0]))
       else EncodesArg(mem, ids, outputs[0], rs[0], outs)
  }

  function ResultCells(mem: Memory, pty: ParsedType): seq<IValue> {
    if Width(pty) == 2 then [IValue.I32(mem.resultPtr), IValue.I32(mem.resultSize)] else [IValue.I32(mem.resultPtr)]
  }

  // ----- Growing memory keeps encodings -----

  ghost predicate Extends(a: Memory, b: Memory) {
    forall p :: p in a.cells ==> p in b.cells && b.cells[p] == a.cells[p]
  }

  lemma EncodesArgKept(a: Memory, b: Memory, ids: map<string, nat>, pty: ParsedType, v: IValue, raws: seq<IValue>)
    requires EncodesArg(a, ids, pty, v, raws) && Extends(a, b)
    ensures EncodesArg(b, ids, pty, v, raws)
  {
  }

  lemma {:induction false} EncodesArgsKept(a: Memory, b: Memory, ids: map<string, nat>, args: seq<FnArgument>,
                                           vs: seq<IValue>, raws: seq<IValue>)
    requires EncodesArgs(a, ids, args, vs, raws) && Extends(a, b)
    ensures EncodesArgs(b, ids, args, vs, raws)
  {
    if args != [] {
      var w := Width(args[0].ty);
      EncodesArgKept(a, b, ids, args[0].ty, vs[0], raws[..w]);
      EncodesArgsKept(a, b, ids, args[1..], vs[1..], raws[w..]);
    }
  }

  lemma {:induction false} EncodedLengths(mem: Memory, ids: map<string, nat>, args: seq<FnArgument>, vs: seq<IValue>, raws: seq<IValue>)
    requires EncodesArgs(mem, ids, args, vs, raws)
    ensures |vs| == |args| && |raws| == |RawArgs(args)|
  {
    if args != [] { EncodedLengths(mem, ids, args[1..], vs[1..], raws[Width(args[0].ty)..]); }
  }

  // ----- Encodings have the raw types of the signature -----

  lemma EncodedArgIsRaw(mem: Memory, ids: map<string, nat>, pty: ParsedType, v: IValue, raws: seq<IValue>)
    requires EncodesArg(mem, ids, pty, v, raws)
    ensures forall i :: 0 <= i < |raws| ==> RawType(raws[i]) == ITypeToWType(RawInputTypes(pty)[i])
  {
  }

  lemma {:induction false} WTypesPointwise(types: seq<IType>)
    requires forall i :: 0 <= i < |types| ==> ITypeToWType(types[i]).Some?
    ensures WTypes(types).Some? && |WTypes(types).value| == |types|
    ensures forall i :: 0 <= i < |types| ==> ITypeToWType(types[i]) == Some(WTypes(types).value[i])
  {
    if types != [] { WTypesPointwise(types[1..]); }
  }

  lemma RawArgTypes(args: seq<FnArgument>, i: nat)
    requires args != [] && i < |RawArgs(args)|
    ensures RawArgs(args)[i].ty ==
            var w := Width(args[0].ty); if i < w then RawInputTypes(args[0].ty)[i] else RawArgs(args[1..])[i - w].ty
  {
  }

  lemma {:induction false} EncodedArgsAreRaw(mem: Memory, ids: map<string, nat>, args: seq<FnArgument>, vs: seq<IValue>, raws: seq<IValue>)
    requires EncodesArgs(mem, ids, args, vs, raws)
    ensures |raws| == |RawArgs(args)|
    ensures forall i :: 0 <= i < |raws| ==> RawType(raws[i]).Some? && RawType(raws[i]) == ITypeToWType(RawArgs(args)[i].ty)
  {
    EncodedLengths(mem, ids, args, vs, raws);
    if args != [] {
      var w := Width(args[0].ty);
      EncodedArgIsRaw(mem, ids, args[0].ty, vs[0], raws[..w]);
      EncodedArgsAreRaw(mem, ids, args[1..], vs[1..], raws[w..]);
      forall i | 0 <= i < |raws|
        ensures RawType(raws[i]).Some? && RawType(raws[i]) == ITypeToWType(RawArgs(args)[i].ty)
      {
        RawArgTypes(args, i);
        if i < w { assert raws[..w][i] == raws[i]; } else { assert raws[w..][i - w] == raws[i]; }
      }
    }
  }

  /** The encoded arguments are what a core function with the raw signature takes. */
  lemma EncodedArgsFitSignature(mem: Memory, ids: map<string, nat>, args: seq<FnArgument>, vs: seq<IValue>,
                                raws: seq<IValue>)
    requires EncodesArgs(mem, ids, args, vs, raws)
    ensures WTypes(TypesOf(RawArgs(args))).Some?
    ensures AllRaw(raws, WTypes(TypesOf(RawArgs(args))).value)
  {
    EncodedArgsAreRaw(mem, ids, args, vs, raws);
    WTypesPointwise(TypesOf(RawArgs(args)));
  }

  /** An encoded result is what a function with the raw signature returns. The interface table says S32
      where the raw value is an i32; as Wasm types the two agree. */
  lemma {:induction false} EncodedResultFitsSignature(mem: Memory, ids: map<string, nat>, outputs: seq<ParsedType>, rs: seq<IValue>,
                                                      outs: seq<IValue>)
    requires |outputs| <= 1 && EncodesResult(mem, ids, outputs, rs, outs)
    ensures WTypes(RawOutputs(outputs)).Some?
    ensures AllRaw(outs, WTypes(RawOutputs(outputs)).value)
  {
    if outputs != [] {
      assert outputs == [outputs[0]] && outputs[1..] == [];
      assert RawOutputs(outputs[1..]) == [];
      var raw := RawOutputs([outputs[0]]);
      assert forall i :: 0 <= i < |raw| ==> ITypeToWType(raw[i]).Some?;
      WTypesPointwise(raw);
    }
  }

  // ----- Rust-level typing: records by name, so independent of any module's numbering -----

  /** `v` is a value of the Rust type `pty` under the record definitions `defs`. */
  predicate RustConforms(v: IValue, pty: ParsedType, defs: map<string, seq<RecordField>>)
    decreases v
  {
    match pty
    case Boolean => v.Boolean?
    case I8 => v.S8?
    case I16 => v.S16?
    case I32 => v.S32?
    case I64 => v.S64?
    case U8 => v.U8?
    case U16 => v.U16?
    case U32 => v.U32?
    case U64 => v.U64?
    case F32 => v.F32?
    case F64 => v.F64?
    case Utf8Str => v.String?
    case Utf8String => v.String?
    case Vector(elem) =>
      if elem.U8? then v.ByteArray?
      else v.Array? && forall i :: 0 <= i < |v.items| ==> RustConforms(v.items[i], elem, defs)
    case Record(name) =>
      && name in defs && v.Record? && |v.fields| == |defs[name]|
      && forall i :: 0 <= i < |v.fields| ==> RustConforms(v.fields[i], defs[name][i].ty, defs)
  }

  predicate AllRustConform(vs: seq<IValue>, ptys: seq<ParsedType>, defs: map<string, seq<RecordField>>) {
    && |vs| == |ptys|
    && forall i :: 0 <= i < |vs| ==> RustConforms(vs[i], ptys[i], defs)
  }

  /** A module's tables hold the definitions `defs`. */
  ghost predicate Defines(types: seq<AstType>, ids: map<string, nat>, defs: map<string, seq<RecordField>>) {
    forall n :: n in defs ==> Filled(ids, types, n, defs[n])
  }

  /** A Rust value is a value of the converted type in every module that holds its definitions. */
  lemma {:induction false} RustConformsEverywhere(v: IValue, pty: ParsedType, defs: map<string, seq<RecordField>>,
                                                  types: seq<AstType>, ids: map<string, nat>)
    requires RustConforms(v, pty, defs) && Defines(types, ids, defs) && Convert(pty, ids).Some?
    ensures Conforms(v, Convert(pty, ids).value, types)
    ensures Canonical(v, Convert(pty, ids).value, types) == v
    decreases v
  {
    match pty
    case Vector(elem) =>
      var ty := Convert(elem, ids).value;
      if !elem.U8? {
        ConvertU8(elem, ids);
        forall i | 0 <= i < |v.items|
          ensures Conforms(v.items[i], ty, types) && Canonical(v.items[i], ty, types) == v.items[i]
        {
          RustConformsEverywhere(v.items[i], elem, defs, types, ids);
        }
        assert Canonical(v, IType.Array(ty), types).items == v.items;
      }
    case Record(name) =>
      assert Filled(ids, types, name, defs[name]);
      var fields := types[ids[name]].record.fields;
      forall i | 0 <= i < |v.fields|
        ensures Conforms(v.fields[i], fields[i].ty, types) && Canonical(v.fields[i], fields[i].ty, types) == v.fields[i]
      {
        RustConformsEverywhere(v.fields[i], defs[name][i].ty, defs, types, ids);
      }
      assert Canonical(v, IType.Record(ids[name]), types).fields == v.fields;
    case _ =>
  }

  lemma ConvertU8(elem: ParsedType, ids: map<string, nat>)
    requires Convert(elem, ids).Some?
    ensures Convert(elem, ids).value.U8? <==> elem.U8?
  {
  }
}
