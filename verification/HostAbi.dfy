/** The ABI of host imports: interface values to and from the Wasm values of a raw call. */
module HostAbi {
  import opened Wrappers
  import opened RustInts
  import opened ITypes

  datatype AbiError = MismatchWValuesCount | MismatchWValues(expected: WType) | MemoryError

  // ----- Raw signatures -----

  function ArgWTypes(ty: IType): seq<WType> {
    match ty
    case F32 => [WType.F32]
    case F64 => [WType.F64]
    case I64 => [WType.I64]
    case U64 => [WType.I64]
    case String => [WType.I32, WType.I32]
    case Array(_) => [WType.I32, WType.I32]
    case _ => [WType.I32]
  }

  /** itypes_args_to_wtypes. */
  function ITypesArgsToWTypes(itypes: seq<IType>): seq<WType> {
    if itypes == [] then [] else ArgWTypes(itypes[0]) + ITypesArgsToWTypes(itypes[1..])
  }

  function OutputWTypes(ty: IType): seq<WType> {
    match ty
    case F32 => [WType.F32]
    case F64 => [WType.F64]
    case I64 => [WType.I64]
    case U64 => [WType.I64]
    case String => []
    case Array(_) => []
    case Record(_) => []
    case _ => [WType.I32]
  }

  /** itypes_output_to_wtypes of an optional output type. */
  function ITypesOutputToWTypes(output: Option<IType>): seq<WType> {
    match output
    case None => []
    case Some(ty) => OutputWTypes(ty)
  }

  function WTypeOf(w: WValue): WType {
    match w
    case I32(_) => WType.I32
    case I64(_) => WType.I64
    case F32(_) => WType.F32
    case F64(_) => WType.F64
  }

  // ----- Lifting -----

  /** Reading the guest's memory: strings, bytes, arrays and records at an address; None is an error. */
  datatype Lifter = Lifter(
    text: (i32, i32) -> Option<string>,
    bytes: (i32, i32) -> Option<seq<u8>>,
    elements: (IType, i32, i32) -> Option<IValue>,
    structure: (nat, i32) -> Option<IValue>)

  function NextI32(ws: seq<WValue>): Result<(i32, seq<WValue>), AbiError> {
    if ws == [] then Err(MismatchWValuesCount)
    else if ws[0].I32? then Ok((ws[0].i32, ws[1..]))
    else Err(MismatchWValues(WType.I32))
  }

  function NextI64(ws: seq<WValue>): Result<(i64, seq<WValue>), AbiError> {
    if ws == [] then Err(MismatchWValuesCount)
    else if ws[0].I64? then Ok((ws[0].i64, ws[1..]))
    else Err(MismatchWValues(WType.I64))
  }

  /** One simple value; the cast `as _` of the target width. */
  function LiftScalar(ty: IType, ws: seq<WValue>): Result<(IValue, seq<WValue>), AbiError> {
    match ty
    case S64 => var (w, rest) :- NextI64(ws); Ok((IValue.S64(w), rest))
    case U64 => var (w, rest) :- NextI64(ws); Ok((IValue.U64(AsU64(w)), rest))
    case I64 => var (w, rest) :- NextI64(ws); Ok((IValue.I64(w), rest))
    case F32 =>
      if ws == [] then Err(MismatchWValuesCount)
      else if ws[0].F32? then Ok((IValue.F32(ws[0].f32), ws[1..])) else Err(MismatchWValues(WType.F32))
    case F64 =>
      if ws == [] then Err(MismatchWValuesCount)
      else if ws[0].F64? then Ok((IValue.F64(ws[0].f64), ws[1..])) else Err(MismatchWValues(WType.F64))
    case _ =>
      var (w, rest) :- NextI32(ws);
      Ok((LiftI32(ty, w), rest))
  }

  function LiftI32(ty: IType, w: i32): IValue {
    match ty
    case Boolean => IValue.Boolean(w != 0)
    case S8 => IValue.S8(AsI8(w))
    case S16 => IValue.S16(AsI16(w))
    case S32 => IValue.S32(w)
    case U8 => IValue.U8(AsU8(w))
    case U16 => IValue.U16(AsU16(w))
    case U32 => IValue.U32(AsU32(w))
    case _ => IValue.I32(w)
  }

  function OrMemoryError(v: Option<IValue>, rest: seq<WValue>): Result<(IValue, seq<WValue>), AbiError> {
    match v
    case None => Err(MemoryError)
    case Some(x) => Ok((x, rest))
  }

  /** A value passed by pointer and size. */
  function LiftPair(lifter: Lifter, ty: IType, ws: seq<WValue>): Result<(IValue, seq<WValue>), AbiError> {
    var (offset, rest1) :- NextI32(ws);
    var (size, rest2) :- NextI32(rest1);
    OrMemoryError(ReadPair(lifter, ty, offset, size), rest2)
  }

  function ReadPair(lifter: Lifter, ty: IType, offset: i32, size: i32): Option<IValue> {
    match ty
    case String => (match lifter.text(offset, size) case None => None case Some(s) => Some(IValue.String(s)))
    case ByteArray => (match lifter.bytes(offset, size) case None => None case Some(b) => Some(IValue.ByteArray(b)))
    case Array(elem) => lifter.elements(elem, offset, size)
    case _ => None
  }

  function LiftOne(lifter: Lifter, ty: IType, ws: seq<WValue>): Result<(IValue, seq<WValue>), AbiError> {
    match ty
    case String => LiftPair(lifter, ty, ws)
    case ByteArray => LiftPair(lifter, ty, ws)
    case Array(_) => LiftPair(lifter, ty, ws)
    case Record(id) => var (offset, rest) :- NextI32(ws); OrMemoryError(lifter.structure(id, offset), rest)
    case _ => LiftScalar(ty, ws)
  }

  /** wvalues_to_ivalues; also gives the values it did not consume. */
  function WValuesToIValues(lifter: Lifter, ws: seq<WValue>, itypes: seq<IType>): Result<(seq<IValue>, seq<WValue>), AbiError>
    decreases |itypes|
  {
    if itypes == [] then Ok(([], ws))
    else
      var (v, rest) :- LiftOne(lifter, itypes[0], ws);
      var (vs, left) :- WValuesToIValues(lifter, rest, itypes[1..]);
      Ok(([v] + vs, left))
  }

  /** The loop over the types, with an iterator over the values and results pushed one by one. */
  method RunWValuesToIValues(lifter: Lifter, ws: seq<WValue>, itypes: seq<IType>) returns (result: Result<seq<IValue>, AbiError>)
    ensures match WValuesToIValues(lifter, ws, itypes)
            case Ok((vs, _)) => result == Ok(vs)
            case Err(e) => result == Err(e)
  {
    var values, rest: seq<WValue> := [], ws;
    AfterNone(WValuesToIValues(lifter, ws, itypes));
    assert itypes[0..] == itypes;
    for i := 0 to |itypes|
      invariant WValuesToIValues(lifter, ws, itypes) == After(values, WValuesToIValues(lifter, rest, itypes[i..]))
    {
      assert itypes[i..][1..] == itypes[i + 1..];
      var lifted := LiftOne(lifter, itypes[i], rest);
      match lifted {
        case Err(e) => return Err(e);
        case Ok(step) =>
          AfterOne(values, step.0, WValuesToIValues(lifter, step.1, itypes[i + 1..]));
          values, rest := values + [step.0], step.1;
      }
    }
    assert values + [] == values;
    return Ok(values);
  }

  function After(values: seq<IValue>, tail: Result<(seq<IValue>, seq<WValue>), AbiError>): Result<(seq<IValue>, seq<WValue>), AbiError> {
    match tail
    case Err(e) => Err(e)
    case Ok((vs, left)) => Ok((values + vs, left))
  }

  lemma AfterNone(tail: Result<(seq<IValue>, seq<WValue>), AbiError>)
    ensures After([], tail) == tail
  {
    if tail.Ok? { assert [] + tail.value.0 == tail.value.0; }
  }

  lemma AfterOne(values: seq<IValue>, v: IValue, tail: Result<(seq<IValue>, seq<WValue>), AbiError>)
    ensures tail.Ok? ==> After(values, Ok(([v] + tail.value.0, tail.value.1))) == After(values + [v], tail)
    ensures tail.Err? ==> After(values + [v], tail) == Err(tail.error)
  {
    if tail.Ok? { assert values + ([v] + tail.value.0) == values + [v] + tail.value.0; }
  }

  // ----- Values in the declared shape are consumed exactly -----

  /** What a raw call passes: values of the declared Wasm types. */
  ghost predicate Shaped(ws: seq<WValue>, wtypes: seq<WType>) {
    |ws| == |wtypes| && forall i :: 0 <= i < |ws| ==> WTypeOf(ws[i]) == wtypes[i]
  }

  /** Declared as one I32: a byte array takes two values, an S64 takes an I64. */
  predicate Misdeclared(ty: IType) {
    ty.ByteArray? || ty.S64?
  }

  ghost predicate NoneMisdeclared(itypes: seq<IType>) {
    forall i :: 0 <= i < |itypes| ==> !Misdeclared(itypes[i])
  }

  lemma ShapedSplit(ws: seq<WValue>, a: seq<WType>, b: seq<WType>)
    requires Shaped(ws, a + b)
    ensures Shaped(ws[..|a|], a) && Shaped(ws[|a|..], b)
  {
  }

  /** A well declared type takes exactly its values off the front. */
  lemma OneConsumed(lifter: Lifter, ty: IType, ws: seq<WValue>)
    requires !Misdeclared(ty) && |ws| >= |ArgWTypes(ty)| && Shaped(ws[..|ArgWTypes(ty)|], ArgWTypes(ty))
    ensures var r := LiftOne(lifter, ty, ws);
            if r.Ok? then r.value.1 == ws[|ArgWTypes(ty)|..] else r.error == MemoryError
  {
  }

  lemma {:induction false} ShapedConsumed(lifter: Lifter, ws: seq<WValue>, itypes: seq<IType>)
    requires NoneMisdeclared(itypes) && Shaped(ws, ITypesArgsToWTypes(itypes))
    ensures var r := WValuesToIValues(lifter, ws, itypes);
            if r.Ok? then r.value.1 == [] && |r.value.0| == |itypes| else r.error == MemoryError
    decreases |itypes|
  {
    if itypes != [] {
      var a := ArgWTypes(itypes[0]);
      ShapedSplit(ws, a, ITypesArgsToWTypes(itypes[1..]));
      OneConsumed(lifter, itypes[0], ws);
      if LiftOne(lifter, itypes[0], ws).Ok? { ShapedConsumed(lifter, ws[|a|..], itypes[1..]); }
    }
  }

  /** How many values lifting really takes. */
  function Taken(itypes: seq<IType>): nat {
    if itypes == [] then 0 else (if itypes[0].ByteArray? then 2 else |ArgWTypes(itypes[0])|) + Taken(itypes[1..])
  }

  lemma {:induction false} SuccessTakes(lifter: Lifter, ws: seq<WValue>, itypes: seq<IType>)
    requires WValuesToIValues(lifter, ws, itypes).Ok?
    ensures |WValuesToIValues(lifter, ws, itypes).value.1| + Taken(itypes) == |ws|
    decreases |itypes|
  {
    if itypes != [] { SuccessTakes(lifter, LiftOne(lifter, itypes[0], ws).value.1, itypes[1..]); }
  }

  lemma {:induction false} ByteArraysTakeMore(itypes: seq<IType>)
    ensures Taken(itypes) >= |ITypesArgsToWTypes(itypes)|
    ensures (exists i :: 0 <= i < |itypes| && itypes[i].ByteArray?) ==> Taken(itypes) > |ITypesArgsToWTypes(itypes)|
  {
    if itypes != [] {
      ByteArraysTakeMore(itypes[1..]);
      assert forall i :: 0 < i < |itypes| ==> itypes[i] == itypes[1..][i - 1];
    }
  }

  lemma {:induction false} SixtyFourFails(lifter: Lifter, ws: seq<WValue>, itypes: seq<IType>, k: nat)
    requires k < |itypes| && itypes[k].S64? && Shaped(ws, ITypesArgsToWTypes(itypes))
    requires forall i :: 0 <= i < |itypes| ==> !itypes[i].ByteArray?
    ensures WValuesToIValues(lifter, ws, itypes).Err?
    decreases |itypes|
  {
    var a := ArgWTypes(itypes[0]);
    ShapedSplit(ws, a, ITypesArgsToWTypes(itypes[1..]));
    assert ws[..|a|][0] == ws[0];
    if !itypes[0].S64? {
      OneConsumed(lifter, itypes[0], ws);
      if LiftOne(lifter, itypes[0], ws).Ok? {
        assert itypes[1..][k - 1] == itypes[k];
        SixtyFourFails(lifter, ws[|a|..], itypes[1..], k - 1);
      }
    }
  }

  /** Memory that can always be read. */
  ghost predicate Readable(lifter: Lifter) {
    && (forall o, n :: lifter.text(o, n).Some?)
    && (forall o, n :: lifter.bytes(o, n).Some?)
    && (forall t, o, n :: lifter.elements(t, o, n).Some?)
    && (forall id, o :: lifter.structure(id, o).Some?)
  }

  lemma OneReadable(lifter: Lifter, ty: IType, ws: seq<WValue>)
    requires Readable(lifter)
    ensures LiftOne(lifter, ty, ws) != Err(MemoryError)
  {
  }

  lemma {:induction false} AllReadable(lifter: Lifter, ws: seq<WValue>, itypes: seq<IType>)
    requires Readable(lifter)
    ensures WValuesToIValues(lifter, ws, itypes) != Err(MemoryError)
    decreases |itypes|
  {
    if itypes != [] {
      OneReadable(lifter, itypes[0], ws);
      var first := LiftOne(lifter, itypes[0], ws);
      if first.Ok? { AllReadable(lifter, first.value.1, itypes[1..]); }
    }
  }

  /** Arguments in the declared shape are lifted, with none left over, exactly when the signature has
      no byte array and no S64 at its top level: those two are declared as a single I32. */
  lemma DeclaredArgumentsLift(lifter: Lifter, ws: seq<WValue>, itypes: seq<IType>)
    requires Readable(lifter) && Shaped(ws, ITypesArgsToWTypes(itypes))
    ensures WValuesToIValues(lifter, ws, itypes).Ok? <==> NoneMisdeclared(itypes)
    ensures NoneMisdeclared(itypes) ==>
              WValuesToIValues(lifter, ws, itypes).value.1 == [] && |WValuesToIValues(lifter, ws, itypes).value.0| == |itypes|
  {
    var r := WValuesToIValues(lifter, ws, itypes);
    AllReadable(lifter, ws, itypes);
    if NoneMisdeclared(itypes) {
      ShapedConsumed(lifter, ws, itypes);
    } else if k :| 0 <= k < |itypes| && itypes[k].ByteArray? {
      ByteArraysTakeMore(itypes);
      if r.Ok? { SuccessTakes(lifter, ws, itypes); }
    } else {
      var k :| 0 <= k < |itypes| && Misdeclared(itypes[k]);
      SixtyFourFails(lifter, ws, itypes, k);
    }
  }

  // ----- Lowering -----

  /** Writing into the guest's memory: the address of what was written; None is an error. */
  datatype Lowerer = Lowerer(
    text: string -> Option<i32>,
    bytes: seq<u8> -> Option<i32>,
    elements: seq<IValue> -> Option<(i32, i32)>,
    structure: seq<IValue> -> Option<i32>)

  function Pair(offset: Option<i32>, size: nat): Option<seq<WValue>> {
    match offset
    case None => None
    case Some(o) => Some([WValue.I32(o), WValue.I32(AsI32(size))])
  }

  /** ivalue_to_wvalues. */
  function IValueToWValues(lowerer: Lowerer, v: Option<IValue>): Option<seq<WValue>> {
    match v
    case None => Some([])
    case Some(Boolean(b)) => Some([WValue.I32(if b then 1 else 0)])
    case Some(S8(i)) => Some([WValue.I32(i)])
    case Some(S16(i)) => Some([WValue.I32(i)])
    case Some(S32(i)) => Some([WValue.I32(i)])
    case Some(S64(i)) => Some([WValue.I64(i)])
    case Some(U8(i)) => Some([WValue.I32(i)])
    case Some(U16(i)) => Some([WValue.I32(i)])
    case Some(U32(i)) => Some([WValue.I32(AsI32(i))])
    case Some(U64(i)) => Some([WValue.I64(AsI64(i))])
    case Some(I32(i)) => Some([WValue.I32(i)])
    case Some(I64(i)) => Some([WValue.I64(i)])
    case Some(F32(f)) => Some([WValue.F32(f)])
    case Some(F64(f)) => Some([WValue.F64(f)])
    case Some(String(s)) => Pair(lowerer.text(s), |s|)
    case Some(ByteArray(b)) => Pair(lowerer.bytes(b), |b|)
    case Some(Array(items)) =>
      (match lowerer.elements(items)
       case None => None
       case Some((o, n)) => Some([WValue.I32(o), WValue.I32(n)]))
    case Some(Record(fields)) =>
      (match lowerer.structure(fields)
       case None => None
       case Some(o) => Some([WValue.I32(o)]))
  }

  /** `v` is a value of type `ty` as far as its outermost form goes. */
  predicate FormOf(v: IValue, ty: IType) {
    match v
    case Boolean(_) => ty.Boolean?
    case S8(_) => ty.S8?
    case S16(_) => ty.S16?
    case S32(_) => ty.S32?
    case S64(_) => ty.S64?
    case U8(_) => ty.U8?
    case U16(_) => ty.U16?
    case U32(_) => ty.U32?
    case U64(_) => ty.U64?
    case I32(_) => ty.I32?
    case I64(_) => ty.I64?
    case F32(_) => ty.F32?
    case F64(_) => ty.F64?
    case String(_) => ty.String?
    case ByteArray(_) => ty.ByteArray?
    case Array(_) => ty.Array?
    case Record(_) => ty.Record?
  }

  /** What was written is read back: the memory assumption, for one value. */
  ghost predicate ReadsBack(lifter: Lifter, lowerer: Lowerer, v: IValue, ty: IType) {
    match v
    case String(s) => forall o :: lowerer.text(s) == Some(o) ==> lifter.text(o, AsI32(|s|)) == Some(s)
    case ByteArray(b) => forall o :: lowerer.bytes(b) == Some(o) ==> lifter.bytes(o, AsI32(|b|)) == Some(b)
    case Array(items) =>
      ty.Array? && forall o, n :: lowerer.elements(items) == Some((o, n)) ==> lifter.elements(ty.elem, o, n) == Some(v)
    case Record(fields) =>
      ty.Record? && forall o :: lowerer.structure(fields) == Some(o) ==> lifter.structure(ty.id, o) == Some(v)
    case _ => true
  }

  lemma NarrowCastsUndo(x: int)
    ensures -0x80 <= x < 0x80 ==> AsI8(x) == x
    ensures -0x8000 <= x < 0x8000 ==> AsI16(x) == x
    ensures 0 <= x < 0x100 ==> AsU8(x) == x
    ensures 0 <= x < 0x1_0000 ==> AsU16(x) == x
  {
  }

  lemma Cast32Undoes(x: u32)
    ensures AsU32(AsI32(x)) == x
  {
  }

  lemma Cast64Undoes(x: u64)
    ensures AsU64(AsI64(x)) == x
  {
  }

  /** Lowering a value and lifting it at its type gives it back, at every integer width, for booleans
      and floats, and for values in memory as far as memory keeps them; nothing is left over. */
  lemma LowerThenLift(lifter: Lifter, lowerer: Lowerer, v: IValue, ty: IType)
    requires FormOf(v, ty) && ReadsBack(lifter, lowerer, v, ty) && IValueToWValues(lowerer, Some(v)).Some?
    ensures LiftOne(lifter, ty, IValueToWValues(lowerer, Some(v)).value) == Ok((v, []))
  {
    var ws := IValueToWValues(lowerer, Some(v)).value;
    assert |ws| == 1 || |ws| == 2;
    if |ws| == 1 { assert ws[1..] == []; } else { assert ws[1..][1..] == []; }
    match v
    case S8(i) => NarrowCastsUndo(i);
    case S16(i) => NarrowCastsUndo(i);
    case U8(i) => NarrowCastsUndo(i);
    case U16(i) => NarrowCastsUndo(i);
    case U32(i) => Cast32Undoes(i);
    case U64(i) => Cast64Undoes(i);
    case _ =>
  }

  // ----- Passing the output back -----

  /** The two cells a guest reads large results from. */
  datatype GuestResult = GuestResult(ptr: i32, size: i32)

  /** Which of the helpers the guest exports, and whether a lowerer can be made for its memory. */
  datatype Guest = Guest(allocate: bool, setPtr: bool, setSize: bool, lowererOk: bool)

  datatype Output = Values(ws: seq<WValue>) | Unimplemented

  /** The dispatch of lower_outputs on the number of lowered values, when all helpers are there. */
  function PassBack(ws: seq<WValue>, isRecord: bool, cells: GuestResult): (Output, GuestResult) {
    if |ws| == 2 then (Values([]), GuestResult(AsPointer(ws[0]), AsPointer(ws[1])))
    else if |ws| == 1 && isRecord then (Values([]), cells.(ptr := AsPointer(ws[0])))
    else if |ws| == 1 then (Values([ws[0]]), cells)
    else if |ws| == 0 then (Values([]), cells)
    else (Unimplemented, cells)
  }

  function AsPointer(w: WValue): i32 {
    match w
    case I32(i) => i
    case I64(i) => AsI32(i)
    case _ => 0
  }

  /** A Wasm caller's view of lower_outputs: error codes for missing helpers, zero when lowering fails. */
  function LowerOutputs(guest: Guest, lowerer: Lowerer, output: Option<IValue>, cells: GuestResult): (Output, GuestResult) {
    if !guest.allocate then (Values([WValue.I32(2)]), cells)
    else
      var isRecord := output.Some? && output.value.Record?;
      var lowered := if guest.lowererOk then IValueToWValues(lowerer, output) else None;
      match lowered
      case None =>
        if !guest.setPtr || !guest.setSize then (Values([WValue.I32(4)]), cells)
        else (Values([WValue.I32(0)]), GuestResult(0, 0))
      case Some(ws) =>
        if |ws| == 2 && (!guest.setPtr || !guest.setSize) then (Values([WValue.I32(4)]), cells)
        else if |ws| == 1 && isRecord && !guest.setPtr then (Values([WValue.I32(3)]), cells)
        else PassBack(ws, isRecord, cells)
  }

  /** lower_outputs as it runs, writing the guest's cells through its setters. */
  class GuestCells {
    var ptr: i32
    var size: i32

    function Value(): GuestResult
      reads this
    {
      GuestResult(ptr, size)
    }

    constructor ()
      ensures Value() == GuestResult(0, 0)
    {
      ptr, size := 0, 0;
    }

    method PassOutput(guest: Guest, lowerer: Lowerer, output: Option<IValue>) returns (result: Output)
      modifies this
      ensures (result, Value()) == LowerOutputs(guest, lowerer, output, old(Value()))
    {
      if !guest.allocate { return Values([WValue.I32(2)]); }
      var isRecord := output.Some? && output.value.Record?;
      var lowered := if guest.lowererOk then IValueToWValues(lowerer, output) else None;
      if lowered.None? {
        if !guest.setPtr || !guest.setSize { return Values([WValue.I32(4)]); }
        ptr := 0;
        size := 0;
        return Values([WValue.I32(0)]);
      }
      var ws := lowered.value;
      if |ws| == 2 {
        if !guest.setPtr || !guest.setSize { return Values([WValue.I32(4)]); }
        ptr := AsPointer(ws[0]);
        size := AsPointer(ws[1]);
        return Values([]);
      } else if |ws| == 1 && isRecord {
        if !guest.setPtr { return Values([WValue.I32(3)]); }
        ptr := AsPointer(ws[0]);
        return Values([]);
      } else if |ws| == 1 {
        return Values([ws[0]]);
      } else if |ws| == 0 {
        return Values([]);
      }
      return Unimplemented;
    }
  }

  lemma LoweredLength(lowerer: Lowerer, output: Option<IValue>)
    requires IValueToWValues(lowerer, output).Some?
    ensures |IValueToWValues(lowerer, output).value| <= 2
    ensures output.None? <==> |IValueToWValues(lowerer, output).value| == 0
  {
  }

  predicate OutputFits(output: Option<IValue>, ty: Option<IType>) {
    match (output, ty)
    case (None, None) => true
    case (Some(v), Some(t)) => FormOf(v, t)
    case _ => false
  }

  predicate IsPair(v: IValue) {
    v.String? || v.ByteArray? || v.Array?
  }

  /** The output can be lowered and the guest has the helpers it is passed back with. */
  ghost predicate Passes(guest: Guest, lowerer: Lowerer, output: Option<IValue>) {
    && guest.allocate && guest.lowererOk && IValueToWValues(lowerer, output).Some?
    && (output.Some? && IsPair(output.value) ==> guest.setPtr && guest.setSize)
    && (output.Some? && output.value.Record? ==> guest.setPtr)
  }

  /** For every guest and every output, the unimplemented!() is out of reach and the answer has the
      declared shape in exactly two cases. An output that passes must be neither a byte array, which is
      declared as a value but passed through the cells, nor an S64, which is declared as an I32. The
      error code for one that does not pass looks like a declared answer of a single I32. */
  lemma OutputShapeIsDeclared(guest: Guest, lowerer: Lowerer, output: Option<IValue>, ty: Option<IType>, cells: GuestResult)
    requires OutputFits(output, ty)
    ensures var result := LowerOutputs(guest, lowerer, output, cells).0;
            && result.Values?
            && (Shaped(result.ws, ITypesOutputToWTypes(ty)) <==>
                  if Passes(guest, lowerer, output) then ty.None? || !Misdeclared(ty.value)
                  else ITypesOutputToWTypes(ty) == [WType.I32])
  {
    if IValueToWValues(lowerer, output).Some? { LoweredLength(lowerer, output); }
    var result := LowerOutputs(guest, lowerer, output, cells).0;
    if Passes(guest, lowerer, output) && ty.Some? && |result.ws| == 1 {
      assert WTypeOf(result.ws[0]) == if ty.value.S64? then WType.I64 else WTypeOf(result.ws[0]);
    }
  }

  /** Where the guest finds the output: large ones behind its cells, others as the answer itself. */
  function CallerReads(v: IValue, answer: seq<WValue>, after: GuestResult): seq<WValue> {
    if IsPair(v) then [WValue.I32(after.ptr), WValue.I32(after.size)]
    else if v.Record? then [WValue.I32(after.ptr)]
    else answer
  }

  /** An output that passes is read back by the guest as it was. For any other the guest gets one code
      that tells the cause, with its cells cleared if lowering itself failed and untouched otherwise. */
  lemma OutputReachesGuest(guest: Guest, lifter: Lifter, lowerer: Lowerer, v: IValue, ty: IType, cells: GuestResult)
    requires FormOf(v, ty) && ReadsBack(lifter, lowerer, v, ty)
    ensures var (result, after) := LowerOutputs(guest, lowerer, Some(v), cells);
            && result.Values?
            && if Passes(guest, lowerer, Some(v)) then LiftOne(lifter, ty, CallerReads(v, result.ws, after)) == Ok((v, []))
               else
                 && |result.ws| == 1 && result.ws[0].I32?
                 && (result.ws[0].i32 == 2 <==> !guest.allocate)
                 && (result.ws[0].i32 == 0 <==> guest.allocate && guest.setPtr && guest.setSize)
                 && (result.ws[0].i32 == 3 || result.ws[0].i32 == 4 <==> guest.allocate && !(guest.setPtr && guest.setSize))
                 && after == if result.ws[0].i32 == 0 then GuestResult(0, 0) else cells
  {
    if Passes(guest, lowerer, Some(v)) {
      var (result, after) := LowerOutputs(guest, lowerer, Some(v), cells);
      LowerThenLift(lifter, lowerer, v, ty);
      assert CallerReads(v, result.ws, after) == IValueToWValues(lowerer, Some(v)).value;
    }
  }
}
