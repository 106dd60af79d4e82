/** The stack machine that runs adapters. The interpreter itself (wasmer-it) is not part of the
    repository; this is the effect each instruction is taken to have:
    - integers convert with Rust's `as`, a boolean is any nonzero i32;
    - memory is abstract: lowering puts a whole value in a region no live region overlaps, lifting
      from that pointer with the same type and size gives the value back, and release_objects
      drops every region of the module;
    - `call-core` checks the values against the callee's signature;
    - an array of u8 values is accepted where a byte array is expected, and lifts back as one.
    An allocator or a core function may trap at any time; a trap says which one did, and on what. */
module Machine {
  import opened Wrappers
  import opened RustInts
  import opened ITypes
  import opened ItAst
  import opened RecordTable

  /** What a pointer refers to: fresh space, or one lowered value. */
  datatype Cell = Reserved(size: i32) | Text(s: string) | Elements(elem: IType, v: IValue) | Struct(id: nat, v: IValue)

  /** A module's memory as adapters see it, with the two cells results are announced through. */
  datatype Memory = Memory(cells: map<i32, Cell>, resultPtr: i32, resultSize: i32)

  /** The memories of all loaded modules. */
  type World = map<nat, Memory>

  type Allocator = (map<i32, Cell>, i32, i32) -> Option<i32>

  type CoreFn = (World, seq<IValue>) -> Option<(World, seq<IValue>)>

  datatype Helper = Allocate | ReleaseObjects | GetResultSize | GetResultPtr | SetResultSize | SetResultPtr

  datatype Callee =
    | Api(helper: Helper)
    | Core(params: seq<WType>, f: CoreFn)
    | Imported(paramTypes: seq<IType>, resultTypes: seq<IType>, ctx: Context, code: seq<Instruction>)

  /** A module instance: its number, its record types, its function table and its allocator. */
  datatype Context = Context(me: nat, types: seq<AstType>, funcs: seq<Callee>, alloc: Allocator)

  datatype State = State(stack: seq<IValue>, world: World)

  /** Why a run trapped: an allocator or a core function gave nothing for what it was called with. */
  datatype Cause =
    | AllocationFailed(me: nat, cells: map<i32, Cell>, size: i32, tag: i32)
    | CoreFailed(world: World, raws: seq<IValue>)

  /** `Stuck` is an interpreter error: stack underflow, a wrong type, a bad pointer or a missing
      function. */
  datatype Outcome = Done(st: State) | Trap(cause: Cause) | Stuck

  /** The allocator of `ctx` is to blame: it really returned nothing for the request in `cause`. */
  ghost predicate AllocatorFailed(ctx: Context, cause: Cause) {
    cause.AllocationFailed? && cause.me == ctx.me && ctx.alloc(cause.cells, cause.size, cause.tag).None?
  }

  ghost predicate Fresh(alloc: Allocator) {
    forall cells, size, tag :: alloc(cells, size, tag).Some? ==> alloc(cells, size, tag).value !in cells
  }

  function Own(world: World, me: nat): Memory {
    if me in world then world[me] else Memory(map[], 0, 0)
  }

  function WithCells(world: World, me: nat, cells: map<i32, Cell>): World {
    world[me := Own(world, me).(cells := cells)]
  }

  // ----- Types of values -----

  predicate AllU8(items: seq<IValue>) {
    forall i :: 0 <= i < |items| ==> items[i].U8?
  }

  /** `v` is a value of type `ty` in a module with type table `types`; bytes may come in either form. */
  predicate Conforms(v: IValue, ty: IType, types: seq<AstType>)
    decreases v
  {
    match ty
    case Boolean => v.Boolean?
    case S8 => v.S8?
    case S16 => v.S16?
    case S32 => v.S32?
    case S64 => v.S64?
    case U8 => v.U8?
    case U16 => v.U16?
    case U32 => v.U32?
    case U64 => v.U64?
    case I32 => v.I32?
    case I64 => v.I64?
    case F32 => v.F32?
    case F64 => v.F64?
    case String => v.String?
    case ByteArray => v.ByteArray? || (v.Array? && AllU8(v.items))
    case Array(elem) => v.Array? && forall i :: 0 <= i < |v.items| ==> Conforms(v.items[i], elem, types)
    case Record(id) =>
      && id < |types| && types[id].Record?
      && v.Record? && |v.fields| == |types[id].record.fields|
      && forall i :: 0 <= i < |v.fields| ==> Conforms(v.fields[i], types[id].record.fields[i].ty, types)
  }

  /** The form in which memory gives `v` back: every byte array as such. */
  function Canonical(v: IValue, ty: IType, types: seq<AstType>): IValue
    decreases v
  {
    match (ty, v)
    case (ByteArray, Array(items)) => if AllU8(items) then IValue.ByteArray(BytesOf(items)) else v
    case (Array(elem), Array(items)) =>
      IValue.Array(seq(|items|, i requires 0 <= i < |items| => Canonical(items[i], elem, types)))
    case (Record(id), Record(fields)) =>
      if id < |types| && types[id].Record? && |fields| == |types[id].record.fields| then
        IValue.Record(seq(|fields|, i requires 0 <= i < |fields| => Canonical(fields[i], types[id].record.fields[i].ty, types)))
      else v
    case _ => v
  }

  function BytesOf(items: seq<IValue>): seq<u8>
    requires AllU8(items)
  {
    seq(|items|, i requires 0 <= i < |items| => items[i].u8)
  }

  lemma {:induction false} CanonicalConforms(v: IValue, ty: IType, types: seq<AstType>)
    requires Conforms(v, ty, types)
    ensures Conforms(Canonical(v, ty, types), ty, types)
    ensures ty.ByteArray? ==> Canonical(v, ty, types).ByteArray?
    decreases v
  {
    match ty
    case Array(elem) =>
      forall i | 0 <= i < |v.items| ensures Conforms(Canonical(v.items[i], elem, types), elem, types) {
        CanonicalConforms(v.items[i], elem, types);
      }
    case Record(id) =>
      var fields := types[id].record.fields;
      forall i | 0 <= i < |v.fields| ensures Conforms(Canonical(v.fields[i], fields[i].ty, types), fields[i].ty, types) {
        CanonicalConforms(v.fields[i], fields[i].ty, types);
      }
    case _ =>
  }

  predicate AllConform(vs: seq<IValue>, tys: seq<IType>, types: seq<AstType>) {
    && |vs| == |tys|
    && forall i :: 0 <= i < |vs| ==> Conforms(vs[i], tys[i], types)
  }

  /** The Wasm type of a raw value; None for values Wasm cannot take (`unimplemented!()`). */
  function RawType(v: IValue): Option<WType> {
    match v
    case I32(_) => Some(WType.I32)
    case I64(_) => Some(WType.I64)
    case F32(_) => Some(WType.F32)
    case F64(_) => Some(WType.F64)
    case _ => None
  }

  predicate AllRaw(vs: seq<IValue>, params: seq<WType>) {
    && |vs| == |params|
    && forall i :: 0 <= i < |vs| ==> RawType(vs[i]) == Some(params[i])
  }

  function Count(v: IValue): nat {
    match v
    case ByteArray(bytes) => |bytes|
    case Array(items) => |items|
    case _ => 0
  }

  // ----- One instruction -----

  /** The conversion instructions, on the value on top of the stack. */
  function ConvertTop(instruction: Instruction, v: IValue): Option<IValue> {
    match (instruction, v)
    case (BoolFromI32, I32(x)) => Some(IValue.Boolean(x != 0))
    case (S8FromI32, I32(x)) => Some(IValue.S8(AsI8(x)))
    case (S16FromI32, I32(x)) => Some(IValue.S16(AsI16(x)))
    case (S32FromI32, I32(x)) => Some(IValue.S32(x))
    case (S64FromI64, I64(x)) => Some(IValue.S64(x))
    case (U8FromI32, I32(x)) => Some(IValue.U8(AsU8(x)))
    case (U16FromI32, I32(x)) => Some(IValue.U16(AsU16(x)))
    case (U32FromI32, I32(x)) => Some(IValue.U32(AsU32(x)))
    case (U64FromI64, I64(x)) => Some(IValue.U64(AsU64(x)))
    case (I32FromBool, Boolean(b)) => Some(IValue.I32(if b then 1 else 0))
    case (I32FromS8, S8(x)) => Some(IValue.I32(x))
    case (I32FromS16, S16(x)) => Some(IValue.I32(x))
    case (I32FromS32, S32(x)) => Some(IValue.I32(x))
    case (I64FromS64, S64(x)) => Some(IValue.I64(x))
    case (I32FromU8, U8(x)) => Some(IValue.I32(x))
    case (I32FromU16, U16(x)) => Some(IValue.I32(x))
    case (I32FromU32, U32(x)) => Some(IValue.I32(AsI32(x)))
    case (I64FromU64, U64(x)) => Some(IValue.I64(AsI64(x)))
    case (StringSize, String(s)) => Some(IValue.I32(AsI32(|s|)))
    case _ => None
  }

  /** Memory instructions that take a pointer and a size off the stack. */
  function LiftPair(instruction: Instruction, cells: map<i32, Cell>, p: IValue, n: IValue): Option<IValue> {
    if !p.I32? || !n.I32? || p.i32 !in cells then None
    else
      match (instruction, cells[p.i32])
      case (StringLiftMemory, Text(s)) => if n.i32 == AsI32(|s|) then Some(IValue.String(s)) else None
      case (ByteArrayLiftMemory, Elements(elem, v)) =>
        if elem.U8? && v.ByteArray? && n.i32 == AsI32(Count(v)) then Some(v) else None
      case (ArrayLiftMemory(ty), Elements(elem, v)) =>
        if elem == ty && n.i32 == AsI32(Count(v)) then Some(v) else None
      case _ => None
  }

  predicate IsLiftPair(instruction: Instruction) {
    instruction.StringLiftMemory? || instruction.ByteArrayLiftMemory? || instruction.ArrayLiftMemory?
  }

  /** Reserves a region for `cell`: a trap, or the pointer and the grown memory. */
  function Store(ctx: Context, world: World, size: i32, tag: i32, cell: Cell): Option<(i32, World)> {
    var cells := Own(world, ctx.me).cells;
    match ctx.alloc(cells, size, tag)
    case None => None
    case Some(p) => Some((p, WithCells(world, ctx.me, cells[p := cell])))
  }

  function FailedStore(ctx: Context, world: World, size: i32, tag: i32): Outcome {
    Trap(AllocationFailed(ctx.me, Own(world, ctx.me).cells, size, tag))
  }

  function StepLocal(ctx: Context, instruction: Instruction, args: seq<IValue>, st: State): Outcome {
    var stack, n := st.stack, |st.stack|;
    if instruction.ArgumentGet? then
      if instruction.index < |args| then Done(st.(stack := stack + [args[instruction.index]])) else Stuck
    else if instruction.PushI32? then Done(st.(stack := stack + [IValue.I32(AsI32(instruction.value))]))
    else if instruction.Dup? then
      if n >= 1 then Done(st.(stack := stack + [stack[n - 1]])) else Stuck
    else if instruction.Swap2? then
      if n >= 2 then Done(st.(stack := stack[..n - 2] + [stack[n - 1], stack[n - 2]])) else Stuck
    else if IsLiftPair(instruction) then
      if n < 2 then Stuck
      else
        (match LiftPair(instruction, Own(st.world, ctx.me).cells, stack[n - 2], stack[n - 1])
         case None => Stuck
         case Some(v) => Done(st.(stack := stack[..n - 2] + [v])))
    else if instruction.RecordLiftMemory? then
      var cells := Own(st.world, ctx.me).cells;
      if n >= 1 && stack[n - 1].I32? && stack[n - 1].i32 in cells && cells[stack[n - 1].i32].Struct?
         && cells[stack[n - 1].i32].id == instruction.recordTypeId
      then Done(st.(stack := stack[..n - 1] + [cells[stack[n - 1].i32].v]))
      else Stuck
    else if instruction.StringLowerMemory? then
      var cells := Own(st.world, ctx.me).cells;
      if n >= 2 && stack[n - 2].I32? && stack[n - 1].String? && stack[n - 2].i32 in cells
         && cells[stack[n - 2].i32] == Reserved(AsI32(|stack[n - 1].s|))
      then
        var p, s := stack[n - 2].i32, stack[n - 1].s;
        Done(State(stack[..n - 2] + [IValue.I32(p), IValue.I32(AsI32(|s|))], WithCells(st.world, ctx.me, cells[p := Text(s)])))
      else Stuck
    else if instruction.ArrayLowerMemory? then
      if n < 1 || !Conforms(stack[n - 1], VectorOf(instruction.valueType), ctx.types) then Stuck
      else
        var v := Canonical(stack[n - 1], VectorOf(instruction.valueType), ctx.types);
        (match Store(ctx, st.world, AsI32(Count(v)), 0, Elements(instruction.valueType, v))
         case None => FailedStore(ctx, st.world, AsI32(Count(v)), 0)
         case Some((p, world)) => Done(State(stack[..n - 1] + [IValue.I32(p), IValue.I32(AsI32(Count(v)))], world)))
    else if instruction.RecordLowerMemory? then
      if n < 1 || !Conforms(stack[n - 1], IType.Record(instruction.recordTypeId), ctx.types) then Stuck
      else
        var v := Canonical(stack[n - 1], IType.Record(instruction.recordTypeId), ctx.types);
        var size := AsI32(|stack[n - 1].fields|);
        (match Store(ctx, st.world, size, 0, Struct(instruction.recordTypeId, v))
         case None => FailedStore(ctx, st.world, size, 0)
         case Some((p, world)) => Done(State(stack[..n - 1] + [IValue.I32(p)], world)))
    else if n >= 1 && ConvertTop(instruction, stack[n - 1]).Some? then
      Done(st.(stack := stack[..n - 1] + [ConvertTop(instruction, stack[n - 1]).value]))
    else Stuck
  }

  function CallHelper(ctx: Context, helper: Helper, st: State): Outcome {
    var stack, n, own := st.stack, |st.stack|, Own(st.world, ctx.me);
    match helper
    case Allocate =>
      if n >= 2 && stack[n - 2].I32? && stack[n - 1].I32? then
        (match Store(ctx, st.world, stack[n - 2].i32, stack[n - 1].i32, Reserved(stack[n - 2].i32))
         case None => FailedStore(ctx, st.world, stack[n - 2].i32, stack[n - 1].i32)
         case Some((p, world)) => Done(State(stack[..n - 2] + [IValue.I32(p)], world)))
      else Stuck
    case ReleaseObjects => Done(st.(world := WithCells(st.world, ctx.me, map[])))
    case GetResultSize => Done(st.(stack := stack + [IValue.I32(own.resultSize)]))
    case GetResultPtr => Done(st.(stack := stack + [IValue.I32(own.resultPtr)]))
    case SetResultSize =>
      if n >= 1 && stack[n - 1].I32? then
        Done(State(stack[..n - 1], st.world[ctx.me := own.(resultSize := stack[n - 1].i32)]))
      else Stuck
    case SetResultPtr =>
      if n >= 1 && stack[n - 1].I32? then
        Done(State(stack[..n - 1], st.world[ctx.me := own.(resultPtr := stack[n - 1].i32)]))
      else Stuck
  }

  function CallCoreFn(params: seq<WType>, f: CoreFn, st: State): Outcome {
    var stack, k := st.stack, |st.stack| - |params|;
    if k < 0 || !AllRaw(stack[k..], params) then Stuck
    else
      match f(st.world, stack[k..])
      case None => Trap(CoreFailed(st.world, stack[k..]))
      case Some((world, outs)) => Done(State(stack[..k] + outs, world))
  }

  function Step(ctx: Context, instruction: Instruction, args: seq<IValue>, st: State): Outcome
    decreases ctx, 0
  {
    if !instruction.CallCore? then StepLocal(ctx, instruction, args, st)
    else if instruction.functionIndex >= |ctx.funcs| then Stuck
    else
      match ctx.funcs[instruction.functionIndex]
      case Api(helper) => CallHelper(ctx, helper, st)
      case Core(params, f) => CallCoreFn(params, f, st)
      case Imported(paramTypes, resultTypes, callee, code) =>
        var stack, k := st.stack, |st.stack| - |paramTypes|;
        if k < 0 || !AllConform(stack[k..], paramTypes, ctx.types) then Stuck
        else
          match Run(callee, code, stack[k..], State([], st.world))
          case Done(end) =>
            if AllConform(end.stack, resultTypes, ctx.types) then Done(State(stack[..k] + end.stack, end.world)) else Stuck
          case other => other
  }

  /** Runs adapter code on an argument list. */
  function Run(ctx: Context, code: seq<Instruction>, args: seq<IValue>, st: State): Outcome
    decreases ctx, |code|
  {
    if code == [] then Done(st)
    else
      match Step(ctx, code[0], args, st)
      case Done(next) => Run(ctx, code[1..], args, next)
      case other => other
  }

  // ----- Composition -----

  function Then(ctx: Context, outcome: Outcome, code: seq<Instruction>, args: seq<IValue>): Outcome {
    if outcome.Done? then Run(ctx, code, args, outcome.st) else outcome
  }

  lemma {:induction false} RunAppend(ctx: Context, a: seq<Instruction>, b: seq<Instruction>, args: seq<IValue>, st: State)
    ensures Run(ctx, a + b, args, st) == Then(ctx, Run(ctx, a, args, st), b, args)
    decreases |a|
  {
    if a == [] {
      assert a + b == b;
    } else {
      assert (a + b)[0] == a[0] && (a + b)[1..] == a[1..] + b;
      var next := Step(ctx, a[0], args, st);
      if next.Done? { RunAppend(ctx, a[1..], b, args, next.st); }
    }
  }

  lemma RunBoth(ctx: Context, a: seq<Instruction>, b: seq<Instruction>, args: seq<IValue>,
                st: State, mid: State, end: Outcome)
    requires Run(ctx, a, args, st) == Done(mid) && Run(ctx, b, args, mid) == end
    ensures Run(ctx, a + b, args, st) == end
  {
    RunAppend(ctx, a, b, args, st);
  }

  lemma RunAfterTwo(ctx: Context, a: seq<Instruction>, b: seq<Instruction>, rest: seq<Instruction>,
                    args: seq<IValue>, st0: State, st1: State, st2: State)
    requires Run(ctx, a, args, st0) == Done(st1) && Run(ctx, b, args, st1) == Done(st2)
    ensures Run(ctx, a + (b + rest), args, st0) == Run(ctx, rest, args, st2)
  {
    RunAppend(ctx, a, b + rest, args, st0);
    RunAppend(ctx, b, rest, args, st1);
  }

  lemma RunNothing(ctx: Context, args: seq<IValue>, st: State)
    ensures Run(ctx, [], args, st) == Done(st)
  {
  }

  lemma RunOne(ctx: Context, a: Instruction, args: seq<IValue>, st: State)
    ensures Run(ctx, [a], args, st) == Step(ctx, a, args, st)
  {
  }

  lemma RunTwo(ctx: Context, a: Instruction, b: Instruction, args: seq<IValue>, st: State)
    ensures Run(ctx, [a, b], args, st) ==
            (var next := Step(ctx, a, args, st); if next.Done? then Step(ctx, b, args, next.st) else next)
  {
    var next := Step(ctx, a, args, st);
    assert [a, b][0] == a && [a, b][1..] == [b];
    if next.Done? { RunOne(ctx, b, args, next.st); }
  }

  lemma RunThree(ctx: Context, a: Instruction, b: Instruction, c: Instruction, args: seq<IValue>, st: State)
    ensures Run(ctx, [a, b, c], args, st) == Then(ctx, Step(ctx, a, args, st), [b, c], args)
  {
  }
}
