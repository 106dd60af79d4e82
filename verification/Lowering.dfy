/** Lowering: how adapters put an interface value into memory, and what they leave on the stack. */
module Lowering {
  import opened Wrappers
  import opened RustInts
  import opened ITypes
  import opened SdkAst
  import opened ItAst
  import opened ExportApi
  import opened RecordTable
  import opened Adapters
  import opened Machine
  import opened Encoding
  import opened ImportMeaning

  // ----- Conversions -----

  lemma CastsInvert()
    ensures forall x: i8 :: AsI8(x) == x
    ensures forall x: i16 :: AsI16(x) == x
    ensures forall x: u8 :: AsU8(x) == x
    ensures forall x: u16 :: AsU16(x) == x
    ensures forall x: u32 :: AsU32(AsI32(x)) == x
    ensures forall x: u64 :: AsU64(AsI64(x)) == x
  {
  }

  /** The raw form a primitive is lowered to. */
  function RawOf(v: IValue): IValue {
    match v
    case Boolean(b) => IValue.I32(if b then 1 else 0)
    case S8(x) => IValue.I32(x)
    case S16(x) => IValue.I32(x)
    case S32(x) => IValue.I32(x)
    case S64(x) => IValue.I64(x)
    case U8(x) => IValue.I32(x)
    case U16(x) => IValue.I32(x)
    case U32(x) => IValue.I32(AsI32(x))
    case U64(x) => IValue.I64(AsI64(x))
    case _ => v
  }

  /** The conversion that lowers a primitive; floats need none. */
  function LowerConversion(pty: ParsedType): seq<Instruction> {
    match pty
    case Boolean => [I32FromBool]
    case I8 => [I32FromS8]
    case I16 => [I32FromS16]
    case I32 => [I32FromS32]
    case I64 => [I64FromS64]
    case U8 => [I32FromU8]
    case U16 => [I32FromU16]
    case U32 => [I32FromU32]
    case U64 => [I64FromU64]
    case _ => []
  }

  /** `v` is the scalar that a primitive type stands for. */
  predicate ScalarOf(pty: ParsedType, v: IValue) {
    match pty
    case Boolean => v.Boolean?
    case I8 => v.S8?
    case I16 => v.S16?
    case I32 => v.S32?
    case I64 => v.S64?
    case U8 => v.U8?
    case U16 => v.U16?
    case U32 => v.U32?
    case U64 => v.U64?
    case F32 => v.F32?
    case F64 => v.F64?
    case _ => false
  }

  lemma ConformsScalar(pty: ParsedType, ids: map<string, nat>, v: IValue, types: seq<AstType>)
    requires !pty.IsComplexType() && Convert(pty, ids).Some? && Conforms(v, Convert(pty, ids).value, types)
    ensures ScalarOf(pty, v)
  {
  }

  lemma LowerConversionLowers(pty: ParsedType, v: IValue)
    requires ScalarOf(pty, v)
    ensures LowerConversion(pty) == [] ==> RawOf(v) == v
    ensures LowerConversion(pty) != [] ==>
              && |LowerConversion(pty)| == 1 && !LowerConversion(pty)[0].CallCore?
              && ConvertTop(LowerConversion(pty)[0], v) == Some(RawOf(v))
  {
    hide AsI32, AsI64;
  }

  lemma RawOfEncodes(mem: Memory, ids: map<string, nat>, pty: ParsedType, v: IValue, types: seq<AstType>)
    requires !pty.IsComplexType() && Convert(pty, ids).Some? && Conforms(v, Convert(pty, ids).value, types)
    ensures EncodesArg(mem, ids, pty, v, [RawOf(v)])
  {
    CastsInvert();
  }

  // ----- Memory -----

  /** What lowering may do to a world: module `me` has up to `n` cells more and still has all it had;
      other modules are left alone. */
  ghost predicate Grew(me: nat, world: World, world': World, n: nat) {
    && Extends(Own(world, me), Own(world', me)) && |Own(world', me).cells| <= |Own(world, me).cells| + n
    && forall m :: m != me ==> Own(world', m) == Own(world, m)
  }

  /** The allocator of `ctx` is to blame in a run that started in `world`: it returned nothing when the
      module's memory held all it held at the start and less than `n` cells more. */
  ghost predicate Refused(ctx: Context, world: World, n: nat, cause: Cause) {
    && AllocatorFailed(ctx, cause)
    && Extends(Own(world, ctx.me), Memory(cause.cells, 0, 0)) && |cause.cells| < |Own(world, ctx.me).cells| + n
  }

  /** The outcome of lowering: a trap because the allocator refused the one request there is, or the
      raw form of `v` on top of the stack and memory that still holds all it held. */
  ghost predicate Lowers(ctx: Context, ids: map<string, nat>, pty: ParsedType, v: IValue, below: seq<IValue>, world: World,
                         outcome: Outcome) {
    && !outcome.Stuck?
    && (outcome.Trap? ==> Refused(ctx, world, 1, outcome.cause))
    && (outcome.Done? ==>
          var raws := outcome.st.stack[if |below| <= |outcome.st.stack| then |below| else 0..];
          && outcome.st.stack == below + raws
          && EncodesArg(Own(outcome.st.world, ctx.me), ids, pty, v, raws)
          && Grew(ctx.me, world, outcome.st.world, 1))
  }

  lemma LowersWith(ctx: Context, ids: map<string, nat>, pty: ParsedType, v: IValue, below: seq<IValue>,
                   world: World, raws: seq<IValue>, world': World)
    requires EncodesArg(Own(world', ctx.me), ids, pty, v, raws)
    requires Grew(ctx.me, world, world', 1)
    ensures Lowers(ctx, ids, pty, v, below, world, Done(State(below + raws, world')))
  {
  }

  lemma GrewNothing(me: nat, world: World, n: nat)
    ensures Grew(me, world, world, n)
  {
  }

  lemma GrewTwice(me: nat, a: World, b: World, c: World, m: nat, n: nat)
    requires Grew(me, a, b, m) && Grew(me, b, c, n)
    ensures Grew(me, a, c, m + n)
  {
  }

  lemma RefusedLater(ctx: Context, a: World, b: World, m: nat, n: nat, cause: Cause)
    requires Grew(ctx.me, a, b, m) && Refused(ctx, b, n, cause)
    ensures Refused(ctx, a, m + n, cause)
  {
  }

  /** An allocator gives space as long as some address is free. */
  ghost predicate Roomy(alloc: Allocator) {
    forall cells, size, tag, p: i32 :: p !in cells ==> alloc(cells, size, tag).Some?
  }

  ghost function FirstFree(cells: map<i32, Cell>, size: i32, tag: i32): Option<i32> {
    if exists p: i32 :: p !in cells then
      var p: i32 :| p !in cells; Some(p)
    else None
  }

  /** There are allocators that never hand out space in use and always find free space. */
  lemma AllocatorsExist()
    ensures Fresh(FirstFree) && Roomy(FirstFree)
  {
  }

  /** How many addresses an i32 tells apart. */
  const ADDRESSES := 0x1_0000_0000

  function FirstAddresses(n: nat): (addresses: set<i32>)
    requires n <= ADDRESSES
    ensures |addresses| == n && forall p: i32 :: p in addresses <==> p < n - 0x8000_0000
  {
    if n == 0 then {} else FirstAddresses(n - 1) + {n - 1 - 0x8000_0000}
  }

  lemma FullMemorySize(cells: map<i32, Cell>)
    requires forall p: i32 :: p in cells
    ensures |cells| == ADDRESSES
  {
    assert cells.Keys == FirstAddresses(ADDRESSES);
  }

  lemma SomeAddressFree(cells: map<i32, Cell>)
    requires |cells| < ADDRESSES
    ensures exists p: i32 :: p !in cells
  {
    if forall p: i32 :: p in cells { FullMemorySize(cells); }
  }

  /** A roomy allocator refuses nothing in a run whose memory stays below the number of addresses. */
  lemma RoomyNeverRefuses(ctx: Context, world: World, n: nat, cause: Cause)
    requires Roomy(ctx.alloc) && |Own(world, ctx.me).cells| + n <= ADDRESSES
    ensures !Refused(ctx, world, n, cause)
  {
    if Refused(ctx, world, n, cause) { SomeAddressFree(cause.cells); }
  }

  /** A fresh cell added to memory. */
  lemma FreshCell(ctx: Context, world: World, size: i32, tag: i32, cell: Cell)
    requires Fresh(ctx.alloc)
    ensures var stored := Store(ctx, world, size, tag, cell);
            && (stored.None? ==> Refused(ctx, world, 1, FailedStore(ctx, world, size, tag).cause))
            && (stored.Some? ==>
                  var (p, world') := stored.value;
                  && p !in Own(world, ctx.me).cells
                  && Own(world', ctx.me).cells == Own(world, ctx.me).cells[p := cell]
                  && Grew(ctx.me, world, world', 1))
  {
  }

  lemma TopIs(below: seq<IValue>, v: IValue)
    ensures (below + [v])[|below|] == v && (below + [v])[..|below|] == below
  {
  }

  lemma TopTwoAre(below: seq<IValue>, a: IValue, b: IValue)
    ensures (below + [a, b])[|below|] == a && (below + [a, b])[|below| + 1] == b && (below + [a, b])[..|below|] == below
    ensures below + [a] + [b] == below + [a, b]
  {
  }

  lemma LowerArray(ctx: Context, ids: map<string, nat>, elem: ParsedType, v: IValue, args: seq<IValue>,
                   below: seq<IValue>, world: World)
    requires Fresh(ctx.alloc) && Convert(elem, ids).Some?
    requires Conforms(v, VectorOf(Convert(elem, ids).value), ctx.types)
    ensures Lowers(ctx, ids, Vector(elem), Canonical(v, VectorOf(Convert(elem, ids).value), ctx.types), below, world,
                   Step(ctx, ArrayLowerMemory(Convert(elem, ids).value), args, State(below + [v], world)))
  {
    hide Conforms, Canonical, Own, Extends;
    var ty := Convert(elem, ids).value;
    var w := Canonical(v, VectorOf(ty), ctx.types);
    CanonicalConforms(v, VectorOf(ty), ctx.types);
    TopIs(below, v);
    FreshCell(ctx, world, AsI32(Count(w)), 0, Elements(ty, w));
    var stored := Store(ctx, world, AsI32(Count(w)), 0, Elements(ty, w));
    if stored.Some? {
      var (p, world') := stored.value;
      LowersWith(ctx, ids, Vector(elem), w, below, world, [IValue.I32(p), IValue.I32(AsI32(Count(w)))], world');
    }
  }

  lemma LowerRecord(ctx: Context, ids: map<string, nat>, name: string, v: IValue, args: seq<IValue>,
                    below: seq<IValue>, world: World)
    requires Fresh(ctx.alloc) && name in ids
    requires Conforms(v, IType.Record(ids[name]), ctx.types)
    ensures Lowers(ctx, ids, ParsedType.Record(name), Canonical(v, IType.Record(ids[name]), ctx.types), below, world,
                   Step(ctx, RecordLowerMemory(ids[name]), args, State(below + [v], world)))
  {
    var w := Canonical(v, IType.Record(ids[name]), ctx.types);
    TopIs(below, v);
    FreshCell(ctx, world, AsI32(|v.fields|), 0, Struct(ids[name], w));
    var stored := Store(ctx, world, AsI32(|v.fields|), 0, Struct(ids[name], w));
    if stored.Some? {
      var (p, world') := stored.value;
      LowersWith(ctx, ids, ParsedType.Record(name), w, below, world, [IValue.I32(p)], world');
    }
  }

  // ----- Strings: the size is computed, space allocated, then the text written -----

  /** StringSize, PushI32, call allocate, on a string on top of the stack. */
  const RESERVE: seq<Instruction> := [StringSize, PushI32(U8_TYPE_TAG), CallCore(ALLOCATE_FUNC)]

  lemma SizeOnTop(ctx: Context, s: string, args: seq<IValue>, below: seq<IValue>, world: World)
    ensures Step(ctx, StringSize, args, State(below + [IValue.String(s)], world)) == Done(State(below + [IValue.I32(AsI32(|s|))], world))
  {
    TopIs(below, IValue.String(s));
  }

  lemma TagOnTop(ctx: Context, n: IValue, args: seq<IValue>, below: seq<IValue>, world: World)
    ensures Step(ctx, PushI32(U8_TYPE_TAG), args, State(below + [n], world)) == Done(State(below + [n, IValue.I32(1)], world))
  {
    TopTwoAre(below, n, IValue.I32(1));
  }

  lemma AllocateOnTop(ctx: Context, size: i32, tag: i32, args: seq<IValue>, below: seq<IValue>, world: World)
    requires HasHelpers(ctx)
    ensures Step(ctx, CallCore(ALLOCATE_FUNC), args, State(below + [IValue.I32(size), IValue.I32(tag)], world)) ==
            match Store(ctx, world, size, tag, Reserved(size))
            case None => FailedStore(ctx, world, size, tag)
            case Some((p, world')) => Done(State(below + [IValue.I32(p)], world'))
  {
    hide Store, FailedStore;
    TopTwoAre(below, IValue.I32(size), IValue.I32(tag));
  }

  lemma ReserveText(ctx: Context, s: string, args: seq<IValue>, below: seq<IValue>, world: World)
    requires HasHelpers(ctx)
    ensures Run(ctx, RESERVE, args, State(below + [IValue.String(s)], world)) ==
            match Store(ctx, world, AsI32(|s|), 1, Reserved(AsI32(|s|)))
            case None => FailedStore(ctx, world, AsI32(|s|), 1)
            case Some((p, world')) => Done(State(below + [IValue.I32(p)], world'))
  {
    hide Run, Step, HasHelpers, Store, FailedStore;
    var n := IValue.I32(AsI32(|s|));
    RunThree(ctx, StringSize, PushI32(U8_TYPE_TAG), CallCore(ALLOCATE_FUNC), args, State(below + [IValue.String(s)], world));
    SizeOnTop(ctx, s, args, below, world);
    RunTwo(ctx, PushI32(U8_TYPE_TAG), CallCore(ALLOCATE_FUNC), args, State(below + [n], world));
    TagOnTop(ctx, n, args, below, world);
    AllocateOnTop(ctx, AsI32(|s|), 1, args, below, world);
  }

  lemma WriteText(ctx: Context, p: i32, s: string, args: seq<IValue>, below: seq<IValue>, world: World)
    requires p in Own(world, ctx.me).cells && Own(world, ctx.me).cells[p] == Reserved(AsI32(|s|))
    ensures Step(ctx, StringLowerMemory, args, State(below + [IValue.I32(p), IValue.String(s)], world)) ==
            Done(State(below + [IValue.I32(p), IValue.I32(AsI32(|s|))],
                       WithCells(world, ctx.me, Own(world, ctx.me).cells[p := Text(s)])))
  {
  }

  /** Writing into the space just reserved leaves everything else alone. */
  lemma ReserveThenWrite(ctx: Context, ids: map<string, nat>, pty: ParsedType, s: string, below: seq<IValue>,
                         world: World, p: i32, world1: World)
    requires pty.Utf8Str? || pty.Utf8String?
    requires Fresh(ctx.alloc)
    requires Store(ctx, world, AsI32(|s|), 1, Reserved(AsI32(|s|))) == Some((p, world1))
    ensures p in Own(world1, ctx.me).cells && Own(world1, ctx.me).cells[p] == Reserved(AsI32(|s|))
    ensures var world2 := WithCells(world1, ctx.me, Own(world1, ctx.me).cells[p := Text(s)]);
            Lowers(ctx, ids, pty, IValue.String(s), below, world,
                   Done(State(below + [IValue.I32(p), IValue.I32(AsI32(|s|))], world2)))
  {
    FreshCell(ctx, world, AsI32(|s|), 1, Reserved(AsI32(|s|)));
    var world2 := WithCells(world1, ctx.me, Own(world1, ctx.me).cells[p := Text(s)]);
    LowersWith(ctx, ids, pty, IValue.String(s), below, world, [IValue.I32(p), IValue.I32(AsI32(|s|))], world2);
  }
}
