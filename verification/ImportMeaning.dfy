/** What an import adapter does on the way in: from raw arguments to interface values, and on the way
    out: from an interface value to a raw result. */
module ImportMeaning {
  import opened Wrappers
  import opened ITypes
  import opened SdkAst
  import opened ItAst
  import opened ExportApi
  import opened RecordTable
  import opened Adapters
  import opened Machine
  import opened Encoding

  /** The helpers sit at the indexes the generator calls them by. */
  ghost predicate HasHelpers(ctx: Context) {
    && |ctx.funcs| >= API_COUNT
    && ctx.funcs[ALLOCATE_FUNC] == Api(Allocate)
    && ctx.funcs[RELEASE_OBJECTS] == Api(ReleaseObjects)
    && ctx.funcs[GET_RESULT_SIZE_FUNC] == Api(GetResultSize)
    && ctx.funcs[GET_RESULT_PTR_FUNC] == Api(GetResultPtr)
    && ctx.funcs[SET_RESULT_SIZE_FUNC] == Api(SetResultSize)
    && ctx.funcs[SET_RESULT_PTR_FUNC] == Api(SetResultPtr)
  }

  // ----- Arguments -----

  lemma GetThenConvert(ctx: Context, index: nat, conversion: Instruction, args: seq<IValue>, stack: seq<IValue>,
                       world: World, v: IValue)
    requires index < |args| && ConvertTop(conversion, args[index]) == Some(v)
    ensures Run(ctx, [ArgumentGet(index), conversion], args, State(stack, world)) == Done(State(stack + [v], world))
  {
    hide Run;
    var st := State(stack, world);
    RunTwo(ctx, ArgumentGet(index), conversion, args, st);
    assert (stack + [args[index]])[..|stack|] == stack;
  }

  lemma GetOnly(ctx: Context, index: nat, args: seq<IValue>, stack: seq<IValue>, world: World)
    requires index < |args|
    ensures Run(ctx, [ArgumentGet(index)], args, State(stack, world)) == Done(State(stack + [args[index]], world))
  {
  }

  lemma GetPairThenLift(ctx: Context, index: nat, lift: Instruction, args: seq<IValue>, stack: seq<IValue>,
                        world: World, v: IValue)
    requires index + 1 < |args| && IsLiftPair(lift)
    requires LiftPair(lift, Own(world, ctx.me).cells, args[index], args[index + 1]) == Some(v)
    ensures Run(ctx, [ArgumentGet(index), ArgumentGet(index + 1), lift], args, State(stack, world)) ==
            Done(State(stack + [v], world))
  {
    var p, n := args[index], args[index + 1];
    RunThree(ctx, ArgumentGet(index), ArgumentGet(index + 1), lift, args, State(stack, world));
    RunTwo(ctx, ArgumentGet(index + 1), lift, args, State(stack + [p], world));
    assert (stack + [p] + [n])[..|stack|] == stack;
  }

  lemma GetThenLiftRecord(ctx: Context, index: nat, id: nat, args: seq<IValue>, stack: seq<IValue>,
                          world: World, v: IValue)
    requires index < |args| && args[index].I32? && args[index].i32 in Own(world, ctx.me).cells
    requires Own(world, ctx.me).cells[args[index].i32] == Struct(id, v)
    ensures Run(ctx, [ArgumentGet(index), RecordLiftMemory(id)], args, State(stack, world)) == Done(State(stack + [v], world))
  {
    RunTwo(ctx, ArgumentGet(index), RecordLiftMemory(id), args, State(stack, world));
    assert (stack + [args[index]])[..|stack|] == stack;
  }

  /** The conversion that lifts a raw primitive; floats need none. */
  function LiftConversion(pty: ParsedType): seq<Instruction> {
    match pty
    case Boolean => [BoolFromI32]
    case I8 => [S8FromI32]
    case I16 => [S16FromI32]
    case I32 => [S32FromI32]
    case I64 => [S64FromI64]
    case U8 => [U8FromI32]
    case U16 => [U16FromI32]
    case U32 => [U32FromI32]
    case U64 => [U64FromI64]
    case _ => []
  }

  lemma LiftConversionLifts(mem: Memory, ids: map<string, nat>, pty: ParsedType, raw: IValue, v: IValue)
    requires !pty.IsComplexType() && EncodesArg(mem, ids, pty, v, [raw])
    ensures LiftConversion(pty) == [] ==> v == raw
    ensures LiftConversion(pty) != [] ==>
              |LiftConversion(pty)| == 1 && !LiftConversion(pty)[0].CallCore? && ConvertTop(LiftConversion(pty)[0], raw) == Some(v)
  {
    hide EncodesText, EncodesElements, EncodesStruct;
  }

  lemma ImportPrimitiveCode(pty: ParsedType, index: nat, ids: map<string, nat>)
    requires !pty.IsComplexType()
    ensures ImportArg(pty, index, ids) == Some([ArgumentGet(index)] + LiftConversion(pty))
  {
    var get, c := ArgumentGet(index), LiftConversion(pty);
    assert [get] + c == if c == [] then [get] else [get, c[0]];
  }

  lemma GetThenMaybeConvert(ctx: Context, index: nat, conversion: seq<Instruction>, args: seq<IValue>,
                            stack: seq<IValue>, world: World, v: IValue)
    requires index < |args|
    requires conversion == [] ==> v == args[index]
    requires conversion != [] ==> |conversion| == 1 && ConvertTop(conversion[0], args[index]) == Some(v)
    ensures Run(ctx, [ArgumentGet(index)] + conversion, args, State(stack, world)) == Done(State(stack + [v], world))
  {
    if conversion == [] {
      assert [ArgumentGet(index)] + conversion == [ArgumentGet(index)];
      GetOnly(ctx, index, args, stack, world);
    } else {
      assert [ArgumentGet(index)] + conversion == [ArgumentGet(index), conversion[0]];
      GetThenConvert(ctx, index, conversion[0], args, stack, world, v);
    }
  }

  lemma ImportPrimitiveLifts(ctx: Context, ids: map<string, nat>, pty: ParsedType, index: nat, args: seq<IValue>,
                             stack: seq<IValue>, world: World, v: IValue)
    requires !pty.IsComplexType() && index < |args|
    requires EncodesArg(Own(world, ctx.me), ids, pty, v, [args[index]])
    ensures ImportArg(pty, index, ids).Some?
    ensures Run(ctx, ImportArg(pty, index, ids).value, args, State(stack, world)) == Done(State(stack + [v], world))
  {
    ImportPrimitiveCode(pty, index, ids);
    LiftConversionLifts(Own(world, ctx.me), ids, pty, args[index], v);
    GetThenMaybeConvert(ctx, index, LiftConversion(pty), args, stack, world, v);
  }

  /** The lifting code of one argument pushes the value its raw form encodes and nothing else. */
  lemma ImportArgLifts(ctx: Context, ids: map<string, nat>, pty: ParsedType, index: nat, args: seq<IValue>,
                       stack: seq<IValue>, world: World, v: IValue)
    requires index + Width(pty) <= |args|
    requires EncodesArg(Own(world, ctx.me), ids, pty, v, args[index..index + Width(pty)])
    ensures ImportArg(pty, index, ids).Some?
    ensures Run(ctx, ImportArg(pty, index, ids).value, args, State(stack, world)) == Done(State(stack + [v], world))
  {
    hide Run, Step;
    if !pty.IsComplexType() {
      hide ImportArg, EncodesArg;
      assert args[index..index + 1] == [args[index]];
      ImportPrimitiveLifts(ctx, ids, pty, index, args, stack, world, v);
    } else {
      assert args[index..index + Width(pty)][0] == args[index];
      match pty
      case Utf8Str | Utf8String => GetPairThenLift(ctx, index, StringLiftMemory, args, stack, world, v);
      case Vector(elem) =>
        var ty := Convert(elem, ids).value;
        GetPairThenLift(ctx, index, if ty.U8? then ByteArrayLiftMemory else ArrayLiftMemory(ty), args, stack, world, v);
      case Record(name) => GetThenLiftRecord(ctx, index, ids[name], args, stack, world, v);
    }
  }

  lemma ImportArgsCons(args: seq<FnArgument>, index: nat, ids: map<string, nat>)
    requires args != [] && ImportArg(args[0].ty, index, ids).Some?
    requires ImportArgs(args[1..], index + Width(args[0].ty), ids).Some?
    ensures ImportArgs(args, index, ids) ==
            Some(ImportArg(args[0].ty, index, ids).value + ImportArgs(args[1..], index + Width(args[0].ty), ids).value)
  {
  }

  /** The running argument index is the sum of the raw widths so far: each argument is lifted from
      its own slots, and the values end up on the stack in order. */
  lemma {:induction false} ImportArgsLift(ctx: Context, ids: map<string, nat>, args: seq<FnArgument>, index: nat,
                                          raws: seq<IValue>, stack: seq<IValue>, world: World, vs: seq<IValue>)
    requires index <= |raws| && EncodesArgs(Own(world, ctx.me), ids, args, vs, raws[index..])
    ensures ImportArgs(args, index, ids).Some?
    ensures Run(ctx, ImportArgs(args, index, ids).value, raws, State(stack, world)) == Done(State(stack + vs, world))
    decreases |args|
  {
    hide Run, EncodesArg, ImportArg, Own;
    if args == [] {
      RunNothing(ctx, raws, State(stack, world));
      assert stack + vs == stack;
    } else {
      var w := Width(args[0].ty);
      assert raws[index..][..w] == raws[index..index + w] && raws[index..][w..] == raws[index + w..];
      ImportArgLifts(ctx, ids, args[0].ty, index, raws, stack, world, vs[0]);
      ImportArgsLift(ctx, ids, args[1..], index + w, raws, stack + [vs[0]], world, vs[1..]);
      assert stack + [vs[0]] + vs[1..] == stack + vs;
      ImportArgsCons(args, index, ids);
      RunBoth(ctx, ImportArg(args[0].ty, index, ids).value, ImportArgs(args[1..], index + w, ids).value, raws,
              State(stack, world), State(stack + [vs[0]], world), Done(State(stack + vs, world)));
    }
  }
}
