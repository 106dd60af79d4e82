/** What an export adapter does: lower the arguments into its module, call the core function, lift
    the result, release. */
module ExportMeaning {
  import opened Wrappers
  import opened RustInts
  import opened ITypes
  import opened SdkAst
  import opened ItAst
  import opened ExportApi
  import opened RecordTable
  import opened Adapters
  import opened Loader
  import opened Machine
  import opened Encoding
  import opened ImportMeaning
  import opened Lowering

  // ----- Arguments -----

  lemma ExportPrimitiveLowers(ctx: Context, ids: map<string, nat>, pty: ParsedType, index: nat, args: seq<IValue>,
                              below: seq<IValue>, world: World)
    requires !pty.IsComplexType() && index < |args|
    requires Convert(pty, ids).Some? && Conforms(args[index], Convert(pty, ids).value, ctx.types)
    ensures ExportArg(pty, index, ids).Some?
    ensures Run(ctx, ExportArg(pty, index, ids).value, args, State(below, world)) ==
            Done(State(below + [RawOf(args[index])], world))
  {
    assert ExportArg(pty, index, ids) == Some([ArgumentGet(index)] + LowerConversion(pty)) by { ExportPrimitiveCode(pty, index, ids); }
    ConformsScalar(pty, ids, args[index], ctx.types);
    LowerConversionLowers(pty, args[index]);
    GetThenMaybeConvert(ctx, index, LowerConversion(pty), args, below, world, RawOf(args[index]));
  }

  lemma ExportPrimitiveCode(pty: ParsedType, index: nat, ids: map<string, nat>)
    requires !pty.IsComplexType()
    ensures ExportArg(pty, index, ids) == Some([ArgumentGet(index)] + LowerConversion(pty))
  {
    var get, c := ArgumentGet(index), LowerConversion(pty);
    assert [get] + c == if c == [] then [get] else [get, c[0]];
  }

  lemma GetThen(ctx: Context, index: nat, code: seq<Instruction>, args: seq<IValue>, below: seq<IValue>, world: World)
    requires index < |args|
    ensures Run(ctx, [ArgumentGet(index)] + code, args, State(below, world)) ==
            Run(ctx, code, args, State(below + [args[index]], world))
  {
  }

  lemma ExportTextLowers(ctx: Context, ids: map<string, nat>, pty: ParsedType, index: nat, args: seq<IValue>,
                         below: seq<IValue>, world: World)
    requires pty.Utf8Str? || pty.Utf8String?
    requires HasHelpers(ctx) && Fresh(ctx.alloc) && index < |args| && args[index].String?
    ensures ExportArg(pty, index, ids).Some?
    ensures Lowers(ctx, ids, pty, args[index], below, world,
                   Run(ctx, ExportArg(pty, index, ids).value, args, State(below, world)))
  {
    hide Run, Step, HasHelpers, Fresh, EncodesArg, Grew, Refused, Own;
    var v, s := args[index], args[index].s;
    var tail := [ArgumentGet(index), StringLowerMemory];
    var code := ExportArg(pty, index, ids).value;
    assert code == [ArgumentGet(index)] + (RESERVE + tail);
    GetThen(ctx, index, RESERVE + tail, args, below, world);
    RunAppend(ctx, RESERVE, tail, args, State(below + [v], world));
    ReserveText(ctx, s, args, below, world);
    var stored := Store(ctx, world, AsI32(|s|), 1, Reserved(AsI32(|s|)));
    FreshCell(ctx, world, AsI32(|s|), 1, Reserved(AsI32(|s|)));
    if stored.Some? {
      var (p, world1) := stored.value;
      ReserveThenWrite(ctx, ids, pty, s, below, world, p, world1);
      assert tail == [ArgumentGet(index)] + [StringLowerMemory];
      GetThen(ctx, index, [StringLowerMemory], args, below + [IValue.I32(p)], world1);
      assert below + [IValue.I32(p)] + [v] == below + [IValue.I32(p), IValue.String(s)];
      WriteText(ctx, p, s, args, below, world1);
      RunOne(ctx, StringLowerMemory, args, State(below + [IValue.I32(p), IValue.String(s)], world1));
    }
  }

  /** The lowering code of one argument pushes a raw form of it; bytes given as an array of u8 values
      end up as a byte array. */
  lemma {:induction false} ExportArgLowers(ctx: Context, ids: map<string, nat>, pty: ParsedType, index: nat, args: seq<IValue>,
                                           below: seq<IValue>, world: World)
    requires HasHelpers(ctx) && Fresh(ctx.alloc) && index < |args|
    requires Convert(pty, ids).Some? && Conforms(args[index], Convert(pty, ids).value, ctx.types)
    ensures ExportArg(pty, index, ids).Some?
    ensures Lowers(ctx, ids, pty, Canonical(args[index], Convert(pty, ids).value, ctx.types), below, world,
                   Run(ctx, ExportArg(pty, index, ids).value, args, State(below, world)))
  {
    hide Run, Step, Lowers, HasHelpers, Fresh;
    var v := args[index];
    if !pty.IsComplexType() {
      ExportPrimitiveLowers(ctx, ids, pty, index, args, below, world);
      RawOfEncodes(Own(world, ctx.me), ids, pty, v, ctx.types);
      GrewNothing(ctx.me, world, 1);
      LowersWith(ctx, ids, pty, v, below, world, [RawOf(v)], world);
      SimpleIsCanonical(v, Convert(pty, ids).value, ctx.types);
    } else {
      match pty
      case Utf8Str => ExportTextLowers(ctx, ids, pty, index, args, below, world);
      case Utf8String => ExportTextLowers(ctx, ids, pty, index, args, below, world);
      case Vector(elem) =>
        var lower := ArrayLowerMemory(Convert(elem, ids).value);
        GetThen(ctx, index, [lower], args, below, world);
        assert [ArgumentGet(index)] + [lower] == [ArgumentGet(index), lower];
        RunOne(ctx, lower, args, State(below + [v], world));
        LowerArray(ctx, ids, elem, v, args, below, world);
      case Record(name) =>
        var lower := RecordLowerMemory(ids[name]);
        GetThen(ctx, index, [lower], args, below, world);
        assert [ArgumentGet(index)] + [lower] == [ArgumentGet(index), lower];
        RunOne(ctx, lower, args, State(below + [v], world));
        LowerRecord(ctx, ids, name, v, args, below, world);
    }
  }

  lemma SimpleIsCanonical(v: IValue, ty: IType, types: seq<AstType>)
    requires !ty.ByteArray? && !ty.Array? && !ty.Record?
    ensures Canonical(v, ty, types) == v
  {
  }

  /** The outcome of lowering a list of arguments. */
  ghost predicate LowersAll(ctx: Context, ids: map<string, nat>, args: seq<FnArgument>, vs: seq<IValue>, below: seq<IValue>,
                            world: World, outcome: Outcome) {
    && !outcome.Stuck?
    && (outcome.Trap? ==> Refused(ctx, world, |args|, outcome.cause))
    && (outcome.Done? ==>
          var raws := outcome.st.stack[if |below| <= |outcome.st.stack| then |below| else 0..];
          && outcome.st.stack == below + raws
          && EncodesArgs(Own(outcome.st.world, ctx.me), ids, args, vs, raws)
          && Grew(ctx.me, world, outcome.st.world, |args|))
  }

  lemma LowersCons(ctx: Context, ids: map<string, nat>, args: seq<FnArgument>, vs: seq<IValue>, below: seq<IValue>,
                   world: World, first: Outcome, rest: Outcome)
    requires args != [] && vs != []
    requires Lowers(ctx, ids, args[0].ty, vs[0], below, world, first) && first.Done?
    requires LowersAll(ctx, ids, args[1..], vs[1..], first.st.stack, first.st.world, rest)
    ensures LowersAll(ctx, ids, args, vs, below, world, rest)
  {
    if rest.Trap? {
      RefusedLater(ctx, world, first.st.world, 1, |args| - 1, rest.cause);
    }
    if rest.Done? {
      GrewTwice(ctx.me, world, first.st.world, rest.st.world, 1, |args| - 1);
      var head, tail := first.st.stack[|below|..], rest.st.stack[|first.st.stack|..];
      var raws := head + tail;
      assert rest.st.stack == below + raws;
      assert rest.st.stack[|below|..] == raws;
      EncodesArgKept(Own(first.st.world, ctx.me), Own(rest.st.world, ctx.me), ids, args[0].ty, vs[0], head);
      var w := Width(args[0].ty);
      assert raws[..w] == head && raws[w..] == tail;
    }
  }

  /** Arguments of the types the module's tables give for the signature. */
  ghost predicate ArgsConform(ctx: Context, ids: map<string, nat>, args: seq<FnArgument>, vs: seq<IValue>) {
    && |vs| == |args|
    && forall i :: 0 <= i < |args| ==>
         Convert(args[i].ty, ids).Some? && Conforms(vs[i], Convert(args[i].ty, ids).value, ctx.types)
  }

  /** The values a core function reads when an adapter is given `vs`. */
  ghost function CanonicalArgs(ctx: Context, ids: map<string, nat>, args: seq<FnArgument>, vs: seq<IValue>): (ws: seq<IValue>)
    requires ArgsConform(ctx, ids, args, vs)
    ensures ArgsConform(ctx, ids, args, ws)
  {
    var ws := seq(|args|, i requires 0 <= i < |args| => Canonical(vs[i], Convert(args[i].ty, ids).value, ctx.types));
    assert ArgsConform(ctx, ids, args, ws) by {
      forall i | 0 <= i < |args| ensures Conforms(ws[i], Convert(args[i].ty, ids).value, ctx.types) {
        CanonicalConforms(vs[i], Convert(args[i].ty, ids).value, ctx.types);
      }
    }
    ws
  }

  lemma ArgsConformTail(ctx: Context, ids: map<string, nat>, args: seq<FnArgument>, vs: seq<IValue>)
    requires ArgsConform(ctx, ids, args, vs) && args != []
    ensures vs != [] && Convert(args[0].ty, ids).Some? && Conforms(vs[0], Convert(args[0].ty, ids).value, ctx.types)
    ensures ArgsConform(ctx, ids, args[1..], vs[1..])
    ensures CanonicalArgs(ctx, ids, args, vs) ==
            [Canonical(vs[0], Convert(args[0].ty, ids).value, ctx.types)] + CanonicalArgs(ctx, ids, args[1..], vs[1..])
  {
    hide Convert, Conforms, Canonical;
    var ws := [Canonical(vs[0], Convert(args[0].ty, ids).value, ctx.types)] + CanonicalArgs(ctx, ids, args[1..], vs[1..]);
    assert forall i :: 0 < i < |args| ==> args[i] == args[1..][i - 1] && vs[i] == vs[1..][i - 1];
    assert CanonicalArgs(ctx, ids, args, vs) == ws;
  }

  lemma ExportArgsCons(args: seq<FnArgument>, index: nat, ids: map<string, nat>)
    requires args != [] && ExportArg(args[0].ty, index, ids).Some? && ExportArgs(args[1..], index + 1, ids).Some?
    ensures ExportArgs(args, index, ids) ==
            Some(ExportArg(args[0].ty, index, ids).value + ExportArgs(args[1..], index + 1, ids).value)
  {
  }

  lemma NothingLowered(ctx: Context, ids: map<string, nat>, below: seq<IValue>, world: World)
    ensures LowersAll(ctx, ids, [], [], below, world, Done(State(below, world)))
  {
    assert below + [] == below;
    GrewNothing(ctx.me, world, 0);
  }

  lemma NoArgs(ctx: Context, ids: map<string, nat>, args: seq<FnArgument>, vs: seq<IValue>)
    requires args == [] && ArgsConform(ctx, ids, args, vs)
    ensures CanonicalArgs(ctx, ids, args, vs) == []
  {
  }

  lemma LowersEnds(ctx: Context, ids: map<string, nat>, pty: ParsedType, v: IValue, below: seq<IValue>, world: World, outcome: Outcome)
    requires Lowers(ctx, ids, pty, v, below, world, outcome)
    ensures !outcome.Stuck?
  {
  }

  lemma FirstRefused(ctx: Context, ids: map<string, nat>, args: seq<FnArgument>, vs: seq<IValue>, below: seq<IValue>, world: World,
                     v: IValue, first: Outcome)
    requires args != [] && Lowers(ctx, ids, args[0].ty, v, below, world, first) && first.Trap?
    ensures LowersAll(ctx, ids, args, vs, below, world, first)
  {
  }

  lemma {:induction false} ExportArgsLower(ctx: Context, ids: map<string, nat>, args: seq<FnArgument>, index: nat, all: seq<IValue>,
                                           vs: seq<IValue>, below: seq<IValue>, world: World)
    requires HasHelpers(ctx) && Fresh(ctx.alloc)
    requires index + |args| <= |all| && vs == all[index..index + |args|]
    requires ArgsConform(ctx, ids, args, vs)
    ensures ExportArgs(args, index, ids).Some?
    ensures LowersAll(ctx, ids, args, CanonicalArgs(ctx, ids, args, vs), below, world,
                      Run(ctx, ExportArgs(args, index, ids).value, all, State(below, world)))
    decreases |args|
  {
    hide Run, ExportArg, Convert, Conforms, Canonical, ArgsConform, CanonicalArgs, Lowers, LowersAll, HasHelpers, Fresh;
    if args == [] {
      NothingLowered(ctx, ids, below, world);
      RunNothing(ctx, all, State(below, world));
      assert CanonicalArgs(ctx, ids, args, vs) == [] by { NoArgs(ctx, ids, args, vs); }
    } else {
      ArgsConformTail(ctx, ids, args, vs);
      assert vs[0] == all[index] && vs[1..] == all[index + 1..index + 1 + |args[1..]|];
      ExportArgLowers(ctx, ids, args[0].ty, index, all, below, world);
      var code := ExportArg(args[0].ty, index, ids).value;
      var first := Run(ctx, code, all, State(below, world));
      var mid := if first.Done? then first.st else State(below, world);
      var ws := CanonicalArgs(ctx, ids, args, vs);
      ExportArgsLower(ctx, ids, args[1..], index + 1, all, vs[1..], mid.stack, mid.world);
      ExportArgsCons(args, index, ids);
      var more := ExportArgs(args[1..], index + 1, ids).value;
      RunAppend(ctx, code, more, all, State(below, world));
      if first.Done? {
        assert ws[1..] == CanonicalArgs(ctx, ids, args[1..], vs[1..]);
        LowersCons(ctx, ids, args, ws, below, world, first, Run(ctx, more, all, mid));
      } else {
        LowersEnds(ctx, ids, args[0].ty, ws[0], below, world, first);
        FirstRefused(ctx, ids, args, ws, below, world, ws[0], first);
      }
    }
  }

  // ----- Results -----

  lemma CellsThenLift(ctx: Context, lift: Instruction, args: seq<IValue>, world: World, v: IValue)
    requires HasHelpers(ctx) && IsLiftPair(lift)
    requires LiftPair(lift, Own(world, ctx.me).cells, IValue.I32(Own(world, ctx.me).resultPtr),
                      IValue.I32(Own(world, ctx.me).resultSize)) == Some(v)
    ensures Run(ctx, [CallCore(GET_RESULT_PTR_FUNC), CallCore(GET_RESULT_SIZE_FUNC), lift], args, State([], world)) ==
            Done(State([v], world))
  {
    var p, n := IValue.I32(Own(world, ctx.me).resultPtr), IValue.I32(Own(world, ctx.me).resultSize);
    RunThree(ctx, CallCore(GET_RESULT_PTR_FUNC), CallCore(GET_RESULT_SIZE_FUNC), lift, args, State([], world));
    RunTwo(ctx, CallCore(GET_RESULT_SIZE_FUNC), lift, args, State([p], world));
    assert [] + [p] == [p] && [p] + [n] == [p, n] && [p, n][..0] + [v] == [v];
  }

  lemma CellThenLiftRecord(ctx: Context, id: nat, args: seq<IValue>, world: World, v: IValue)
    requires HasHelpers(ctx)
    requires Own(world, ctx.me).resultPtr in Own(world, ctx.me).cells
    requires Own(world, ctx.me).cells[Own(world, ctx.me).resultPtr] == Struct(id, v)
    ensures Run(ctx, [CallCore(GET_RESULT_PTR_FUNC), RecordLiftMemory(id)], args, State([], world)) == Done(State([v], world))
  {
    var p := IValue.I32(Own(world, ctx.me).resultPtr);
    RunTwo(ctx, CallCore(GET_RESULT_PTR_FUNC), RecordLiftMemory(id), args, State([], world));
    assert [] + [p] == [p] && [p][..0] + [v] == [v];
  }

  lemma ConvertOnly(ctx: Context, conversion: Instruction, args: seq<IValue>, v: IValue, world: World, r: IValue)
    requires !conversion.CallCore? && ConvertTop(conversion, v) == Some(r)
    ensures Run(ctx, [conversion], args, State([v], world)) == Done(State([r], world))
  {
    RunOne(ctx, conversion, args, State([v], world));
    assert [v][..0] + [r] == [r];
  }

  lemma ExportPrimitiveLifts(ctx: Context, ids: map<string, nat>, pty: ParsedType, args: seq<IValue>, raw: IValue,
                             world: World, r: IValue)
    requires !pty.IsComplexType() && EncodesArg(Own(world, ctx.me), ids, pty, r, [raw])
    ensures ExportOutput(pty, ids).Some?
    ensures Run(ctx, ExportOutput(pty, ids).value, args, State([raw], world)) == Done(State([r], world))
  {
    assert ExportOutput(pty, ids) == Some(LiftConversion(pty)) by { ExportPrimitiveOutputCode(pty, ids); }
    LiftConversionLifts(Own(world, ctx.me), ids, pty, raw, r);
    MaybeConvertOnly(ctx, LiftConversion(pty), args, raw, world, r);
  }

  lemma ExportPrimitiveOutputCode(pty: ParsedType, ids: map<string, nat>)
    requires !pty.IsComplexType()
    ensures ExportOutput(pty, ids) == Some(LiftConversion(pty))
  {
  }

  lemma MaybeConvertOnly(ctx: Context, conversion: seq<Instruction>, args: seq<IValue>, v: IValue, world: World, r: IValue)
    requires conversion == [] ==> r == v
    requires conversion != [] ==> |conversion| == 1 && !conversion[0].CallCore? && ConvertTop(conversion[0], v) == Some(r)
    ensures Run(ctx, conversion, args, State([v], world)) == Done(State([r], world))
  {
    if conversion != [] {
      assert conversion == [conversion[0]];
      ConvertOnly(ctx, conversion[0], args, v, world, r);
    }
  }

  lemma ExportOutputLifts(ctx: Context, ids: map<string, nat>, pty: ParsedType, args: seq<IValue>,
                          outs: seq<IValue>, world: World, r: IValue)
    requires HasHelpers(ctx) && EncodesResult(Own(world, ctx.me), ids, [pty], [r], outs)
    ensures ExportOutput(pty, ids).Some?
    ensures Run(ctx, ExportOutput(pty, ids).value, args, State(outs, world)) == Done(State([r], world))
  {
    hide Run, Step, HasHelpers;
    var own := Own(world, ctx.me);
    if !pty.IsComplexType() {
      assert outs == [outs[0]];
      ExportPrimitiveLifts(ctx, ids, pty, args, outs[0], world, r);
    } else {
      match pty
      case Utf8Str => CellsThenLift(ctx, StringLiftMemory, args, world, r);
      case Utf8String => CellsThenLift(ctx, StringLiftMemory, args, world, r);
      case Vector(elem) =>
        var ty := Convert(elem, ids).value;
        CellsThenLift(ctx, if ty.U8? then ByteArrayLiftMemory else ArrayLiftMemory(ty), args, world, r);
      case Record(name) => CellThenLiftRecord(ctx, ids[name], args, world, r);
    }
  }

  lemma ExportOutputsLift(ctx: Context, ids: map<string, nat>, outputs: seq<ParsedType>, args: seq<IValue>,
                          outs: seq<IValue>, world: World, rs: seq<IValue>)
    requires HasHelpers(ctx) && |outputs| <= 1 && EncodesResult(Own(world, ctx.me), ids, outputs, rs, outs)
    ensures ExportOutputs(outputs, ids).Some?
    ensures Run(ctx, ExportOutputs(outputs, ids).value, args, State(outs, world)) == Done(State(rs, world))
  {
    if outputs != [] {
      assert outputs == [outputs[0]] && rs == [rs[0]] && outputs[1..] == [];
      ExportOutputLifts(ctx, ids, outputs[0], args, outs, world, rs[0]);
      var code := ExportOutput(outputs[0], ids).value;
      assert code + [] == code;
    }
  }

  // ----- The whole adapter -----

  /** `f` is a core function with the Rust signature `signature` that computes `sem`: it reads
      well-typed arguments from their raw form and announces or returns its result in raw form. What
      else it does to memory is its own business. */
  ghost predicate Implements(f: CoreFn, ctx: Context, ids: map<string, nat>, signature: FnSignature, sem: seq<IValue> -> seq<IValue>) {
    forall world, raws, vs ::
      EncodesArgs(Own(world, ctx.me), ids, signature.arguments, vs, raws) && ArgsConform(ctx, ids, signature.arguments, vs) ==>
        match f(world, raws)
        case None => true
        case Some((after, outs)) => EncodesResult(Own(after, ctx.me), ids, signature.outputTypes, sem(vs), outs)
  }

  /** The core function is to blame in a run that started in `world`: it returned nothing when called on
      an encoding of `vs`, in a world with nothing but the lowered arguments added. */
  ghost predicate CoreFunctionFailed(ctx: Context, ids: map<string, nat>, signature: FnSignature, f: CoreFn, vs: seq<IValue>,
                                     world: World, cause: Cause) {
    && cause.CoreFailed? && f(cause.world, cause.raws).None?
    && EncodesArgs(Own(cause.world, ctx.me), ids, signature.arguments, vs, cause.raws)
    && Grew(ctx.me, world, cause.world, |signature.arguments|)
  }

  /** `f` gives a result whenever it is called on an encoding of `vs`. */
  ghost predicate Answers(ctx: Context, ids: map<string, nat>, signature: FnSignature, f: CoreFn, vs: seq<IValue>) {
    forall world, raws :: EncodesArgs(Own(world, ctx.me), ids, signature.arguments, vs, raws) ==> f(world, raws).Some?
  }

  /** Function `index` of the module is the core function behind `signature`. */
  ghost predicate HasCore(ctx: Context, signature: FnSignature, index: nat, f: CoreFn) {
    && index < |ctx.funcs|
    && WTypes(TypesOf(RawArgs(signature.arguments))).Some?
    && ctx.funcs[index] == Core(WTypes(TypesOf(RawArgs(signature.arguments))).value, f)
  }

  lemma CallCoreRuns(ctx: Context, ids: map<string, nat>, signature: FnSignature, index: nat, f: CoreFn,
                     sem: seq<IValue> -> seq<IValue>, args: seq<IValue>, raws: seq<IValue>, vs: seq<IValue>, world: World)
    requires HasCore(ctx, signature, index, f) && Implements(f, ctx, ids, signature, sem)
    requires EncodesArgs(Own(world, ctx.me), ids, signature.arguments, vs, raws)
    requires ArgsConform(ctx, ids, signature.arguments, vs)
    ensures var o := Run(ctx, [CallCore(index)], args, State(raws, world));
            && !o.Stuck? && (o.Trap? ==> o.cause == CoreFailed(world, raws) && f(world, raws).None?)
            && (o.Done? ==> EncodesResult(Own(o.st.world, ctx.me), ids, signature.outputTypes, sem(vs), o.st.stack))
  {
    RunOne(ctx, CallCore(index), args, State(raws, world));
    EncodedArgsFitSignature(Own(world, ctx.me), ids, signature.arguments, vs, raws);
    assert raws[0..] == raws && raws[..0] == [];
    var called := f(world, raws);
    if called.Some? { assert [] + called.value.1 == called.value.1; }
  }

  lemma ReleaseRuns(ctx: Context, needed: bool, args: seq<IValue>, stack: seq<IValue>, world: World)
    requires HasHelpers(ctx)
    ensures Run(ctx, Release(needed), args, State(stack, world)) ==
            Done(State(stack, if needed then WithCells(world, ctx.me, map[]) else world))
  {
  }

  /** What running an export adapter in `world` comes to: `rs` on the stack, or a trap because the
      module's allocator refused an argument or the core function, called on `vs`, gave nothing. */
  ghost predicate Returns(ctx: Context, ids: map<string, nat>, signature: FnSignature, f: CoreFn, vs: seq<IValue>, rs: seq<IValue>,
                          world: World, outcome: Outcome) {
    && !outcome.Stuck?
    && (outcome.Trap? ==>
          || Refused(ctx, world, |signature.arguments|, outcome.cause)
          || CoreFunctionFailed(ctx, ids, signature, f, vs, world, outcome.cause))
    && (outcome.Done? ==> outcome.st.stack == rs)
  }

  /** Nothing stands in the way of a call in `world`: memory has room for the arguments, the allocator
      uses it and the core function answers. */
  ghost predicate Unhindered(ctx: Context, ids: map<string, nat>, signature: FnSignature, f: CoreFn, vs: seq<IValue>, world: World) {
    && Roomy(ctx.alloc) && |Own(world, ctx.me).cells| + |signature.arguments| <= ADDRESSES
    && Answers(ctx, ids, signature, f, vs)
  }

  /** Then the call finishes. */
  lemma UnhinderedReturns(ctx: Context, ids: map<string, nat>, signature: FnSignature, f: CoreFn, vs: seq<IValue>, rs: seq<IValue>,
                          world: World, outcome: Outcome)
    requires Returns(ctx, ids, signature, f, vs, rs, world, outcome) && Unhindered(ctx, ids, signature, f, vs, world)
    ensures outcome.Done? && outcome.st.stack == rs
  {
    if outcome.Trap? { RoomyNeverRefuses(ctx, world, |signature.arguments|, outcome.cause); }
  }

  lemma AfterCore(ctx: Context, ids: map<string, nat>, outputs: seq<ParsedType>, args: seq<IValue>,
                  st: State, rs: seq<IValue>)
    requires HasHelpers(ctx) && |outputs| <= 1 && EncodesResult(Own(st.world, ctx.me), ids, outputs, rs, st.stack)
    ensures ExportOutputs(outputs, ids).Some?
    ensures var o := Run(ctx, ExportOutputs(outputs, ids).value + Release(AnyComplex(outputs)), args, st);
            o.Done? && o.st.stack == rs
  {
    ExportOutputsLift(ctx, ids, outputs, args, st.stack, st.world, rs);
    ReleaseRuns(ctx, AnyComplex(outputs), args, rs, st.world);
    RunAppend(ctx, ExportOutputs(outputs, ids).value, Release(AnyComplex(outputs)), args, st);
  }

  lemma CoreThenLift(ctx: Context, ids: map<string, nat>, signature: FnSignature, index: nat, f: CoreFn,
                     sem: seq<IValue> -> seq<IValue>, args: seq<IValue>, vs: seq<IValue>, world: World, st: State)
    requires HasHelpers(ctx) && |signature.outputTypes| <= 1
    requires HasCore(ctx, signature, index, f) && Implements(f, ctx, ids, signature, sem)
    requires ArgsConform(ctx, ids, signature.arguments, vs)
    requires EncodesArgs(Own(st.world, ctx.me), ids, signature.arguments, vs, st.stack)
    requires Grew(ctx.me, world, st.world, |signature.arguments|)
    requires ExportOutputs(signature.outputTypes, ids).Some?
    ensures var outputs := ExportOutputs(signature.outputTypes, ids).value + Release(AnyComplex(signature.outputTypes));
            Returns(ctx, ids, signature, f, vs, sem(vs), world, Run(ctx, [CallCore(index)] + outputs, args, st))
  {
    var outputs := ExportOutputs(signature.outputTypes, ids).value + Release(AnyComplex(signature.outputTypes));
    CallCoreRuns(ctx, ids, signature, index, f, sem, args, st.stack, vs, st.world);
    RunAppend(ctx, [CallCore(index)], outputs, args, st);
    var called := Run(ctx, [CallCore(index)], args, st);
    if called.Done? { AfterCore(ctx, ids, signature.outputTypes, args, called.st, sem(vs)); }
  }

  lemma ExportCodeShape(signature: FnSignature, index: nat, ids: map<string, nat>)
    requires ExportCode(signature, index, ids).Some?
    ensures ExportArgs(signature.arguments, 0, ids).Some? && ExportOutputs(signature.outputTypes, ids).Some?
    ensures ExportCode(signature, index, ids).value ==
            ExportArgs(signature.arguments, 0, ids).value +
            ([CallCore(index)] + (ExportOutputs(signature.outputTypes, ids).value + Release(AnyComplex(signature.outputTypes))))
  {
    hide ExportArgs, ExportOutputs, Release, AnyComplex;
  }

  /** The export adapter delivers its arguments, bytes in canonical form, to the core function and
      returns the core function's result, as interface values, before releasing the memory it lives in.
      If nothing stands in its way it finishes. */
  lemma ExportAdapterMeaning(ctx: Context, ids: map<string, nat>, signature: FnSignature, index: nat, f: CoreFn,
                             sem: seq<IValue> -> seq<IValue>, vs: seq<IValue>, world: World)
    requires HasHelpers(ctx) && Fresh(ctx.alloc) && |signature.outputTypes| <= 1
    requires HasCore(ctx, signature, index, f) && Implements(f, ctx, ids, signature, sem)
    requires ArgsConform(ctx, ids, signature.arguments, vs)
    requires ExportCode(signature, index, ids).Some?
    ensures var ws := CanonicalArgs(ctx, ids, signature.arguments, vs);
            var o := Run(ctx, ExportCode(signature, index, ids).value, vs, State([], world));
            && Returns(ctx, ids, signature, f, ws, sem(ws), world, o)
            && (Unhindered(ctx, ids, signature, f, ws, world) ==> o.Done?)
  {
    assert |vs| == |signature.arguments|;
    hide Run, Step, HasHelpers, Fresh, HasCore, Implements, EncodesArgs, ArgsConform, CanonicalArgs, ExportCode, ExportArgs,
         ExportOutputs, Release, AnyComplex, Refused, Grew, Unhindered, Own;
    ExportCodeShape(signature, index, ids);
    var args := ExportArgs(signature.arguments, 0, ids).value;
    var outputs := ExportOutputs(signature.outputTypes, ids).value + Release(AnyComplex(signature.outputTypes));
    var ws := CanonicalArgs(ctx, ids, signature.arguments, vs);
    assert vs[0..|vs|] == vs;
    ExportArgsLower(ctx, ids, signature.arguments, 0, vs, vs, [], world);
    var lowered := Run(ctx, args, vs, State([], world));
    RunAppend(ctx, args, [CallCore(index)] + outputs, vs, State([], world));
    if lowered.Done? {
      assert lowered.st.stack[0..] == lowered.st.stack;
      CoreThenLift(ctx, ids, signature, index, f, sem, vs, ws, world, lowered.st);
    }
    var o := Run(ctx, ExportCode(signature, index, ids).value, vs, State([], world));
    if Unhindered(ctx, ids, signature, f, ws, world) { UnhinderedReturns(ctx, ids, signature, f, ws, sem(ws), world, o); }
  }
}
