/** Calls across a link: the import adapter of the caller composed with the export adapter of the
    callee. */
module LinkMeaning {
  import opened Wrappers
  import opened RustInts
  import opened ITypes
  import opened SdkAst
  import opened ItAst
  import opened ExportApi
  import opened RecordTable
  import opened Adapters
  import opened Loader
  import opened Machine
  import opened Encoding
  import opened ImportMeaning
  import opened Lowering
  import opened ExportMeaning

  // ----- Lowering the result into the caller -----

  /** What lowering a result in `world` comes to: the caller's side of the result, or a trap because the
      caller's allocator refused the one request there is. */
  ghost predicate LowersResult(ctx: Context, ids: map<string, nat>, outputs: seq<ParsedType>, rs: seq<IValue>, world: World,
                               outcome: Outcome) {
    && !outcome.Stuck?
    && (outcome.Trap? ==> Refused(ctx, world, 1, outcome.cause))
    && (outcome.Done? ==> EncodesResult(Own(outcome.st.world, ctx.me), ids, outputs, rs, outcome.st.stack))
  }

  const SET_PAIR: seq<Instruction> := [CallCore(SET_RESULT_SIZE_FUNC), CallCore(SET_RESULT_PTR_FUNC)]

  lemma SetPairRuns(ctx: Context, ids: map<string, nat>, pty: ParsedType, r: IValue, args: seq<IValue>, world: World, st: State)
    requires HasHelpers(ctx) && pty.IsComplexType() && Width(pty) == 2
    requires EncodesArg(Own(st.world, ctx.me), ids, pty, r, st.stack)
    ensures LowersResult(ctx, ids, [pty], [r], world, Run(ctx, SET_PAIR, args, st))
  {
    var p, n := st.stack[0].i32, st.stack[1].i32;
    assert st.stack == [IValue.I32(p), IValue.I32(n)];
    assert [IValue.I32(p), IValue.I32(n)][..1] == [IValue.I32(p)] && [IValue.I32(p)][..0] == [];
    RunTwo(ctx, CallCore(SET_RESULT_SIZE_FUNC), CallCore(SET_RESULT_PTR_FUNC), args, st);
    var after := Run(ctx, SET_PAIR, args, st);
    assert after.Done? && after.st.stack == [];
    var own, own' := Own(st.world, ctx.me), Own(after.st.world, ctx.me);
    assert own'.cells == own.cells && own'.resultPtr == p && own'.resultSize == n;
    EncodesArgKept(own, own', ids, pty, r, st.stack);
  }

  lemma SetPointerRuns(ctx: Context, ids: map<string, nat>, name: string, r: IValue, args: seq<IValue>, world: World, st: State)
    requires HasHelpers(ctx) && EncodesArg(Own(st.world, ctx.me), ids, ParsedType.Record(name), r, st.stack)
    ensures LowersResult(ctx, ids, [ParsedType.Record(name)], [r], world, Run(ctx, [CallCore(SET_RESULT_PTR_FUNC)], args, st))
  {
  }

  lemma ImportTextLowers(ctx: Context, ids: map<string, nat>, pty: ParsedType, r: IValue, args: seq<IValue>, world: World)
    requires pty.Utf8Str? || pty.Utf8String?
    requires HasHelpers(ctx) && Fresh(ctx.alloc) && r.String?
    ensures ImportOutput(pty, ids).Some?
    ensures LowersResult(ctx, ids, [pty], [r], world, Run(ctx, ImportOutput(pty, ids).value, args, State([r], world)))
  {
    hide Run, Refused, Own, EncodesResult;
    var s := r.s;
    assert ImportOutput(pty, ids).value == [Dup] + (RESERVE + TEXT_TAIL);
    RunOne(ctx, Dup, args, State([r], world));
    RunAppend(ctx, [Dup], RESERVE + TEXT_TAIL, args, State([r], world));
    RunAppend(ctx, RESERVE, TEXT_TAIL, args, State([r] + [r], world));
    ReserveText(ctx, s, args, [r], world);
    FreshCell(ctx, world, AsI32(|s|), 1, Reserved(AsI32(|s|)));
    var stored := Store(ctx, world, AsI32(|s|), 1, Reserved(AsI32(|s|)));
    if stored.Some? {
      assert [r] + [IValue.I32(stored.value.0)] == [r, IValue.I32(stored.value.0)];
      ImportTextTail(ctx, ids, pty, s, args, world, stored.value.0, stored.value.1);
    }
  }

  const TEXT_TAIL: seq<Instruction> := [Swap2, StringLowerMemory] + SET_PAIR

  lemma ImportTextTail(ctx: Context, ids: map<string, nat>, pty: ParsedType, s: string, args: seq<IValue>,
                       world: World, p: i32, world1: World)
    requires pty.Utf8Str? || pty.Utf8String?
    requires HasHelpers(ctx) && Fresh(ctx.alloc)
    requires Store(ctx, world, AsI32(|s|), 1, Reserved(AsI32(|s|))) == Some((p, world1))
    ensures LowersResult(ctx, ids, [pty], [IValue.String(s)], world,
                         Run(ctx, TEXT_TAIL, args, State([IValue.String(s), IValue.I32(p)], world1)))
  {
    var st := State([IValue.String(s), IValue.I32(p)], world1);
    ReserveThenWrite(ctx, ids, pty, s, [], world, p, world1);
    SwapThenWrite(ctx, p, s, args, world1);
    RunAppend(ctx, [Swap2, StringLowerMemory], SET_PAIR, args, st);
    var lowered := Run(ctx, [Swap2, StringLowerMemory], args, st);
    assert lowered.st.stack[0..] == lowered.st.stack;
    SetPairRuns(ctx, ids, pty, IValue.String(s), args, world, lowered.st);
  }

  lemma SwapThenWrite(ctx: Context, p: i32, s: string, args: seq<IValue>, world: World)
    requires p in Own(world, ctx.me).cells && Own(world, ctx.me).cells[p] == Reserved(AsI32(|s|))
    ensures Run(ctx, [Swap2, StringLowerMemory], args, State([IValue.String(s), IValue.I32(p)], world)) ==
            Done(State([] + [IValue.I32(p), IValue.I32(AsI32(|s|))], WithCells(world, ctx.me, Own(world, ctx.me).cells[p := Text(s)])))
  {
    var st := State([IValue.String(s), IValue.I32(p)], world);
    RunTwo(ctx, Swap2, StringLowerMemory, args, st);
    assert st.stack[..0] + [IValue.I32(p), IValue.String(s)] == [] + [IValue.I32(p), IValue.String(s)];
    WriteText(ctx, p, s, args, [], world);
  }

  lemma ImportPrimitiveLowers(ctx: Context, ids: map<string, nat>, pty: ParsedType, r: IValue, args: seq<IValue>, world: World)
    requires !pty.IsComplexType() && Convert(pty, ids).Some? && Conforms(r, Convert(pty, ids).value, ctx.types)
    ensures ImportOutput(pty, ids).Some?
    ensures Run(ctx, ImportOutput(pty, ids).value, args, State([r], world)) == Done(State([RawOf(r)], world))
  {
    assert ImportOutput(pty, ids) == Some(LowerConversion(pty)) by { ImportPrimitiveOutputCode(pty, ids); }
    ConformsScalar(pty, ids, r, ctx.types);
    LowerConversionLowers(pty, r);
    MaybeConvertOnly(ctx, LowerConversion(pty), args, r, world, RawOf(r));
  }

  lemma ImportPrimitiveOutputCode(pty: ParsedType, ids: map<string, nat>)
    requires !pty.IsComplexType()
    ensures ImportOutput(pty, ids) == Some(LowerConversion(pty))
  {
  }

  lemma ImportVectorLowers(ctx: Context, ids: map<string, nat>, elem: ParsedType, r: IValue, args: seq<IValue>, world: World)
    requires HasHelpers(ctx) && Fresh(ctx.alloc)
    requires Convert(elem, ids).Some? && Conforms(r, VectorOf(Convert(elem, ids).value), ctx.types)
    ensures LowersResult(ctx, ids, [Vector(elem)], [Canonical(r, VectorOf(Convert(elem, ids).value), ctx.types)], world,
                         Run(ctx, [ArrayLowerMemory(Convert(elem, ids).value)] + SET_PAIR, args, State([r], world)))
  {
    var lower := ArrayLowerMemory(Convert(elem, ids).value);
    assert [] + [r] == [r];
    LowerArray(ctx, ids, elem, r, args, [], world);
    LowerThen(ctx, lower, SET_PAIR, args, State([r], world));
    var lowered := Step(ctx, lower, args, State([r], world));
    if lowered.Done? {
      assert lowered.st.stack[0..] == lowered.st.stack;
      SetPairRuns(ctx, ids, Vector(elem), Canonical(r, VectorOf(Convert(elem, ids).value), ctx.types), args, world, lowered.st);
    }
  }

  lemma ImportRecordLowers(ctx: Context, ids: map<string, nat>, name: string, r: IValue, args: seq<IValue>, world: World)
    requires HasHelpers(ctx) && Fresh(ctx.alloc)
    requires name in ids && Conforms(r, IType.Record(ids[name]), ctx.types)
    ensures LowersResult(ctx, ids, [ParsedType.Record(name)], [Canonical(r, IType.Record(ids[name]), ctx.types)], world,
                         Run(ctx, [RecordLowerMemory(ids[name])] + [CallCore(SET_RESULT_PTR_FUNC)], args, State([r], world)))
  {
    var lower := RecordLowerMemory(ids[name]);
    assert [] + [r] == [r];
    LowerRecord(ctx, ids, name, r, args, [], world);
    LowerThen(ctx, lower, [CallCore(SET_RESULT_PTR_FUNC)], args, State([r], world));
    var lowered := Step(ctx, lower, args, State([r], world));
    if lowered.Done? {
      assert lowered.st.stack[0..] == lowered.st.stack;
      SetPointerRuns(ctx, ids, name, Canonical(r, IType.Record(ids[name]), ctx.types), args, world, lowered.st);
    }
  }

  lemma ImportOutputLowers(ctx: Context, ids: map<string, nat>, pty: ParsedType, r: IValue, args: seq<IValue>, world: World)
    requires HasHelpers(ctx) && Fresh(ctx.alloc)
    requires Convert(pty, ids).Some? && Conforms(r, Convert(pty, ids).value, ctx.types)
    ensures ImportOutput(pty, ids).Some?
    ensures LowersResult(ctx, ids, [pty], [Canonical(r, Convert(pty, ids).value, ctx.types)], world,
                         Run(ctx, ImportOutput(pty, ids).value, args, State([r], world)))
  {
    hide Run, Step, HasHelpers, Fresh, Own;
    if !pty.IsComplexType() {
      ImportPrimitiveLowers(ctx, ids, pty, r, args, world);
      RawOfEncodes(Own(world, ctx.me), ids, pty, r, ctx.types);
      SimpleIsCanonical(r, Convert(pty, ids).value, ctx.types);
    } else {
      match pty
      case Utf8Str => ImportTextLowers(ctx, ids, pty, r, args, world);
      case Utf8String => ImportTextLowers(ctx, ids, pty, r, args, world);
      case Vector(elem) =>
        assert ImportOutput(pty, ids).value == [ArrayLowerMemory(Convert(elem, ids).value)] + SET_PAIR;
        ImportVectorLowers(ctx, ids, elem, r, args, world);
      case Record(name) =>
        assert ImportOutput(pty, ids).value == [RecordLowerMemory(ids[name])] + [CallCore(SET_RESULT_PTR_FUNC)];
        ImportRecordLowers(ctx, ids, name, r, args, world);
    }
  }

  lemma LowerThen(ctx: Context, lower: Instruction, code: seq<Instruction>, args: seq<IValue>, st: State)
    ensures Run(ctx, [lower] + code, args, st) == Then(ctx, Step(ctx, lower, args, st), code, args)
  {
  }

  lemma ImportOutputsLower(ctx: Context, ids: map<string, nat>, outputs: seq<ParsedType>, rs: seq<IValue>,
                           args: seq<IValue>, world: World)
    requires HasHelpers(ctx) && Fresh(ctx.alloc) && |outputs| <= 1 && |rs| == |outputs|
    requires forall i :: 0 <= i < |rs| ==>
               && Convert(outputs[i], ids).Some? && Conforms(rs[i], Convert(outputs[i], ids).value, ctx.types)
               && Canonical(rs[i], Convert(outputs[i], ids).value, ctx.types) == rs[i]
    ensures ImportOutputs(outputs, ids).Some?
    ensures LowersResult(ctx, ids, outputs, rs, world, Run(ctx, ImportOutputs(outputs, ids).value, args, State(rs, world)))
  {
    if outputs != [] {
      assert outputs == [outputs[0]] && rs == [rs[0]] && outputs[1..] == [];
      ImportOutputLowers(ctx, ids, outputs[0], rs[0], args, world);
      var code := ImportOutput(outputs[0], ids).value;
      assert code + [] == code;
    }
  }

  // ----- The two sides agree on types -----

  lemma {:induction false} ItArgTypes(args: seq<FnArgument>, ids: map<string, nat>)
    requires ItArgs(args, ids).Some?
    ensures |ItArgs(args, ids).value| == |args|
    ensures forall i :: 0 <= i < |args| ==> Convert(args[i].ty, ids) == Some(ItArgs(args, ids).value[i].ty)
  {
    if args != [] { ItArgTypes(args[1..], ids); }
  }

  lemma {:induction false} ItOutputTypes(outputs: seq<ParsedType>, ids: map<string, nat>)
    requires ItOutputs(outputs, ids).Some?
    ensures |ItOutputs(outputs, ids).value| == |outputs|
    ensures forall i :: 0 <= i < |outputs| ==> Convert(outputs[i], ids) == Some(ItOutputs(outputs, ids).value[i])
  {
    if outputs != [] { ItOutputTypes(outputs[1..], ids); }
  }

  lemma RustArgsConform(ctx: Context, ids: map<string, nat>, args: seq<FnArgument>, vs: seq<IValue>,
                        defs: map<string, seq<RecordField>>)
    requires ItArgs(args, ids).Some? && Defines(ctx.types, ids, defs) && AllRustConform(vs, ArgTypes(args), defs)
    ensures ArgsConform(ctx, ids, args, vs) && CanonicalArgs(ctx, ids, args, vs) == vs
    ensures AllConform(vs, TypesOf(ItArgs(args, ids).value), ctx.types)
  {
    ItArgTypes(args, ids);
    forall i | 0 <= i < |args|
      ensures Convert(args[i].ty, ids).Some? && Conforms(vs[i], Convert(args[i].ty, ids).value, ctx.types)
      ensures Canonical(vs[i], Convert(args[i].ty, ids).value, ctx.types) == vs[i]
    {
      assert RustConforms(vs[i], ArgTypes(args)[i], defs);
      RustConformsEverywhere(vs[i], args[i].ty, defs, ctx.types, ids);
    }
    assert CanonicalArgs(ctx, ids, args, vs) == vs;
  }

  lemma RustOutputsConform(ctx: Context, ids: map<string, nat>, outputs: seq<ParsedType>, rs: seq<IValue>,
                           defs: map<string, seq<RecordField>>)
    requires ItOutputs(outputs, ids).Some? && Defines(ctx.types, ids, defs) && AllRustConform(rs, outputs, defs)
    ensures forall i :: 0 <= i < |rs| ==>
              && Convert(outputs[i], ids).Some? && Conforms(rs[i], Convert(outputs[i], ids).value, ctx.types)
              && Canonical(rs[i], Convert(outputs[i], ids).value, ctx.types) == rs[i]
    ensures AllConform(rs, ItOutputs(outputs, ids).value, ctx.types)
  {
    ItOutputTypes(outputs, ids);
    forall i | 0 <= i < |rs|
      ensures Convert(outputs[i], ids).Some? && Conforms(rs[i], Convert(outputs[i], ids).value, ctx.types)
      ensures Canonical(rs[i], Convert(outputs[i], ids).value, ctx.types) == rs[i]
    {
      RustConformsEverywhere(rs[i], outputs[i], defs, ctx.types, ids);
    }
  }

  // ----- The link -----

  /** One side of a link: an instance, its record ids, and a signature its tables can express. */
  datatype Side = Side(ctx: Context, ids: map<string, nat>, signature: FnSignature)

  ghost predicate GoodSide(side: Side, defs: map<string, seq<RecordField>>) {
    && HasHelpers(side.ctx) && Fresh(side.ctx.alloc)
    && |side.signature.outputTypes| <= 1
    && ItArgs(side.signature.arguments, side.ids).Some?
    && ItOutputs(side.signature.outputTypes, side.ids).Some?
    && Defines(side.ctx.types, side.ids, defs)
  }

  /** Both sides were compiled from the same Rust types, whatever their argument names and record ids. */
  ghost predicate SameRustSignature(a: FnSignature, b: FnSignature) {
    ArgTypes(a.arguments) == ArgTypes(b.arguments) && a.outputTypes == b.outputTypes
  }

  /** Function `importIndex` of the caller is the callee's export adapter for function `exportIndex`. */
  ghost predicate Linked(caller: Side, importIndex: nat, callee: Side, exportIndex: nat)
    requires ItArgs(caller.signature.arguments, caller.ids).Some? && ItOutputs(caller.signature.outputTypes, caller.ids).Some?
  {
    && importIndex < |caller.ctx.funcs|
    && ExportCode(callee.signature, exportIndex, callee.ids).Some?
    && caller.ctx.funcs[importIndex] ==
       Imported(TypesOf(ItArgs(caller.signature.arguments, caller.ids).value),
                ItOutputs(caller.signature.outputTypes, caller.ids).value,
                callee.ctx, ExportCode(callee.signature, exportIndex, callee.ids).value)
  }

  /** The world in which the import adapter calls: complex arguments are lifted out of the caller's
      memory, which is then released. */
  function AtCall(caller: Side, world: World): World {
    if AnyComplex(ArgTypes(caller.signature.arguments)) then WithCells(world, caller.ctx.me, map[]) else world
  }

  /** The callee's part of a call: its export adapter for function `exportIndex`, run on `vs`. */
  ghost function CalleeRun(callee: Side, exportIndex: nat, vs: seq<IValue>, world: World): Outcome
    requires ExportCode(callee.signature, exportIndex, callee.ids).Some?
  {
    Run(callee.ctx, ExportCode(callee.signature, exportIndex, callee.ids).value, vs, State([], world))
  }

  /** What a call across the link in `world` comes to, where the callee's part came to `inner`. It is
      never stuck. A trap is the callee's, or the caller's allocator refused the result in the memory the
      callee left. Otherwise the callee returned, and the stack holds the raw form of `rs`, with exactly
      the Wasm types the import's raw signature declares. */
  ghost predicate Delivers(caller: Side, callee: Side, f: CoreFn, vs: seq<IValue>, rs: seq<IValue>, world: World, inner: Outcome,
                           o: Outcome) {
    && Returns(callee.ctx, callee.ids, callee.signature, f, vs, rs, world, inner)
    && !o.Stuck?
    && (o.Trap? ==> o == inner || (inner.Done? && Refused(caller.ctx, inner.st.world, 1, o.cause)))
    && (o.Done? ==>
          && inner.Done?
          && EncodesResult(Own(o.st.world, caller.ctx.me), caller.ids, caller.signature.outputTypes, rs, o.st.stack)
          && WTypes(RawOutputs(caller.signature.outputTypes)).Some?
          && AllRaw(o.st.stack, WTypes(RawOutputs(caller.signature.outputTypes)).value))
  }

  /** Nothing stands in the way of a call across the link: not on the callee's side, and the caller's
      memory, when the callee returns, has room for the result. */
  ghost predicate UnhinderedLink(caller: Side, callee: Side, f: CoreFn, vs: seq<IValue>, world: World, inner: Outcome) {
    && Unhindered(callee.ctx, callee.ids, callee.signature, f, vs, world)
    && Roomy(caller.ctx.alloc)
    && (inner.Done? ==> |Own(inner.st.world, caller.ctx.me).cells| < ADDRESSES)
  }

  lemma UnhinderedDelivers(caller: Side, callee: Side, f: CoreFn, vs: seq<IValue>, rs: seq<IValue>, world: World, inner: Outcome,
                           o: Outcome)
    requires Delivers(caller, callee, f, vs, rs, world, inner, o) && UnhinderedLink(caller, callee, f, vs, world, inner)
    ensures o.Done?
  {
    UnhinderedReturns(callee.ctx, callee.ids, callee.signature, f, vs, rs, world, inner);
    if o.Trap? && o != inner { RoomyNeverRefuses(caller.ctx, inner.st.world, 1, o.cause); }
  }

  lemma CallLinked(caller: Side, importIndex: nat, callee: Side, exportIndex: nat, f: CoreFn,
                   sem: seq<IValue> -> seq<IValue>, defs: map<string, seq<RecordField>>,
                   args: seq<IValue>, vs: seq<IValue>, world: World)
    requires GoodSide(caller, defs) && GoodSide(callee, defs) && SameRustSignature(caller.signature, callee.signature)
    requires Linked(caller, importIndex, callee, exportIndex)
    requires HasCore(callee.ctx, callee.signature, exportIndex, f)
    requires Implements(f, callee.ctx, callee.ids, callee.signature, sem)
    requires AllRustConform(vs, ArgTypes(caller.signature.arguments), defs)
    requires AllRustConform(sem(vs), caller.signature.outputTypes, defs)
    ensures var inner := CalleeRun(callee, exportIndex, vs, world);
            && Returns(callee.ctx, callee.ids, callee.signature, f, vs, sem(vs), world, inner)
            && Run(caller.ctx, [CallCore(importIndex)], args, State(vs, world)) == inner
  {
    hide HasCore, Implements, RustConforms, Conforms, ExportCode, Refused, CoreFunctionFailed;
    RunOne(caller.ctx, CallCore(importIndex), args, State(vs, world));
    RustArgsConform(caller.ctx, caller.ids, caller.signature.arguments, vs, defs);
    RustArgsConform(callee.ctx, callee.ids, callee.signature.arguments, vs, defs);
    RustOutputsConform(caller.ctx, caller.ids, caller.signature.outputTypes, sem(vs), defs);
    ExportAdapterMeaning(callee.ctx, callee.ids, callee.signature, exportIndex, f, sem, vs, world);
    assert vs[0..] == vs && vs[..0] == [];
    assert [] + sem(vs) == sem(vs);
  }

  /** The import adapter composed with the export adapter computes the core function on the values
      the caller passed: its result reaches the caller in raw form. The code never gets stuck, also
      though the caller's memory is released before the call, and it finishes if nothing stands in
      its way. */
  lemma LinkPreservesMeaning(caller: Side, importIndex: nat, callee: Side, exportIndex: nat, f: CoreFn,
                             sem: seq<IValue> -> seq<IValue>, defs: map<string, seq<RecordField>>,
                             raws: seq<IValue>, vs: seq<IValue>, world: World)
    requires GoodSide(caller, defs) && GoodSide(callee, defs) && SameRustSignature(caller.signature, callee.signature)
    requires Linked(caller, importIndex, callee, exportIndex)
    requires HasCore(callee.ctx, callee.signature, exportIndex, f)
    requires Implements(f, callee.ctx, callee.ids, callee.signature, sem)
    requires EncodesArgs(Own(world, caller.ctx.me), caller.ids, caller.signature.arguments, vs, raws)
    requires AllRustConform(vs, ArgTypes(caller.signature.arguments), defs)
    requires AllRustConform(sem(vs), caller.signature.outputTypes, defs)
    ensures ImportCode(caller.signature, importIndex, caller.ids).Some?
    ensures var o := Run(caller.ctx, ImportCode(caller.signature, importIndex, caller.ids).value, raws, State([], world));
            var inner := CalleeRun(callee, exportIndex, vs, AtCall(caller, world));
            && Delivers(caller, callee, f, vs, sem(vs), AtCall(caller, world), inner, o)
            && (UnhinderedLink(caller, callee, f, vs, AtCall(caller, world), inner) ==> o.Done?)
  {
    var ctx, ids, args, outputs := caller.ctx, caller.ids, caller.signature.arguments, caller.signature.outputTypes;
    var needed := AnyComplex(ArgTypes(args));
    var call := [CallCore(importIndex)];
    assert raws[0..] == raws && [] + vs == vs;
    ImportArgsLift(ctx, ids, args, 0, raws, [], world, vs);
    var world1 := AtCall(caller, world);
    ReleaseRuns(ctx, needed, raws, vs, world);
    CallThenLower(caller, importIndex, callee, exportIndex, f, sem, defs, raws, vs, world1);
    ImportCodeShape(caller.signature, importIndex, ids);
    RunAfterTwo(ctx, ImportArgs(args, 0, ids).value, Release(needed), call + ImportOutputs(outputs, ids).value, raws,
                State([], world), State(vs, world), State(vs, world1));
    var o := Run(caller.ctx, ImportCode(caller.signature, importIndex, caller.ids).value, raws, State([], world));
    var inner := CalleeRun(callee, exportIndex, vs, world1);
    if UnhinderedLink(caller, callee, f, vs, world1, inner) {
      UnhinderedDelivers(caller, callee, f, vs, sem(vs), world1, inner, o);
    }
  }

  lemma ImportCodeShape(signature: FnSignature, index: nat, ids: map<string, nat>)
    requires ImportArgs(signature.arguments, 0, ids).Some? && ImportOutputs(signature.outputTypes, ids).Some?
    ensures ImportCode(signature, index, ids) ==
            Some(ImportArgs(signature.arguments, 0, ids).value +
                 (Release(AnyComplex(ArgTypes(signature.arguments))) +
                  ([CallCore(index)] + ImportOutputs(signature.outputTypes, ids).value)))
  {
    var a, r, o := ImportArgs(signature.arguments, 0, ids).value, Release(AnyComplex(ArgTypes(signature.arguments))),
                   ImportOutputs(signature.outputTypes, ids).value;
    assert a + r + [CallCore(index)] + o == a + (r + ([CallCore(index)] + o));
  }

  lemma CallThenLower(caller: Side, importIndex: nat, callee: Side, exportIndex: nat, f: CoreFn,
                      sem: seq<IValue> -> seq<IValue>, defs: map<string, seq<RecordField>>,
                      args: seq<IValue>, vs: seq<IValue>, world: World)
    requires GoodSide(caller, defs) && GoodSide(callee, defs) && SameRustSignature(caller.signature, callee.signature)
    requires Linked(caller, importIndex, callee, exportIndex)
    requires HasCore(callee.ctx, callee.signature, exportIndex, f)
    requires Implements(f, callee.ctx, callee.ids, callee.signature, sem)
    requires AllRustConform(vs, ArgTypes(caller.signature.arguments), defs)
    requires AllRustConform(sem(vs), caller.signature.outputTypes, defs)
    ensures ImportOutputs(caller.signature.outputTypes, caller.ids).Some?
    ensures var o := Run(caller.ctx, [CallCore(importIndex)] + ImportOutputs(caller.signature.outputTypes, caller.ids).value,
                         args, State(vs, world));
            Delivers(caller, callee, f, vs, sem(vs), world, CalleeRun(callee, exportIndex, vs, world), o)
  {
    var ctx, outputs := caller.ctx, caller.signature.outputTypes;
    RustOutputsConform(ctx, caller.ids, outputs, sem(vs), defs);
    CallLinked(caller, importIndex, callee, exportIndex, f, sem, defs, args, vs, world);
    var called := Run(ctx, [CallCore(importIndex)], args, State(vs, world));
    var after := if called.Done? then called.st.world else world;
    ImportOutputsLower(ctx, caller.ids, outputs, sem(vs), args, after);
    RunAppend(ctx, [CallCore(importIndex)], ImportOutputs(outputs, caller.ids).value, args, State(vs, world));
    var o := Run(ctx, [CallCore(importIndex)] + ImportOutputs(outputs, caller.ids).value, args, State(vs, world));
    if o.Done? { EncodedResultFitsSignature(Own(o.st.world, ctx.me), caller.ids, outputs, sem(vs), o.st.stack); }
  }
}
