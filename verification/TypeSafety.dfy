/**
 Verified MIR keeps representations: every local always holds a word of its declared
 representation, heap shape included, as long as the runtime's guards guard and the
 front end's unchecked narrowings meet the shapes it promised.
 */
module TypeSafety {
  import opened Wrappers
  import opened Mir
  import opened Verify
  import opened Semantics

  ghost predicate WellTyped(reprs: seq<Repr>, locals: Locals) {
    |locals| == |reprs| && forall l :: 0 <= l < |reprs| ==> HasRepr(locals[l], reprs[l])
  }

  ghost predicate ArgsTyped(params: seq<Repr>, args: seq<Word>) {
    |args| == |params| && forall i :: 0 <= i < |args| ==> HasRepr(args[i], params[i])
  }

  /** The runtime's shape guards let only words of their shape through. */
  ghost predicate Guards<W(!new)>(rt: Runtime<W>) {
    forall shape: HeapShape, v: Value, w: W ::
      HasDynCheck(shape) && rt.checkShape(shape, v, w).Done? ==> HasShape(rt.checkShape(shape, v, w).value, shape)
  }

  /** An unchecked bridge from the tagged baseline to a typed heap slot: the bits move, nothing looks. */
  predicate Narrows(inst: Inst) {
    inst.Coerce? && !inst.checked && ClassifyCoercion(inst.from, inst.to) == Some(TaggedToHeap)
  }

  function WatchNarrowings(): Watch {
    (_, inst) => Narrows(inst)
  }

  /** Every narrowing is watched, whatever else is. */
  ghost predicate CatchesNarrowings(m: Watch) {
    forall id, inst :: Narrows(inst) ==> m(id, inst)
  }

  /** A yielded word belongs in the destination, unless a narrowing put it there. */
  ghost predicate ResultTyped<W>(f: Function, inst: Inst, d: Deed<W>) {
    d.effect.Yields? && d.to.Some? ==>
      d.to.value < |f.locals| &&
      (HasRepr(d.effect.word, f.locals[d.to.value]) || (Narrows(inst) && f.locals[d.to.value] == inst.to))
  }

  lemma ConstTyped(c: Const, r: Repr)
    requires ConstFitsRepr(c, r)
    ensures HasRepr(ConstWord(c, r), r)
  {
  }

  /** A checked coercion is a guard: whatever passes it has the target's representation. */
  lemma CheckedTyped<W(!new)>(rt: Runtime<W>, from: Repr, to: Repr, v: Value, w: W)
    requires Guards(rt) && IsLegalCheckedCoercion(from, to)
    ensures var e := CheckedCoerce(rt, to, v, w); !e.Traps? && (e.Yields? ==> HasRepr(e.word, to))
  {
  }

  /** Containers of one family are physically alike, so re-typing one moves nothing and breaks nothing. */
  lemma FamilyKeepsShape(w: Word, a: HeapShape, b: HeapShape)
    requires SameContainerFamily(a, b) && HasShape(w, a)
    ensures HasShape(w, b)
  {
  }

  /** Every bridge but a narrowing yields a word of the target's representation. */
  lemma UncheckedTyped<W>(rt: Runtime<W>, from: Repr, to: Repr, a: Word, w: W)
    requires ClassifyCoercion(from, to).Some? && HasRepr(a, from)
    ensures var e := UncheckedCoerce(rt, from, to, a, w);
      e.Yields? && e.world == w && (ClassifyCoercion(from, to) == Some(TaggedToHeap) || HasRepr(e.word, to))
  {
    if from.Heap? && to.Heap? && from != to {
      FamilyKeepsShape(a, from.shape, to.shape);
    }
  }

  lemma RawIntTyped<W>(rt: Runtime<W>, op: BinaryOp, a: I64, b: I64, w: W)
    ensures var e := RawIntBin(rt, op, a, b, w); e.Yields? ==> e.word.RawI64?
  {
  }

  lemma ConstResultTyped<W(!new)>(rt: Runtime<W>, f: Function, p: seq<Function>, inst: Inst, w: W)
    requires inst.Const? && VerifyInst(f, p, inst)
    ensures forall locals :: ResultTyped(f, inst, Compute(rt, f.locals, inst, locals, w))
  {
    hide ConstWord, HasRepr;
    ConstTyped(inst.val, f.locals[inst.dst]);
  }

  lemma CoerceTyped<W(!new)>(rt: Runtime<W>, f: Function, p: seq<Function>, inst: Inst, locals: Locals, w: W)
    requires Guards(rt) && inst.Coerce? && VerifyInst(f, p, inst) && WellTyped(f.locals, locals)
    ensures ResultTyped(f, inst, Compute(rt, f.locals, inst, locals, w))
  {
    hide CheckedCoerce, UncheckedCoerce, IsLegalCheckedCoercion, ClassifyCoercion, HasShape, Guards;
    if inst.checked {
      CheckedTyped(rt, inst.from, inst.to, ValueAt(rt.junk, locals, inst.src), w);
    } else {
      UncheckedTyped(rt, inst.from, inst.to, Read(locals, inst.src), w);
    }
  }

  lemma BinOpTyped<W(!new)>(rt: Runtime<W>, f: Function, p: seq<Function>, inst: Inst, locals: Locals, w: W)
    requires inst.BinOp? && VerifyInst(f, p, inst)
    ensures ResultTyped(f, inst, Compute(rt, f.locals, inst, locals, w))
  {
    hide RawIntBin, TaggedBin, HasShape, IntAt, FloatAt, ValueAt;
    if f.locals[inst.l] == Raw(I64) {
      RawIntTyped(rt, inst.op, IntAt(rt.junk, locals, inst.l), IntAt(rt.junk, locals, inst.r), w);
    }
  }

  /** Of the rest, the runtime's types and the verifier's result rules say the same. */
  lemma OtherTyped<W(!new)>(rt: Runtime<W>, f: Function, p: seq<Function>, inst: Inst, locals: Locals, w: W)
    requires VerifyInst(f, p, inst) && !inst.Call? && !inst.Const? && !inst.Coerce? && !inst.BinOp?
    ensures ResultTyped(f, inst, Compute(rt, f.locals, inst, locals, w))
  {
    hide TaggedCmp, TaggedTruthy, HasShape, ValueAt, ValuesAt, FloatAt, IntAt, BitAt, Carried, Printed;
  }

  /** Each instruction but a narrowing writes a word of its destination's representation. */
  lemma ComputeTyped<W(!new)>(rt: Runtime<W>, f: Function, p: seq<Function>, inst: Inst, locals: Locals, w: W)
    requires Guards(rt) && VerifyInst(f, p, inst) && WellTyped(f.locals, locals) && !inst.Call?
    ensures ResultTyped(f, inst, Compute(rt, f.locals, inst, locals, w))
  {
    hide VerifyInst, WellTyped, ResultTyped, Guards;
    match inst
    case Const(_, _) => ConstResultTyped(rt, f, p, inst, w);
    case Coerce(_, _, _, _, _) => CoerceTyped(rt, f, p, inst, locals, w);
    case BinOp(_, _, _, _) => BinOpTyped(rt, f, p, inst, locals, w);
    case _ => OtherTyped(rt, f, p, inst, locals, w);
  }

  lemma WriteTyped(reprs: seq<Repr>, locals: Locals, o: Option<LocalId>, v: Word)
    requires WellTyped(reprs, locals)
    requires o.Some? ==> o.value < |reprs| && HasRepr(v, reprs[o.value])
    ensures WellTyped(reprs, Write(locals, o, v))
  {
  }

  /** A watched narrowing stops rather than put another shape into its destination. */
  lemma SettleTyped<W>(f: Function, inst: Inst, locals: Locals, watched: bool, d: Deed<W>)
    requires WellTyped(f.locals, locals) && ResultTyped(f, inst, d) && (Narrows(inst) ==> watched)
    ensures FlowTyped(f.locals, Settle(watched, f.locals, inst, locals, d))
  {
    hide HasRepr;
    if d.effect.Yields? && !(watched && BreaksPromise(inst, f.locals, d.effect)) {
      WriteTyped(f.locals, locals, d.to, d.effect.word);
    }
  }

  ghost predicate FlowTyped<W>(reprs: seq<Repr>, flow: Flow<W>) {
    !flow.Stops? ==> WellTyped(reprs, flow.locals)
  }

  lemma CallArgsTyped(f: Function, p: seq<Function>, inst: Inst, locals: Locals)
    requires inst.Call? && VerifyInst(f, p, inst) && WellTyped(f.locals, locals)
    ensures inst.func < |p| && ArgsTyped(p[inst.func].params, ReadAll(locals, inst.args))
  {
  }

  lemma InstKeepsTypes<W(!new)>(rt: Runtime<W>, m: Watch, p: Program, fuel: nat, id: FuncId, f: Function, inst: Inst,
        locals: Locals, w: W)
    requires Guards(rt) && CatchesNarrowings(m) && VerifiedProgram(p) && VerifyInst(f, p, inst)
    requires WellTyped(f.locals, locals)
    ensures FlowTyped(f.locals, EvalInst(rt, m, p, fuel, id, f.locals, inst, locals, w))
    decreases fuel, 2, 0
  {
    hide Compute, HasRepr;
    if inst.Call? {
      CallArgsTyped(f, p, inst, locals);
      FuncReturnsTyped(rt, m, p, fuel, inst.func, ReadAll(locals, inst.args), w);
      var r := EvalFunc(rt, m, p, fuel, inst.func, ReadAll(locals, inst.args), w);
      if r.Returned? {
        WriteTyped(f.locals, locals, inst.ret, r.value);
      }
    } else {
      ComputeTyped(rt, f, p, inst, locals, w);
      SettleTyped(f, inst, locals, m(id, inst), Compute(rt, f.locals, inst, locals, w));
    }
  }

  /** Every prefix of a verified block keeps every local's representation, also when it raises midway. */
  lemma InstsKeepTypes<W(!new)>(rt: Runtime<W>, m: Watch, p: Program, fuel: nat, id: FuncId, f: Function,
        insts: seq<Inst>, locals: Locals, w: W)
    requires Guards(rt) && CatchesNarrowings(m) && VerifiedProgram(p) && WellTyped(f.locals, locals)
    requires forall i :: 0 <= i < |insts| ==> VerifyInst(f, p, insts[i])
    ensures FlowTyped(f.locals, EvalInsts(rt, m, p, fuel, id, f.locals, insts, locals, w))
    decreases fuel, 2, |insts|
  {
    hide VerifyInst, EvalInst, HasRepr;
    if insts == [] {
    } else {
      InstKeepsTypes(rt, m, p, fuel, id, f, insts[0], locals, w);
      var step := EvalInst(rt, m, p, fuel, id, f.locals, insts[0], locals, w);
      if step.Falls? {
        InstsKeepTypes(rt, m, p, fuel, id, f, insts[1..], step.locals, step.world);
      }
    }
  }

  ghost predicate ExitTyped<W>(f: Function, e: Exit<W>) {
    match e
    case Goes(_, locals, _) => WellTyped(f.locals, locals)
    case Ends(Returned(v, _)) => HasRepr(v, f.ret)
    case _ => true
  }

  lemma LeaveTyped<W(!new)>(rt: Runtime<W>, f: Function, blk: Block, flow: Flow<W>)
    requires VerifyTerm(f, blk.term) && FlowTyped(f.locals, flow)
    requires flow.Stops? ==> !flow.why.Returned?
    ensures ExitTyped(f, LeaveBlock(rt, blk, f.ret, flow))
  {
  }

  lemma {:induction false} StopsIsNoReturn<W(!new)>(rt: Runtime<W>, m: Watch, p: Program, fuel: nat, id: FuncId,
        reprs: seq<Repr>, insts: seq<Inst>, locals: Locals, w: W)
    ensures var flow := EvalInsts(rt, m, p, fuel, id, reprs, insts, locals, w); flow.Stops? ==> !flow.why.Returned?
    decreases |insts|
  {
    hide Compute, EvalFunc;
    if insts == [] {
    } else {
      var step := EvalInst(rt, m, p, fuel, id, reprs, insts[0], locals, w);
      if step.Falls? {
        StopsIsNoReturn(rt, m, p, fuel, id, reprs, insts[1..], step.locals, step.world);
      }
    }
  }

  lemma BlockReturnsTyped<W(!new)>(rt: Runtime<W>, m: Watch, p: Program, fuel: nat, id: FuncId, b: BlockId,
        locals: Locals, w: W)
    requires Guards(rt) && CatchesNarrowings(m) && VerifiedProgram(p) && id < |p| && WellTyped(p[id].locals, locals)
    ensures var r := EvalBlock(rt, m, p, fuel, id, b, locals, w); r.Returned? ==> HasRepr(r.value, p[id].ret)
    decreases fuel, 0, 0
  {
    hide EvalInsts, LeaveBlock, HasRepr, VerifyInst;
    if fuel > 0 && b < |p[id].blocks| {
      var f := p[id];
      assert Verified(f, p) && VerifyBlock(f, p, b);
      InstsKeepTypes(rt, m, p, fuel - 1, id, f, f.blocks[b].insts, locals, w);
      StopsIsNoReturn(rt, m, p, fuel - 1, id, f.locals, f.blocks[b].insts, locals, w);
      var flow := EvalInsts(rt, m, p, fuel - 1, id, f.locals, f.blocks[b].insts, locals, w);
      LeaveTyped(rt, f, f.blocks[b], flow);
      var e := LeaveBlock(rt, f.blocks[b], f.ret, flow);
      if e.Goes? {
        BlockReturnsTyped(rt, m, p, fuel - 1, id, e.block, e.locals, e.world);
      }
    }
  }

  /** A verified function called with words of its parameter representations returns one of its result's. */
  lemma FuncReturnsTyped<W(!new)>(rt: Runtime<W>, m: Watch, p: Program, fuel: nat, id: FuncId, args: seq<Word>, w: W)
    requires Guards(rt) && CatchesNarrowings(m) && VerifiedProgram(p) && id < |p| && ArgsTyped(p[id].params, args)
    ensures var r := EvalFunc(rt, m, p, fuel, id, args, w); r.Returned? ==> HasRepr(r.value, p[id].ret)
    decreases fuel, 1, 0
  {
    assert Verified(p[id], p);
    assert WellTyped(p[id].locals, EntryLocals(p[id], args));
    BlockReturnsTyped(rt, m, p, fuel, id, p[id].entry, EntryLocals(p[id], args), w);
  }

  /**
   The machine itself: on every run whose narrowings all meet the shapes they were promised, a verified function on
   arguments of its parameter representations returns a word of its return representation.
   */
  lemma {:induction false} MachineReturnsTyped<W(!new)>(rt: Runtime<W>, p: Program, fuel: nat, id: FuncId,
        args: seq<Word>, w: W)
    requires Guards(rt) && VerifiedProgram(p) && id < |p| && ArgsTyped(p[id].params, args)
    requires EvalFunc(rt, WatchNarrowings(), p, fuel, id, args, w) != BrokenPromise
    ensures var r := EvalFunc(rt, Unwatched(), p, fuel, id, args, w); r.Returned? ==> HasRepr(r.value, p[id].ret)
  {
    hide EvalFunc, HasRepr, Guards;
    WatchedFunc(rt, WatchNarrowings(), p, fuel, id, args, w);
    FuncReturnsTyped(rt, WatchNarrowings(), p, fuel, id, args, w);
  }

  // ---- what the watch is for ----

  /** Returns its tagged argument as a string, unchecked. */
  function BlindCast(): Function {
    Function([Tagged], Heap(Str), [Tagged, Heap(Str)],
             [Block([Inst.Coerce(1, 0, Tagged, Heap(Str), false)], Return(Some(1)), None)], 0)
  }

  lemma BlindCastIsVerified()
    ensures VerifiedProgram([BlindCast()])
  {
    assert VerifyBlock(BlindCast(), [BlindCast()], 0);
  }

  /** Nothing in the verifier stops a broken narrowing: this verified function hands an integer out as a string. */
  lemma BlindCastMistypes<W(!new)>(rt: Runtime<W>, w: W)
    ensures VerifiedProgram([BlindCast()]) && ArgsTyped(BlindCast().params, [Fix(1)])
    ensures EvalFunc(rt, Unwatched(), [BlindCast()], 1, 0, [Fix(1)], w) == Returned(Fix(1), w)
    ensures !HasRepr(Fix(1), BlindCast().ret)
  {
    BlindCastIsVerified();
    hide VerifiedProgram;
    var f := BlindCast();
    var insts := f.blocks[0].insts;
    var locals := EntryLocals(f, [Fix(1)]);
    assert locals == [Fix(1), NullW];
    assert EvalInst(rt, Unwatched(), [f], 0, 0, f.locals, insts[0], locals, w) == Falls([Fix(1), Fix(1)], w);
    assert insts[1..] == [];
    assert EvalInsts(rt, Unwatched(), [f], 0, 0, f.locals, insts, locals, w) == Falls([Fix(1), Fix(1)], w);
  }
}
