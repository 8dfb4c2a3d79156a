/**
 Verified code never takes a register for something it does not hold. What a register of the wrong class reads as is a
 free parameter of the machine, and no verified run depends on it: every word stored, tested, or handed to the runtime
 is already of the class its receiver expects.
 */
module Strictness {
  import opened Wrappers
  import opened Mir
  import opened BitOps
  import opened Verify
  import opened Semantics
  import opened TypeSafety
  import ReadTable

  function WithJunk<W>(rt: Runtime<W>, j: Junk): Runtime<W> {
    rt.(junk := j)
  }

  // ---- one instruction ----

  lemma CoerceIsStrict<W(!new)>(rt: Runtime<W>, j: Junk, f: Function, p: seq<Function>, inst: Inst, locals: Locals,
        w: W)
    requires inst.Coerce? && VerifyInst(f, p, inst) && WellTyped(f.locals, locals)
    ensures Compute(WithJunk(rt, j), f.locals, inst, locals, w) == Compute(rt, f.locals, inst, locals, w)
  {
    hide HasShape, CheckedCoerce;
    assert HasRepr(Read(locals, inst.src), inst.from);
    if inst.checked {
      assert ValueAt(j, locals, inst.src) == ValueAt(rt.junk, locals, inst.src);
      CheckedIsStrict(rt, j, inst.to, ValueAt(j, locals, inst.src), w);
    }
  }

  lemma CheckedIsStrict<W(!new)>(rt: Runtime<W>, j: Junk, to: Repr, v: Value, w: W)
    ensures CheckedCoerce(WithJunk(rt, j), to, v, w) == CheckedCoerce(rt, to, v, w)
  {
  }

  /** Operators take both operands in the class of the first. */
  lemma OperatorIsStrict<W(!new)>(rt: Runtime<W>, j: Junk, f: Function, p: seq<Function>, inst: Inst, locals: Locals,
        w: W)
    requires (inst.BinOp? || inst.Compare?) && VerifyInst(f, p, inst) && WellTyped(f.locals, locals)
    ensures Compute(WithJunk(rt, j), f.locals, inst, locals, w) == Compute(rt, f.locals, inst, locals, w)
  {
    hide HasShape, IntOp;
    assert HasRepr(Read(locals, inst.l), f.locals[inst.l]);
    assert HasRepr(Read(locals, inst.r), f.locals[inst.l]);
  }

  lemma HandsOverStrictly<W(!new)>(rt: Runtime<W>, j: Junk, f: Function, p: seq<Function>, inst: Inst, locals: Locals,
        w: W)
    requires inst.CallBuiltin? || inst.Print? || inst.Raise?
    requires VerifyInst(f, p, inst) && WellTyped(f.locals, locals)
    ensures Compute(WithJunk(rt, j), f.locals, inst, locals, w) == Compute(rt, f.locals, inst, locals, w)
  {
    match inst
    case CallBuiltin(_, _, args) => assert ValuesAt(j, locals, args) == ValuesAt(rt.junk, locals, args);
    case Print(kind, arg) => assert Printed(j, kind, arg, locals) == Printed(rt.junk, kind, arg, locals);
    case Raise(k) => assert Carried(j, k, locals) == Carried(rt.junk, k, locals);
  }

  lemma OtherIsStrict<W(!new)>(rt: Runtime<W>, j: Junk, f: Function, p: seq<Function>, inst: Inst, locals: Locals, w: W)
    requires VerifyInst(f, p, inst) && WellTyped(f.locals, locals) && !inst.Call?
    requires !(inst.Coerce? || inst.BinOp? || inst.Compare? || inst.CallBuiltin? || inst.Print? || inst.Raise?)
    ensures Compute(WithJunk(rt, j), f.locals, inst, locals, w) == Compute(rt, f.locals, inst, locals, w)
  {
    hide ConstWord;
  }

  /** On well-typed locals a verified instruction reads every register as what it holds. */
  lemma ComputeIsStrict<W(!new)>(rt: Runtime<W>, j: Junk, f: Function, p: seq<Function>, inst: Inst, locals: Locals,
        w: W)
    requires VerifyInst(f, p, inst) && WellTyped(f.locals, locals) && !inst.Call?
    ensures Compute(WithJunk(rt, j), f.locals, inst, locals, w) == Compute(rt, f.locals, inst, locals, w)
  {
    hide Compute, VerifyInst, WellTyped;
    match inst
    case Coerce(_, _, _, _, _) => CoerceIsStrict(rt, j, f, p, inst, locals, w);
    case BinOp(_, _, _, _) => OperatorIsStrict(rt, j, f, p, inst, locals, w);
    case Compare(_, _, _, _) => OperatorIsStrict(rt, j, f, p, inst, locals, w);
    case CallBuiltin(_, _, _) => HandsOverStrictly(rt, j, f, p, inst, locals, w);
    case Print(_, _) => HandsOverStrictly(rt, j, f, p, inst, locals, w);
    case Raise(_) => HandsOverStrictly(rt, j, f, p, inst, locals, w);
    case _ => OtherIsStrict(rt, j, f, p, inst, locals, w);
  }

  // ---- whole runs ----

  lemma InstIsStrict<W(!new)>(rt: Runtime<W>, j: Junk, m: Watch, p: Program, fuel: nat, id: FuncId, f: Function,
        inst: Inst, locals: Locals, w: W)
    requires Guards(rt) && CatchesNarrowings(m) && VerifiedProgram(p) && VerifyInst(f, p, inst)
    requires WellTyped(f.locals, locals)
    ensures EvalInst(WithJunk(rt, j), m, p, fuel, id, f.locals, inst, locals, w) ==
      EvalInst(rt, m, p, fuel, id, f.locals, inst, locals, w)
    decreases fuel, 2, 0
  {
    hide Compute, HasRepr, WithJunk, ReadAll, EvalFunc;
    if inst.Call? {
      CallArgsTyped(f, p, inst, locals);
      FuncIsStrict(rt, j, m, p, fuel, inst.func, ReadAll(locals, inst.args), w);
    } else {
      ComputeIsStrict(rt, j, f, p, inst, locals, w);
    }
  }

  lemma {:induction false} InstsAreStrict<W(!new)>(rt: Runtime<W>, j: Junk, m: Watch, p: Program, fuel: nat, id: FuncId,
        f: Function, insts: seq<Inst>, locals: Locals, w: W)
    requires Guards(rt) && CatchesNarrowings(m) && VerifiedProgram(p) && WellTyped(f.locals, locals)
    requires forall i :: 0 <= i < |insts| ==> VerifyInst(f, p, insts[i])
    ensures EvalInsts(WithJunk(rt, j), m, p, fuel, id, f.locals, insts, locals, w) ==
      EvalInsts(rt, m, p, fuel, id, f.locals, insts, locals, w)
    decreases fuel, 2, |insts|
  {
    hide VerifyInst, EvalInst, HasRepr, WithJunk;
    if insts == [] {
    } else {
      InstIsStrict(rt, j, m, p, fuel, id, f, insts[0], locals, w);
      InstKeepsTypes(rt, m, p, fuel, id, f, insts[0], locals, w);
      var step := EvalInst(rt, m, p, fuel, id, f.locals, insts[0], locals, w);
      if step.Falls? {
        InstsAreStrict(rt, j, m, p, fuel, id, f, insts[1..], step.locals, step.world);
      }
    }
  }

  /** A branch tests a byte register. */
  lemma LeaveIsStrict<W(!new)>(rt: Runtime<W>, j: Junk, f: Function, blk: Block, flow: Flow<W>)
    requires VerifyTerm(f, blk.term) && FlowTyped(f.locals, flow)
    ensures LeaveBlock(WithJunk(rt, j), blk, f.ret, flow) == LeaveBlock(rt, blk, f.ret, flow)
  {
    hide HasShape;
    if flow.Falls? && blk.term.Branch? {
      assert HasRepr(Read(flow.locals, blk.term.cond), Raw(I8));
    }
  }

  lemma BlockIsStrict<W(!new)>(rt: Runtime<W>, j: Junk, m: Watch, p: Program, fuel: nat, id: FuncId, b: BlockId,
        locals: Locals, w: W)
    requires Guards(rt) && CatchesNarrowings(m) && VerifiedProgram(p) && id < |p| && WellTyped(p[id].locals, locals)
    ensures EvalBlock(WithJunk(rt, j), m, p, fuel, id, b, locals, w) == EvalBlock(rt, m, p, fuel, id, b, locals, w)
    decreases fuel, 0, 0
  {
    hide EvalInsts, LeaveBlock, HasRepr, VerifyInst, WithJunk;
    if fuel > 0 && b < |p[id].blocks| {
      var f := p[id];
      assert Verified(f, p) && VerifyBlock(f, p, b);
      var blk := f.blocks[b];
      InstsAreStrict(rt, j, m, p, fuel - 1, id, f, blk.insts, locals, w);
      InstsKeepTypes(rt, m, p, fuel - 1, id, f, blk.insts, locals, w);
      StopsIsNoReturn(rt, m, p, fuel - 1, id, f.locals, blk.insts, locals, w);
      var flow := EvalInsts(rt, m, p, fuel - 1, id, f.locals, blk.insts, locals, w);
      LeaveIsStrict(rt, j, f, blk, flow);
      LeaveTyped(rt, f, blk, flow);
      var e := LeaveBlock(rt, blk, f.ret, flow);
      if e.Goes? {
        BlockIsStrict(rt, j, m, p, fuel - 1, id, e.block, e.locals, e.world);
      }
    }
  }

  lemma FuncIsStrict<W(!new)>(rt: Runtime<W>, j: Junk, m: Watch, p: Program, fuel: nat, id: FuncId, args: seq<Word>,
        w: W)
    requires Guards(rt) && CatchesNarrowings(m) && VerifiedProgram(p) && id < |p| && ArgsTyped(p[id].params, args)
    ensures EvalFunc(WithJunk(rt, j), m, p, fuel, id, args, w) == EvalFunc(rt, m, p, fuel, id, args, w)
    decreases fuel, 1, 0
  {
    hide EvalBlock, HasRepr, WithJunk;
    assert Verified(p[id], p);
    EntryTyped(p, id, args);
    BlockIsStrict(rt, j, m, p, fuel, id, p[id].entry, EntryLocals(p[id], args), w);
  }

  lemma EntryTyped(p: Program, id: FuncId, args: seq<Word>)
    requires id < |p| && Verified(p[id], p) && ArgsTyped(p[id].params, args)
    ensures WellTyped(p[id].locals, EntryLocals(p[id], args))
  {
    hide HasRepr;
  }

  /**
   The machine itself: on every run of a verified program whose narrowings meet the shapes they were promised, no
   register is ever read as what it does not hold, however deep the calls.
   */
  lemma {:induction false} RunsAreStrict<W(!new)>(rt: Runtime<W>, j: Junk, p: Program, fuel: nat, id: FuncId,
        args: seq<Word>, w: W)
    requires Guards(rt) && VerifiedProgram(p) && id < |p| && ArgsTyped(p[id].params, args)
    requires EvalFunc(rt, WatchNarrowings(), p, fuel, id, args, w) != BrokenPromise
    ensures EvalFunc(WithJunk(rt, j), Unwatched(), p, fuel, id, args, w) ==
      EvalFunc(rt, Unwatched(), p, fuel, id, args, w)
  {
    hide EvalFunc, HasRepr, Guards, WithJunk;
    FuncIsStrict(rt, j, WatchNarrowings(), p, fuel, id, args, w);
    WatchedFunc(rt, WatchNarrowings(), p, fuel, id, args, w);
    WatchedFunc(WithJunk(rt, j), WatchNarrowings(), p, fuel, id, args, w);
  }

  // ---- the check refuses what would go wrong, and nothing else of these forms ----

  /** The class of word these forms yield. */
  function Yielded(inst: Inst): Repr {
    if inst.Compare? || inst.Truthy? || inst.IsInstance? || (inst.Unary? && inst.uop.Not?) then Raw(I8) else Tagged
  }

  /** Outside operators, bridges, calls, prints and instance bases, everything handed to the runtime is tagged. */
  lemma RuntimeTakesTagged(f: Function, p: seq<Function>, inst: Inst, l: LocalId)
    requires VerifyInst(f, p, inst) && l in Operands(inst)
    requires !(inst.BinOp? || inst.Compare? || inst.Unary? || inst.Coerce? || inst.Call? || inst.Print?)
    requires (inst.GetField? || inst.SetField?) && l == inst.base ==> !f.locals[l].Heap?
    ensures Has(f, l, Tagged)
  {
    hide HasOpt;
    if inst.Raise? {
      RaiseTakesTagged(f, p, inst, l);
    }
  }

  lemma RaiseTakesTagged(f: Function, p: seq<Function>, inst: Inst, l: LocalId)
    requires VerifyInst(f, p, inst) && l in Operands(inst) && inst.Raise?
    ensures Has(f, l, Tagged)
  {
  }

  ghost predicate AllTagged(f: Function, ls: seq<LocalId>) {
    forall i :: 0 <= i < |ls| ==> Has(f, ls[i], Tagged)
  }

  lemma FirstTwoTagged(f: Function, ls: seq<LocalId>)
    requires AllTagged(f, ls)
    ensures |ls| > 0 ==> Has(f, ls[0], Tagged)
    ensures |ls| > 1 ==> Has(f, ls[1], Tagged)
  {
  }

  lemma RaiseAccepted(f: Function, p: seq<Function>, inst: Inst)
    requires inst.Raise? && AllTagged(f, Operands(inst))
    ensures VerifyInst(f, p, inst)
  {
    FirstTwoTagged(f, Operands(inst));
    hide AllTagged, Has;
    match inst.exc
    case RaiseCustom(_, msg, instance) => assert Operands(inst)[|OptSeq(msg)|] == instance;
    case _ =>
  }

  lemma BuiltinAccepted(f: Function, p: seq<Function>, inst: Inst)
    requires inst.CallBuiltin? && AllTagged(f, inst.args)
    ensures VerifyInst(f, p, inst) <==> HasOpt(f, inst.ret, Tagged)
  {
    hide HasOpt, Has;
  }

  /** On tagged registers every form is accepted, exactly when its destination takes what it yields. */
  lemma TaggedFormsAccepted(f: Function, p: seq<Function>, inst: Inst)
    requires !(inst.Const? || inst.Coerce? || inst.Call? || inst.Print?) && AllTagged(f, Operands(inst))
    ensures VerifyInst(f, p, inst) <==> HasOpt(f, Dst(inst), Yielded(inst))
  {
    if inst.Raise? {
      RaiseAccepted(f, p, inst);
    } else if inst.CallBuiltin? {
      BuiltinAccepted(f, p, inst);
    } else {
      FirstTwoTagged(f, Operands(inst));
      hide AllTagged;
    }
  }

  /** The representation a printing function takes, if it takes anything. */
  function Takes(s: Shown): Option<Repr> {
    match s
    case ShowNothing => None
    case ShowValue(_) => Some(Tagged)
    case ShowInt(_) => Some(Raw(I64))
    case ShowFloat(_) => Some(Raw(F64))
    case ShowBit(_) => Some(Raw(I8))
  }

  /** A print is accepted exactly when its register is what the function it calls takes. */
  lemma PrintsAccepted(j: Junk, f: Function, p: seq<Function>, kind: PrintKind, arg: Option<LocalId>, locals: Locals)
    ensures VerifyInst(f, p, Print(kind, arg)) <==>
      match Takes(Printed(j, kind, arg, locals))
      case None => arg.None?
      case Some(r) => arg.Some? && Has(f, arg.value, r)
  {
  }

  /**
   A constant is accepted exactly where its word belongs; but literals of heap types not at the tagged representation,
   machine integers at no heap one, and null only at the tagged one.
   */
  lemma ConstantsAccepted(c: Const, r: Repr)
    ensures ConstFitsRepr(c, r) <==>
      HasRepr(ConstWord(c, r), r) && (c.StrLit? || c.BytesLit? || c.BigIntLit? ==> !r.Tagged?) &&
      (c.IntLit? ==> !r.Heap?) && (c.NullPtr? ==> r.Tagged?)
  {
  }

  /** An operator is accepted on raw registers exactly when the machine has it. */
  lemma RawOperatorsAccepted<W(!new)>(rt: Runtime<W>, op: BinaryOp, w: W)
    ensures BinOpRepr(op, Raw(I64)) <==> exists a: I64, b: I64 :: !RawIntBin(rt, op, a, b, w).Traps?
    ensures BinOpRepr(op, Raw(F64)) <==> exists x, y :: !RawFloatBin(rt, op, x, y, w).Traps?
  {
    hide FloorArith.RawFloorDiv, FloorArith.RawFloorMod;
    if BinOpRepr(op, Raw(I64)) {
      assert !RawIntBin(rt, op, 1, 1, w).Traps?;
    }
    if BinOpRepr(op, Raw(F64)) {
      assert !RawFloatBin(rt, op, Ieee(0), Ieee(0), w).Traps?;
    }
  }

  // ---- which bridges there are ----

  predicate IsContainer(s: HeapShape) {
    s.List? || s.Dict? || s.Set? || s.Tuple? || s.TupleVar? || s.Iterator?
  }

  /** Containers are of one family exactly when whatever is one is the other, fixed tuples of different length aside. */
  lemma FamilyIsPhysical(a: HeapShape, b: HeapShape)
    ensures SameContainerFamily(a, b) <==>
      IsContainer(a) && IsContainer(b) && (forall w :: HasShape(w, a) ==> HasShape(w, b)) &&
      (a.Tuple? && b.Tuple? ==> |a.elems| == |b.elems|)
  {
    if SameContainerFamily(a, b) {
      forall w | HasShape(w, a) ensures HasShape(w, b) { FamilyKeepsShape(w, a, b); }
    } else if IsContainer(a) && IsContainer(b) {
      assert HasShape(ReadTable.ObjectOf(a), a);
    }
  }

  predicate Bridged(r: Repr) {
    r.Heap? || r.Closure? || r == Raw(F64) || r == Raw(I64) || r == Raw(I8)
  }

  /** Shapes aside, every bridge has the tagged representation at one end, and these at the other. */
  lemma BridgesMeetAtTagged(from: Repr, to: Repr)
    requires from != to && !(from.Heap? && to.Heap?)
    ensures ClassifyCoercion(from, to).Some? <==> (from.Tagged? && Bridged(to)) || (to.Tagged? && Bridged(from))
  {
  }

  /** Over a bridge and back: the same word, a truth value as one bit, an integer as long as it fits the tag. */
  lemma BridgeRoundTrip<W>(rt: Runtime<W>, r: Repr, a: Word, w: W)
    requires Bridged(r) && HasRepr(a, r)
    ensures var there := UncheckedCoerce(rt, r, Tagged, a, w);
      there.Yields? && there.world == w && IsValue(there.word) &&
      var back := UncheckedCoerce(rt, Tagged, r, there.word, w);
      (r == Raw(I8) ==> back == Yields(RawI8(BitVal(a.bits != 0)), w)) &&
      (!r.Raw? || r == Raw(F64) || (r == Raw(I64) && Tagging.IntFits(a.i)) ==> back == Yields(a, w))
  {
  }

  /**
   Control in verified code: a block is left only for a block that exists; a raise is caught by another block, never
   the entry; and a block with a diverging instruction ends there, with nowhere to fall through to.
   */
  lemma VerifiedControl<W(!new)>(rt: Runtime<W>, f: Function, p: seq<Function>, b: BlockId, flow: Flow<W>)
    requires Verified(f, p) && b < |f.blocks|
    ensures var e := LeaveBlock(rt, f.blocks[b], f.ret, flow);
      e.Goes? ==> e.block < |f.blocks| && (flow.Throws? ==> e.block != b && e.block != f.entry)
    ensures forall i :: 0 <= i < |f.blocks[b].insts| && Diverges(f.blocks[b].insts[i]) ==>
      i + 1 == |f.blocks[b].insts| && TermTargets(f.blocks[b].term) == []
  {
    hide VerifyInst;
    assert VerifyBlock(f, p, b);
  }
}
