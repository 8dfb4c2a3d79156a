/** Constant folding preserves meaning on verified programs whose folded branches go the way their registers say. */
module ConstFoldMeaning {
  import opened Wrappers
  import opened Mir
  import opened BitOps
  import opened Verify
  import opened Analysis
  import opened Semantics
  import opened ConstFold
  import opened EffectTables

  // ---- the side condition: a folded branch tests what the register holds ----

  /** The register holds the low byte; the fold tests the whole constant. */
  predicate KeepsTruth(n: I64) {
    n == 0 || n % 0x100 != 0
  }

  /** Branching on a recorded constant goes the way the register says, or both ways are one. */
  predicate BranchKeepsTruth(t: Terminator, env: ConstEnv) {
    t.Branch? && t.cond in env && env[t.cond].IntLit? ==> KeepsTruth(env[t.cond].n) || t.thn == t.els
  }

  /** What the scan has recorded when it reaches the block's terminator. */
  function ExitEnv(fp: FloatOps, b: Block, reprs: seq<Repr>): ConstEnv {
    EnvThrough(FoldInsts(fp, b.insts, map[], reprs), map[])
  }

  predicate BranchesKeepTruth(fp: FloatOps, f: Function) {
    forall b :: 0 <= b < |f.blocks| ==> BranchKeepsTruth(f.blocks[b].term, ExitEnv(fp, f.blocks[b], f.locals))
  }

  lemma MaskedTest(j: Junk, n: I64)
    ensures AsBit(j, ConstWord(IntLit(n), Raw(I8))) == (n != 0) <==> KeepsTruth(n)
  {
  }

  // ---- the lattice tells the truth ----

  /** Every recorded constant fits its local's representation and is what the local holds. */
  ghost predicate EnvHolds(env: ConstEnv, reprs: seq<Repr>, locals: Locals) {
    |locals| == |reprs| &&
    forall l :: l in env ==>
      l < |reprs| && ConstFitsRepr(env[l], reprs[l]) && locals[l] == ConstWord(env[l], reprs[l])
  }

  ghost predicate VerifyInsts(f: Function, funcs: seq<Function>, insts: seq<Inst>) {
    forall i :: 0 <= i < |insts| ==> VerifyInst(f, funcs, insts[i])
  }

  lemma FoldIntsIsIntOp(op: BinaryOp, a: I64, b: I64)
    requires FoldInts(op, a, b).Some?
    ensures IntOp(op, a, b) == Some(FoldInts(op, a, b).value)
  {
    hide I64Op, Bitwise;
    match op
    case BitAnd => I64OpIsBitwise(AndT, a, b);
    case BitOr => I64OpIsBitwise(OrT, a, b);
    case BitXor => I64OpIsBitwise(XorT, a, b);
    case _ =>
  }

  /** Folding an integer operator yields a fixnum constant the verifier accepts. */
  lemma BinOpFoldsRight<W>(rt: Runtime<W>, f: Function, funcs: seq<Function>, inst: Inst, env: ConstEnv,
        locals: Locals, w: W)
    requires inst.BinOp? && VerifyInst(f, funcs, inst) && EnvHolds(env, f.locals, locals)
    requires FoldInst(rt.fp, inst, env, f.locals).Some?
    ensures FoldsTo(rt, f, funcs, inst, FoldInst(rt.fp, inst, env, f.locals).value, locals, w)
  {
    hide Tagging.IntFits, I64Op, Bitwise;
    if env[inst.l].IntLit? {
      FoldIntsIsIntOp(inst.op, env[inst.l].n, env[inst.r].n);
    }
  }

  /** `folded` is a verified constant with the original's destination and effect. */
  ghost predicate FoldsTo<W>(rt: Runtime<W>, f: Function, funcs: seq<Function>, inst: Inst, folded: Inst,
        locals: Locals, w: W) {
    folded.Const? && Dst(inst) == Some(folded.dst) && !inst.Call? &&
    VerifyInst(f, funcs, folded) &&
    Compute(rt, f.locals, inst, locals, w).effect ==
      Yields(ConstWord(folded.val, ReprOf(f.locals, folded.dst)), w)
  }

  /** A byte constant of the right bit stands for whatever yields that bit and touches nothing. */
  lemma BitFoldsTo<W>(rt: Runtime<W>, f: Function, funcs: seq<Function>, inst: Inst, b: bool, locals: Locals, w: W)
    requires Dst(inst).Some? && Dst(inst).value < |f.locals| && f.locals[Dst(inst).value] == Raw(I8) && !inst.Call?
    requires Compute(rt, f.locals, inst, locals, w).effect == Yields(RawI8(BitVal(b)), w)
    ensures FoldsTo(rt, f, funcs, inst, Inst.Const(Dst(inst).value, IntLit(BitVal(b))), locals, w)
  {
    hide Compute;
  }

  lemma CompareFoldsRight<W>(rt: Runtime<W>, f: Function, funcs: seq<Function>, inst: Inst, env: ConstEnv,
        locals: Locals, w: W)
    requires inst.Compare? && VerifyInst(f, funcs, inst) && EnvHolds(env, f.locals, locals)
    requires FoldInst(rt.fp, inst, env, f.locals).Some?
    ensures FoldsTo(rt, f, funcs, inst, FoldInst(rt.fp, inst, env, f.locals).value, locals, w)
  {
    hide Tagging.IntFits, FoldsTo, CmpInt;
    BitFoldsTo(rt, f, funcs, inst, FoldCompare(rt.fp, inst.cmp, env[inst.l], env[inst.r]).value, locals, w);
  }

  /** The truth the folder gives a constant is the one the machine finds in its word. */
  lemma TruthOfWord<W>(rt: Runtime<W>, c: Const, w: W)
    requires ConstFitsRepr(c, Tagged) && ConstTruthiness(rt.fp, c).Some?
    ensures IsValue(ConstWord(c, Tagged))
    ensures TaggedTruthy(rt, ConstWord(c, Tagged), w) == Done(ConstTruthiness(rt.fp, c).value, w)
  {
    hide Tagging.IntFits;
  }

  lemma TruthFoldsRight<W>(rt: Runtime<W>, f: Function, funcs: seq<Function>, inst: Inst, env: ConstEnv,
        locals: Locals, w: W)
    requires (inst.Truthy? || inst.Unary?) && VerifyInst(f, funcs, inst) && EnvHolds(env, f.locals, locals)
    requires FoldInst(rt.fp, inst, env, f.locals).Some?
    ensures FoldsTo(rt, f, funcs, inst, FoldInst(rt.fp, inst, env, f.locals).value, locals, w)
  {
    hide Tagging.IntFits, FoldsTo, TaggedTruthy, ConstTruthiness, ConstWord, IsValue;
    assert locals[inst.operand] == ConstWord(env[inst.operand], Tagged);
    TruthOfWord(rt, env[inst.operand], w);
    var truth := ConstTruthiness(rt.fp, env[inst.operand]).value;
    BitFoldsTo(rt, f, funcs, inst, truth != inst.Unary?, locals, w);
  }

  lemma FoldsRight<W>(rt: Runtime<W>, f: Function, funcs: seq<Function>, inst: Inst, env: ConstEnv, locals: Locals,
        w: W)
    requires VerifyInst(f, funcs, inst) && EnvHolds(env, f.locals, locals)
    requires FoldInst(rt.fp, inst, env, f.locals).Some?
    ensures FoldsTo(rt, f, funcs, inst, FoldInst(rt.fp, inst, env, f.locals).value, locals, w)
  {
    hide FoldsTo, EnvHolds, VerifyInst;
    match inst
    case BinOp(_, _, _, _) => BinOpFoldsRight(rt, f, funcs, inst, env, locals, w);
    case Compare(_, _, _, _) => CompareFoldsRight(rt, f, funcs, inst, env, locals, w);
    case Truthy(_, _) => TruthFoldsRight(rt, f, funcs, inst, env, locals, w);
    case Unary(_, _, _) => TruthFoldsRight(rt, f, funcs, inst, env, locals, w);
    case _ =>
  }

  /** A write keeps the lattice true: a constant is recorded, anything else forgotten. */
  lemma WriteKeepsEnv(env: ConstEnv, f: Function, funcs: seq<Function>, inst: Inst, locals: Locals, v: Word)
    requires VerifyInst(f, funcs, inst) && EnvHolds(env, f.locals, locals)
    requires inst.Const? ==> v == ConstWord(inst.val, f.locals[inst.dst])
    ensures EnvHolds(EnvAfter(env, inst), f.locals, Write(locals, Dst(inst), v))
  {
    hide ConstWord;
  }

  // ---- simulation ----

  ghost predicate FoldedProgram(fp: FloatOps, p: Program, q: Program) {
    |p| == |q| && forall i :: 0 <= i < |p| ==> q[i] == FoldFunc(fp, p[i])
  }

  ghost predicate Foldable(fp: FloatOps, p: Program) {
    VerifiedProgram(p) && forall i :: 0 <= i < |p| ==> BranchesKeepTruth(fp, p[i])
  }

  /** One instruction and its folded form do the same, and leave a true lattice. */
  lemma SameInst<W(!new)>(rt: Runtime<W>, p: Program, q: Program, fuel: nat, id: FuncId, f: Function, inst: Inst,
        env: ConstEnv, locals: Locals, w: W)
    requires Foldable(rt.fp, p) && FoldedProgram(rt.fp, p, q)
    requires VerifyInst(f, p, inst) && EnvHolds(env, f.locals, locals)
    ensures var inst' := Folded(rt.fp, inst, env, f.locals);
      var a := EvalInst(rt, Unwatched(), p, fuel, id, f.locals, inst, locals, w);
      var b := EvalInst(rt, Unwatched(), q, fuel, id, f.locals, inst', locals, w);
      a == b && (a.Falls? ==> EnvHolds(EnvAfter(env, inst'), f.locals, a.locals))
    decreases fuel, 2, 0
  {
    hide VerifyInst, EnvHolds, Compute, BranchesKeepTruth;
    if FoldInst(rt.fp, inst, env, f.locals).Some? {
      var folded := FoldInst(rt.fp, inst, env, f.locals).value;
      FoldsRight(rt, f, p, inst, env, locals, w);
      ComputeWrites(rt, f.locals, inst, locals, w);
      ConstComputes(rt, f, p, folded, w);
      WriteKeepsEnv(env, f, p, folded, locals, ConstWord(folded.val, f.locals[folded.dst]));
    } else {
      if inst.Call? {
        SameFunc(rt, p, q, fuel, inst.func, ReadAll(locals, inst.args), w);
      }
      var flow := EvalInst(rt, Unwatched(), p, fuel, id, f.locals, inst, locals, w);
      if flow.Falls? {
        FallsByWriting(rt, p, fuel, id, f, inst, locals, w);
        var v :| Writes(f, inst, locals, v, flow.locals);
        WriteKeepsEnv(env, f, p, inst, locals, v);
      }
    }
  }

  lemma ConstComputes<W(!new)>(rt: Runtime<W>, f: Function, funcs: seq<Function>, inst: Inst, w: W)
    requires inst.Const? && VerifyInst(f, funcs, inst)
    ensures inst.dst < |f.locals|
    ensures forall locals ::
      Compute(rt, f.locals, inst, locals, w) == Deed(Some(inst.dst), Yields(ConstWord(inst.val, f.locals[inst.dst]), w))
  {
  }

  /** `after` is `locals` with `v` in the destination, and a constant's own word for a constant. */
  ghost predicate Writes(f: Function, inst: Inst, locals: Locals, v: Word, after: Locals) {
    after == Write(locals, Dst(inst), v) &&
    (inst.Const? ==> inst.dst < |f.locals| && v == ConstWord(inst.val, f.locals[inst.dst]))
  }

  /** An instruction that falls through has done nothing to the locals but write its destination. */
  lemma FallsByWriting<W(!new)>(rt: Runtime<W>, p: Program, fuel: nat, id: FuncId, f: Function, inst: Inst,
        locals: Locals, w: W)
    requires VerifyInst(f, p, inst) && EvalInst(rt, Unwatched(), p, fuel, id, f.locals, inst, locals, w).Falls?
    ensures exists v ::
      Writes(f, inst, locals, v, EvalInst(rt, Unwatched(), p, fuel, id, f.locals, inst, locals, w).locals)
  {
    hide VerifyInst, ConstWord, EvalFunc, Compute;
    var after := EvalInst(rt, Unwatched(), p, fuel, id, f.locals, inst, locals, w).locals;
    if inst.Const? {
      ConstComputes(rt, f, p, inst, w);
      assert Writes(f, inst, locals, ConstWord(inst.val, f.locals[inst.dst]), after);
    } else if inst.Call? {
      var r := EvalFunc(rt, Unwatched(), p, fuel, inst.func, ReadAll(locals, inst.args), w);
      assert Writes(f, inst, locals, r.value, after);
    } else {
      ComputeWrites(rt, f.locals, inst, locals, w);
      assert Writes(f, inst, locals, Compute(rt, f.locals, inst, locals, w).effect.word, after);
    }
  }

  lemma SameInsts<W(!new)>(rt: Runtime<W>, p: Program, q: Program, fuel: nat, id: FuncId, f: Function, insts: seq<Inst>,
        env: ConstEnv, locals: Locals, w: W)
    requires Foldable(rt.fp, p) && FoldedProgram(rt.fp, p, q)
    requires VerifyInsts(f, p, insts) && EnvHolds(env, f.locals, locals)
    ensures var insts' := FoldInsts(rt.fp, insts, env, f.locals);
      var a := EvalInsts(rt, Unwatched(), p, fuel, id, f.locals, insts, locals, w);
      var b := EvalInsts(rt, Unwatched(), q, fuel, id, f.locals, insts', locals, w);
      a == b && (a.Falls? ==> EnvHolds(EnvThrough(insts', env), f.locals, a.locals))
    decreases fuel, 2, |insts|
  {
    hide VerifyInst, EnvHolds, EvalInst, BranchesKeepTruth, Folded, EnvAfter;
    if insts == [] {
    } else {
      var inst' := Folded(rt.fp, insts[0], env, f.locals);
      SameInst(rt, p, q, fuel, id, f, insts[0], env, locals, w);
      var step := EvalInst(rt, Unwatched(), p, fuel, id, f.locals, insts[0], locals, w);
      if step.Falls? {
        SameInsts(rt, p, q, fuel, id, f, insts[1..], EnvAfter(env, inst'), step.locals, step.world);
      }
      assert FoldInsts(rt.fp, insts, env, f.locals)[1..] ==
        FoldInsts(rt.fp, insts[1..], EnvAfter(env, inst'), f.locals);
    }
  }

  /**
   The rewritten terminator goes where the original went, for all control leaving the block, exactly when a branch it
   decided keeps its truth.
   */
  lemma LeaveIsExact<W(!new)>(rt: Runtime<W>, f: Function, blk: Block, env: ConstEnv, insts: seq<Inst>,
        locals: Locals, w: W)
    requires VerifyTerm(f, blk.term) && EnvHolds(env, f.locals, locals)
    ensures var folded := Block(insts, FoldTerm(blk.term, env), blk.handler);
      LeaveBlock(rt, blk, f.ret, Falls(locals, w)) == LeaveBlock(rt, folded, f.ret, Falls(locals, w)) <==>
      BranchKeepsTruth(blk.term, env)
  {
    if blk.term.Branch? && blk.term.cond in env && env[blk.term.cond].IntLit? {
      MaskedTest(rt.junk, env[blk.term.cond].n);
    }
  }

  lemma SameLeave<W(!new)>(rt: Runtime<W>, f: Function, blk: Block, env: ConstEnv, insts: seq<Inst>,
        flow: Flow<W>)
    requires VerifyTerm(f, blk.term) && BranchKeepsTruth(blk.term, env)
    requires flow.Falls? ==> EnvHolds(env, f.locals, flow.locals)
    ensures var folded := Block(insts, FoldTerm(blk.term, env), blk.handler);
      LeaveBlock(rt, blk, f.ret, flow) == LeaveBlock(rt, folded, f.ret, flow)
  {
    hide BranchKeepsTruth, EnvHolds;
    if flow.Falls? {
      LeaveIsExact(rt, f, blk, env, insts, flow.locals, flow.world);
    }
  }

  lemma SameBlock<W(!new)>(rt: Runtime<W>, p: Program, q: Program, fuel: nat, id: FuncId, b: BlockId, locals: Locals,
        w: W)
    requires Foldable(rt.fp, p) && FoldedProgram(rt.fp, p, q) && id < |p| && |locals| == |p[id].locals|
    ensures EvalBlock(rt, Unwatched(), q, fuel, id, b, locals, w) ==
      EvalBlock(rt, Unwatched(), p, fuel, id, b, locals, w)
    decreases fuel, 0, 0
  {
    hide LeaveBlock, EvalInsts, FoldInsts, VerifyInst, BranchKeepsTruth, FoldTerm, EnvThrough;
    if fuel > 0 && b < |p[id].blocks| {
      var f := p[id];
      var blk := f.blocks[b];
      assert Verified(f, p) && VerifyBlock(f, p, b);
      assert BranchKeepsTruth(blk.term, ExitEnv(rt.fp, blk, f.locals));
      SameInsts(rt, p, q, fuel - 1, id, f, blk.insts, map[], locals, w);
      var flow := EvalInsts(rt, Unwatched(), p, fuel - 1, id, f.locals, blk.insts, locals, w);
      var insts := FoldInsts(rt.fp, blk.insts, map[], f.locals);
      SameLeave(rt, f, blk, EnvThrough(insts, map[]), insts, flow);
      assert q[id].blocks[b] == FoldBlock(rt.fp, blk, f.locals);
      var e := LeaveBlock(rt, blk, f.ret, flow);
      if e.Goes? {
        KeepsLength(rt, p, fuel - 1, id, f.locals, blk.insts, locals, w);
        GoesWith(rt, blk, f.ret, flow);
        SameBlock(rt, p, q, fuel - 1, id, e.block, e.locals, e.world);
      }
    }
  }

  lemma GoesWith<W(!new)>(rt: Runtime<W>, blk: Block, ret: Repr, flow: Flow<W>)
    ensures var e := LeaveBlock(rt, blk, ret, flow);
      e.Goes? ==> !flow.Stops? && e.locals == flow.locals && e.world == flow.world
  {
  }

  lemma {:induction false} KeepsLength<W(!new)>(rt: Runtime<W>, p: Program, fuel: nat, id: FuncId, reprs: seq<Repr>,
        insts: seq<Inst>, locals: Locals, w: W)
    ensures var flow := EvalInsts(rt, Unwatched(), p, fuel, id, reprs, insts, locals, w);
      !flow.Stops? ==> |flow.locals| == |locals|
    decreases |insts|
  {
    hide Compute, EvalFunc;
    if insts == [] {
    } else {
      var step := EvalInst(rt, Unwatched(), p, fuel, id, reprs, insts[0], locals, w);
      if step.Falls? {
        KeepsLength(rt, p, fuel, id, reprs, insts[1..], step.locals, step.world);
      }
    }
  }

  lemma SameFunc<W(!new)>(rt: Runtime<W>, p: Program, q: Program, fuel: nat, id: FuncId, args: seq<Word>, w: W)
    requires Foldable(rt.fp, p) && FoldedProgram(rt.fp, p, q)
    ensures EvalFunc(rt, Unwatched(), q, fuel, id, args, w) == EvalFunc(rt, Unwatched(), p, fuel, id, args, w)
    decreases fuel, 1, 0
  {
    if id < |p| {
      SameBlock(rt, p, q, fuel, id, p[id].entry, EntryLocals(p[id], args), w);
    }
  }

  /**
   Constant folding preserves meaning: for every runtime, input, world and fuel
   the folded program ends the same way, with the same value and final world.
   */
  lemma {:induction false} FoldPreservesMeaning<W(!new)>(rt: Runtime<W>, p: Program, q: Program, fuel: nat,
        id: FuncId, args: seq<Word>, w: W)
    requires VerifiedProgram(p) && forall i :: 0 <= i < |p| ==> BranchesKeepTruth(rt.fp, p[i])
    requires |q| == |p| && forall i :: 0 <= i < |p| ==> q[i] == FoldFunc(rt.fp, p[i])
    ensures EvalFunc(rt, Unwatched(), q, fuel, id, args, w) == EvalFunc(rt, Unwatched(), p, fuel, id, args, w)
  {
    SameFunc(rt, p, q, fuel, id, args, w);
  }

  // ---- without the side condition ----

  /** A branch on the byte constant 256, whose register holds zero. */
  function TruncatedBranch(): Function {
    Function([], Tagged, [Raw(I8)],
             [Block([Inst.Const(0, IntLit(0x100))], Branch(0, 1, 2), None),
              Block([], Unreachable, None),
              Block([], Return(None), None)], 0)
  }

  lemma TruncatedBranchIsVerified()
    ensures VerifiedProgram([TruncatedBranch()])
  {
    var f := TruncatedBranch();
    assert VerifyBlock(f, [f], 0) && VerifyBlock(f, [f], 1) && VerifyBlock(f, [f], 2);
  }

  lemma TruncatedBranchFolds(fp: FloatOps)
    ensures var f := TruncatedBranch();
      FoldInsts(fp, f.blocks[0].insts, map[], f.locals) == f.blocks[0].insts &&
      EnvThrough(f.blocks[0].insts, map[]) == map[0 := IntLit(0x100)] && FoldInsts(fp, [], map[], f.locals) == []
  {
    assert TruncatedBranch().blocks[0].insts[1..] == [];
  }

  /** The register that holds 256 holds zero. */
  lemma LoadsZero<W(!new)>(rt: Runtime<W>, p: Program, w: W)
    ensures var f := TruncatedBranch();
      EvalInsts(rt, Unwatched(), p, 1, 0, f.locals, f.blocks[0].insts, EntryLocals(f, []), w) == Falls([RawI8(0)], w)
  {
    var f := TruncatedBranch();
    assert f.blocks[0].insts[1..] == [] && EntryLocals(f, []) == [RawI8(0)];
  }

  lemma NothingRuns<W(!new)>(rt: Runtime<W>, p: Program, reprs: seq<Repr>, w: W)
    ensures EvalInsts(rt, Unwatched(), p, 0, 0, reprs, [], [RawI8(0)], w) == Falls([RawI8(0)], w)
  {
  }

  /** The original returns; the folded function jumps to the other block and traps. */
  lemma UnmaskedTestTakesWrongArm<W(!new)>(rt: Runtime<W>, w: W)
    ensures VerifiedProgram([TruncatedBranch()]) && !BranchesKeepTruth(rt.fp, TruncatedBranch())
    ensures EvalFunc(rt, Unwatched(), [TruncatedBranch()], 2, 0, [], w) == Returned(NullW, w)
    ensures EvalFunc(rt, Unwatched(), [FoldFunc(rt.fp, TruncatedBranch())], 2, 0, [], w) == Trapped
  {
    TruncatedBranchIsVerified();
    hide VerifiedProgram;
    var f := TruncatedBranch();
    var p, q := [f], [FoldFunc(rt.fp, f)];
    var insts := f.blocks[0].insts;
    TruncatedBranchFolds(rt.fp);
    LoadsZero(rt, p, w);
    LoadsZero(rt, q, w);
    hide EvalInsts, FoldInsts, EnvThrough;
    assert !BranchKeepsTruth(f.blocks[0].term, ExitEnv(rt.fp, f.blocks[0], f.locals));
    assert EvalBlock(rt, Unwatched(), p, 1, 0, 2, [RawI8(0)], w) == Returned(NullW, w) by {
      NothingRuns(rt, p, f.locals, w);
    }
    assert EvalBlock(rt, Unwatched(), q, 1, 0, 1, [RawI8(0)], w) == Trapped by {
      NothingRuns(rt, q, f.locals, w);
    }
  }
}
