/**
 Dead-code elimination preserves meaning. The cleaned program is compared with
 the original for every runtime, world, input and fuel; calls between functions
 are followed through both programs.
 */
module DceMeaning {
  import opened Wrappers
  import opened Mir
  import opened LivenessSpec
  import opened Analysis
  import opened Semantics
  import opened Dce
  import opened EffectTables

  /**
   What the effect table calls pure but can still fail: raw integer arithmetic, which raises on overflow, and a
   bridge the verifier would reject.
   */
  predicate CanFail(inst: Inst, reprs: seq<Repr>) {
    match inst
    case BinOp(_, op, l, _) => ReprOf(reprs, l) != Raw(F64) || !(op.Add? || op.Sub? || op.Mul?)
    case Coerce(_, _, from, to, _) => ClassifyCoercion(from, to).None?
    case _ => false
  }

  /** A pure instruction that cannot fail yields a word and leaves the world alone. */
  lemma PureEffect<W>(rt: Runtime<W>, reprs: seq<Repr>, inst: Inst, locals: Locals, w: W)
    requires !HasSideEffects(inst, reprs) && InstInRange(inst, |reprs|)
    ensures var e := Compute(rt, reprs, inst, locals, w).effect;
      (e.Yields? && e.world == w) || CanFail(inst, reprs)
  {
    forall i | 0 <= i < |Operands(inst)|
      ensures Operands(inst)[i] < |reprs|
    {
      assert Operands(inst)[i] in Operands(inst);
    }
    match inst
    case BinOp(_, op, l, r) =>
      assert l == Operands(inst)[0];
    case Unary(_, _, o) => assert o == Operands(inst)[0];
    case Compare(_, _, l, _) => assert l == Operands(inst)[0];
    case Truthy(_, o) => assert o == Operands(inst)[0];
    case GetField(_, base, _) => assert base == Operands(inst)[0];
    case _ =>
  }

  // ---- states that agree on everything still read ----

  ghost predicate Agree(bag: multiset<LocalId>, a: Locals, b: Locals) {
    |a| == |b| && forall l :: 0 <= l < |a| && bag[l] > 0 ==> a[l] == b[l]
  }

  ghost predicate FlowAgree<W(!new)>(bag: multiset<LocalId>, a: Flow<W>, b: Flow<W>) {
    match (a, b)
    case (Falls(l, w), Falls(l', w')) => Agree(bag, l, l') && w == w'
    case (Throws(l, w), Throws(l', w')) => Agree(bag, l, l') && w == w'
    case (Stops(x), Stops(y)) => x == y
    case _ => false
  }

  lemma ReadAgrees(bag: multiset<LocalId>, a: Locals, b: Locals, l: LocalId)
    requires Agree(bag, a, b) && bag[l] > 0
    ensures Read(a, l) == Read(b, l)
  {
  }

  lemma SameReads(bag: multiset<LocalId>, a: Locals, b: Locals, ls: seq<LocalId>)
    requires Agree(bag, a, b) && multiset(ls) <= bag
    ensures SameAt(a, b, ls)
  {
    forall l | l in ls
      ensures Read(a, l) == Read(b, l)
    {
      assert l in multiset(ls);
      assert bag[l] >= multiset(ls)[l];
    }
  }

  ghost predicate Clean(p: Program, q: Program) {
    |p| == |q| && forall i :: 0 <= i < |p| ==> InRange(p[i]) && Cleaned(p[i], q[i])
  }

  /** An instruction the sweep removes from `f` although it can fail. */
  predicate Fallible(f: Function, g: Function, inst: Inst) {
    Removable(inst, f.locals, FuncBag(g.blocks)) && CanFail(inst, f.locals)
  }

  /** Every fallible removed instruction is watched. */
  ghost predicate Watches(m: Watch, p: Program, q: Program) {
    |p| == |q| && forall id: FuncId, inst :: id < |p| && Fallible(p[id], q[id], inst) ==> m(id, inst)
  }

  // ---- one instruction ----

  /** The same instruction in states that agree; calls agree because callees do. */
  lemma SameInst<W(!new)>(rt: Runtime<W>, m: Watch, p: Program, q: Program, fuel: nat, id: FuncId, reprs: seq<Repr>,
        inst: Inst, bag: multiset<LocalId>, a: Locals, b: Locals, w: W)
    requires Clean(p, q) && Watches(m, p, q) && Agree(bag, a, b) && multiset(Operands(inst)) <= bag
    requires EvalInst(rt, m, p, fuel, id, reprs, inst, a, w) != Stops(BrokenPromise)
    ensures FlowAgree(bag, EvalInst(rt, m, p, fuel, id, reprs, inst, a, w),
                      EvalInst(rt, Unwatched(), q, fuel, id, reprs, inst, b, w))
    decreases fuel, 2, 0
  {
    hide Compute, EvalFunc, Cleaned, ReadAll, BreaksPromise, Watches, Agree, Clean, SameAt, Operands;
    SameReads(bag, a, b, Operands(inst));
    OperandsSuffice(rt, reprs, inst, a, b, w);
    if inst.Call? {
      SameFunc(rt, m, p, q, fuel, inst.func, ReadAll(a, inst.args), w);
      var r := EvalFunc(rt, m, p, fuel, inst.func, ReadAll(a, inst.args), w);
      if r.Returned? {
        WriteAgrees(bag, a, b, inst.ret, r.value);
      }
    } else {
      var d := Compute(rt, reprs, inst, a, w);
      if d.effect.Yields? {
        WriteAgrees(bag, a, b, d.to, d.effect.word);
      }
    }
  }

  lemma WriteAgrees(bag: multiset<LocalId>, a: Locals, b: Locals, o: Option<LocalId>, v: Word)
    requires Agree(bag, a, b)
    ensures Agree(bag, Write(a, o, v), Write(b, o, v))
  {
  }

  /** A removed instruction changes nothing that is still read, or breaks a watched promise. */
  lemma SkipInst<W(!new)>(rt: Runtime<W>, m: Watch, p: Program, fuel: nat, id: FuncId, reprs: seq<Repr>, inst: Inst,
        bag: multiset<LocalId>, a: Locals, b: Locals, w: W)
    requires Removable(inst, reprs, bag) && InstInRange(inst, |reprs|) && Agree(bag, a, b)
    requires CanFail(inst, reprs) ==> m(id, inst)
    requires EvalInst(rt, m, p, fuel, id, reprs, inst, a, w) != Stops(BrokenPromise)
    ensures EvalInst(rt, m, p, fuel, id, reprs, inst, a, w).Falls?
    ensures EvalInst(rt, m, p, fuel, id, reprs, inst, a, w).world == w
    ensures Agree(bag, EvalInst(rt, m, p, fuel, id, reprs, inst, a, w).locals, b)
  {
    PureEffect(rt, reprs, inst, a, w);
    PureKeepsWorld(rt, reprs, inst, a, w);
    ComputeWrites(rt, reprs, inst, a, w);
    hide Compute;
  }

  lemma PureKeepsWorld<W>(rt: Runtime<W>, reprs: seq<Repr>, inst: Inst, locals: Locals, w: W)
    requires !HasSideEffects(inst, reprs) && InstInRange(inst, |reprs|)
    ensures var e := Compute(rt, reprs, inst, locals, w).effect; e.Yields? ==> e.world == w
  {
    if !CanFail(inst, reprs) {
      PureEffect(rt, reprs, inst, locals, w);
    } else if inst.BinOp? {
      assert Operands(inst)[0] in Operands(inst) && inst.l < |reprs|;
    }
  }

  lemma {:induction false} SameInsts<W(!new)>(rt: Runtime<W>, m: Watch, p: Program, q: Program, fuel: nat, id: FuncId,
        insts: seq<Inst>, kept: seq<Inst>, bag: multiset<LocalId>, a: Locals, b: Locals, w: W)
    requires Clean(p, q) && Watches(m, p, q) && Agree(bag, a, b) && id < |p| && bag == FuncBag(q[id].blocks)
    requires forall i :: 0 <= i < |insts| ==> InstInRange(insts[i], |p[id].locals|)
    requires Drops(insts, kept, p[id].locals, bag) && InstsBag(kept) <= bag
    requires EvalInsts(rt, m, p, fuel, id, p[id].locals, insts, a, w) != Stops(BrokenPromise)
    ensures FlowAgree(bag, EvalInsts(rt, m, p, fuel, id, p[id].locals, insts, a, w),
                      EvalInsts(rt, Unwatched(), q, fuel, id, p[id].locals, kept, b, w))
    decreases fuel, 2, |insts|
  {
    hide EvalInst, Removable, InstInRange, Clean, Agree, FuncBag, CanFail;
    if insts == [] {
    } else {
      var reprs := p[id].locals;
      assert InstInRange(insts[0], |reprs|);
      var step := EvalInst(rt, m, p, fuel, id, reprs, insts[0], a, w);
      if kept != [] && kept[0] == insts[0] && Drops(insts[1..], kept[1..], reprs, bag) {
        SameInst(rt, m, p, q, fuel, id, reprs, insts[0], bag, a, b, w);
        if step.Falls? {
          var step' := EvalInst(rt, Unwatched(), q, fuel, id, reprs, insts[0], b, w);
          SameInsts(rt, m, p, q, fuel, id, insts[1..], kept[1..], bag, step.locals, step'.locals, step.world);
        }
      } else {
        assert CanFail(insts[0], reprs) ==> Fallible(p[id], q[id], insts[0]);
        SkipInst(rt, m, p, fuel, id, reprs, insts[0], bag, a, b, w);
        SameInsts(rt, m, p, q, fuel, id, insts[1..], kept, bag, step.locals, b, w);
      }
    }
  }

  /** What one block of the cleaned function reads is read by the cleaned function. */
  lemma BlockReads(blocks: seq<Block>, b: BlockId)
    requires b < |blocks|
    ensures InstsBag(blocks[b].insts) <= FuncBag(blocks)
    ensures multiset(TermOperands(blocks[b].term)) <= FuncBag(blocks)
  {
    FuncBagAt(blocks, b, blocks[b]);
    assert blocks[b := blocks[b]] == blocks;
  }

  /** Leaving a reachable block: both functions end alike, or go to the same reachable block. */
  lemma SameLeave<W(!new)>(rt: Runtime<W>, f: Function, g: Function, b: BlockId, flow: Flow<W>, flow': Flow<W>)
    requires InRange(f) && Cleaned(f, g) && b < |f.blocks| && Reaches(f, b)
    requires FlowAgree(FuncBag(g.blocks), flow, flow')
    ensures var e, e' := LeaveBlock(rt, f.blocks[b], f.ret, flow), LeaveBlock(rt, g.blocks[b], g.ret, flow');
      if e.Ends? then e == e'
      else e'.Goes? && e.block == e'.block && e.world == e'.world && Agree(FuncBag(g.blocks), e.locals, e'.locals)
    ensures var e := LeaveBlock(rt, f.blocks[b], f.ret, flow); e.Goes? ==> e.block < |f.blocks| && Reaches(f, e.block)
  {
    hide FuncBag, InstsBag, Drops;
    var blk := f.blocks[b];
    assert CleanedBlock(f, b, g.blocks[b], FuncBag(g.blocks));
    assert BlockInRange(blk, |f.locals|, |f.blocks|);
    BlockReads(g.blocks, b);
    if flow.Falls? {
      forall l | l in TermOperands(blk.term)
        ensures Read(flow.locals, l) == Read(flow'.locals, l)
      {
        assert multiset(TermOperands(blk.term))[l] > 0;
        ReadAgrees(FuncBag(g.blocks), flow.locals, flow'.locals, l);
      }
      if blk.term.Return? && blk.term.result.Some? {
        assert blk.term.result.value in TermOperands(blk.term);
      }
    }
    GoesReached(rt, f, b, flow);
  }

  /** A run leaves a reachable block only to a reachable block. */
  lemma GoesReached<W(!new)>(rt: Runtime<W>, f: Function, b: BlockId, flow: Flow<W>)
    requires InRange(f) && b < |f.blocks| && Reaches(f, b)
    ensures var e := LeaveBlock(rt, f.blocks[b], f.ret, flow); e.Goes? ==> e.block < |f.blocks| && Reaches(f, e.block)
  {
    var blk := f.blocks[b];
    assert BlockInRange(blk, |f.locals|, |f.blocks|);
    var e := LeaveBlock(rt, blk, f.ret, flow);
    if e.Goes? {
      assert e.block in Successors(blk);
      assert Edge(f, b, e.block);
      ReachesStep(f, b, e.block);
    }
  }

  /** A reachable block of a cleaned function, as the evaluator sees it. */
  lemma ReachedBlock(f: Function, g: Function, b: BlockId)
    requires InRange(f) && Cleaned(f, g) && Reaches(f, b) && b < |f.blocks|
    ensures |g.blocks| == |f.blocks| && g.locals == f.locals && g.ret == f.ret
    ensures Drops(f.blocks[b].insts, g.blocks[b].insts, f.locals, FuncBag(g.blocks))
    ensures InstsBag(g.blocks[b].insts) <= FuncBag(g.blocks)
    ensures forall i :: 0 <= i < |f.blocks[b].insts| ==> InstInRange(f.blocks[b].insts[i], |f.locals|)
  {
    hide Drops, FuncBag, InstsBag;
    assert CleanedBlock(f, b, g.blocks[b], FuncBag(g.blocks));
    assert BlockInRange(f.blocks[b], |f.locals|, |f.blocks|);
    BlockReads(g.blocks, b);
  }

  /** Only reachable blocks are ever entered, and there the two functions stay in step. */
  lemma SameBlock<W(!new)>(rt: Runtime<W>, m: Watch, p: Program, q: Program, fuel: nat, id: FuncId, b: BlockId,
        a: Locals, a': Locals, w: W)
    requires Clean(p, q) && Watches(m, p, q) && id < |p| && Reaches(p[id], b) && b < |p[id].blocks|
    requires Agree(FuncBag(q[id].blocks), a, a')
    requires EvalBlock(rt, m, p, fuel, id, b, a, w) != BrokenPromise
    ensures EvalBlock(rt, Unwatched(), q, fuel, id, b, a', w) == EvalBlock(rt, m, p, fuel, id, b, a, w)
    decreases fuel, 0, 0
  {
    hide LeaveBlock, EvalInsts, FuncBag, InstsBag, Drops, Cleaned, InRange, InstInRange, Agree, FlowAgree, Reaches;
    hide Watches;
    if fuel == 0 {
    } else {
      var f, g := p[id], q[id];
      ReachedBlock(f, g, b);
      var blk, blk' := f.blocks[b], g.blocks[b];
      var flow := EvalInsts(rt, m, p, fuel - 1, id, f.locals, blk.insts, a, w);
      var flow' := EvalInsts(rt, Unwatched(), q, fuel - 1, id, f.locals, blk'.insts, a', w);
      StopsLeave(rt, blk, f.ret, flow);
      SameInsts(rt, m, p, q, fuel - 1, id, blk.insts, blk'.insts, FuncBag(g.blocks), a, a', w);
      SameLeave(rt, f, g, b, flow, flow');
      var e, e' := LeaveBlock(rt, blk, f.ret, flow), LeaveBlock(rt, blk', g.ret, flow');
      if e.Goes? {
        SameBlock(rt, m, p, q, fuel - 1, id, e.block, e.locals, e'.locals, e.world);
      }
    }
  }

  lemma StopsLeave<W(!new)>(rt: Runtime<W>, blk: Block, ret: Repr, flow: Flow<W>)
    ensures flow.Stops? ==> LeaveBlock(rt, blk, ret, flow) == Ends(flow.why)
  {
  }

  lemma SameFunc<W(!new)>(rt: Runtime<W>, m: Watch, p: Program, q: Program, fuel: nat, id: FuncId, args: seq<Word>,
        w: W)
    requires Clean(p, q) && Watches(m, p, q)
    requires EvalFunc(rt, m, p, fuel, id, args, w) != BrokenPromise
    ensures EvalFunc(rt, Unwatched(), q, fuel, id, args, w) == EvalFunc(rt, m, p, fuel, id, args, w)
    decreases fuel, 1, 0
  {
    hide EvalBlock;
    if id < |p| {
      EntryReached(p[id]);
      SameBlock(rt, m, p, q, fuel, id, p[id].entry, EntryLocals(p[id], args), EntryLocals(q[id], args), w);
    }
  }

  // ---- the theorems ----

  function WatchFallible(p: Program, q: Program): Watch {
    (id: FuncId, inst) => id < |p| && id < |q| && Fallible(p[id], q[id], inst)
  }

  /**
   On every function, input, world and fuel, the cleaned program ends the same way as the original, with the same
   value and final world, unless the run executes a removed raw operation that overflows.
   */
  lemma {:induction false} DiffersOnlyOnOverflow<W(!new)>(rt: Runtime<W>, p: Program, q: Program, fuel: nat,
        id: FuncId, args: seq<Word>, w: W)
    requires Clean(p, q)
    ensures EvalFunc(rt, WatchFallible(p, q), p, fuel, id, args, w) == BrokenPromise ||
      EvalFunc(rt, Unwatched(), q, fuel, id, args, w) == EvalFunc(rt, Unwatched(), p, fuel, id, args, w)
  {
    hide EvalFunc, Clean, Fallible;
    var m := WatchFallible(p, q);
    if EvalFunc(rt, m, p, fuel, id, args, w) != BrokenPromise {
      CleanSizes(p, q);
      SameFunc(rt, m, p, q, fuel, id, args, w);
      WatchedFunc(rt, m, p, fuel, id, args, w);
    }
  }

  lemma CleanSizes(p: Program, q: Program)
    requires Clean(p, q)
    ensures |p| == |q|
  {
  }

  /** No block the entry reaches holds raw integer arithmetic the sweep may remove. */
  ghost predicate RemovesNoFallible(f: Function, g: Function) {
    forall b: BlockId, i: nat :: b < |f.blocks| && Reaches(f, b) && i < |f.blocks[b].insts| ==>
      !Fallible(f, g, f.blocks[b].insts[i])
  }

  /**
   DCE preserves meaning: where the reachable blocks hold no removable raw integer arithmetic, the cleaned program
   ends exactly as the original does on every function, input, world and fuel, whatever the outcome.
   */
  lemma {:induction false} DcePreservesMeaning<W(!new)>(rt: Runtime<W>, p: Program, q: Program, fuel: nat, id: FuncId,
        args: seq<Word>, w: W)
    requires Clean(p, q) && forall i :: 0 <= i < |p| ==> RemovesNoFallible(p[i], q[i])
    ensures EvalFunc(rt, Unwatched(), q, fuel, id, args, w) == EvalFunc(rt, Unwatched(), p, fuel, id, args, w)
  {
    hide EvalFunc, Clean, RemovesNoFallible;
    NeverBreaks(rt, p, q, fuel, id, args, w);
    DiffersOnlyOnOverflow(rt, p, q, fuel, id, args, w);
  }

  // ---- the condition on the input alone ----

  /** The sweep cannot remove it: it has an effect, writes nothing, or writes what is read for good. */
  ghost predicate Stays(f: Function, inst: Inst, depth: nat)
    decreases depth, 0
  {
    HasSideEffects(inst, f.locals) || Dst(inst).None? || (depth > 0 && Needed(f, Dst(inst).value, depth - 1))
  }

  ghost predicate NeededIn(f: Function, b: BlockId, l: LocalId, depth: nat)
    requires b < |f.blocks|
    decreases depth, 1
  {
    l in TermOperands(f.blocks[b].term) ||
    exists inst <- f.blocks[b].insts :: l in Operands(inst) && Stays(f, inst, depth)
  }

  /** Read by a terminator or an instruction that stays, in a block the entry reaches, after `depth` steps. */
  ghost predicate Needed(f: Function, l: LocalId, depth: nat)
    decreases depth, 2
  {
    exists b: BlockId :: b < |f.blocks| && Reaches(f, b) && NeededIn(f, b, l, depth)
  }

  ghost predicate IsNeeded(f: Function, l: LocalId) {
    exists depth: nat :: Needed(f, l, depth)
  }

  /** Every reachable instruction that is pure but can fail writes a local that is needed. */
  ghost predicate KeepsFallible(f: Function) {
    forall b: BlockId, i: nat :: b < |f.blocks| && Reaches(f, b) && i < |f.blocks[b].insts| ==>
      var inst := f.blocks[b].insts[i];
      CanFail(inst, f.locals) && !HasSideEffects(inst, f.locals) && Dst(inst).Some? ==> IsNeeded(f, Dst(inst).value)
  }

  lemma {:induction false} DropsKeepsReads(insts: seq<Inst>, kept: seq<Inst>, reprs: seq<Repr>,
        bag: multiset<LocalId>, inst: Inst, l: LocalId)
    requires Drops(insts, kept, reprs, bag) && inst in insts && !Removable(inst, reprs, bag) && l in Operands(inst)
    ensures InstsBag(kept)[l] > 0
  {
    hide Removable;
    if kept != [] && kept[0] == insts[0] && Drops(insts[1..], kept[1..], reprs, bag) {
      if inst != insts[0] {
        DropsKeepsReads(insts[1..], kept[1..], reprs, bag, inst, l);
      }
    } else {
      DropsKeepsReads(insts[1..], kept, reprs, bag, inst, l);
    }
  }

  lemma {:induction false} StaysIsKept(f: Function, g: Function, inst: Inst, depth: nat)
    requires Cleaned(f, g) && Stays(f, inst, depth)
    ensures !Removable(inst, f.locals, FuncBag(g.blocks))
    decreases depth, 0
  {
    hide Cleaned, FuncBag, Needed;
    if !HasSideEffects(inst, f.locals) && Dst(inst).Some? {
      NeededIsRead(f, g, Dst(inst).value, depth - 1);
    }
  }

  /** What is needed in the input is still read in any cleaned function. */
  lemma {:induction false} NeededIsRead(f: Function, g: Function, l: LocalId, depth: nat)
    requires Cleaned(f, g) && Needed(f, l, depth)
    ensures FuncBag(g.blocks)[l] > 0
    decreases depth, 1
  {
    hide Reaches, FuncBag, InstsBag, Drops, Stays, Removable;
    var b: BlockId :| b < |f.blocks| && Reaches(f, b) && NeededIn(f, b, l, depth);
    assert CleanedBlock(f, b, g.blocks[b], FuncBag(g.blocks));
    BlockReads(g.blocks, b);
    if l !in TermOperands(f.blocks[b].term) {
      var inst :| inst in f.blocks[b].insts && l in Operands(inst) && Stays(f, inst, depth);
      StaysIsKept(f, g, inst, depth);
      DropsKeepsReads(f.blocks[b].insts, g.blocks[b].insts, f.locals, FuncBag(g.blocks), inst, l);
    }
  }

  /** The condition on the input is enough, whatever the sweep then leaves. */
  lemma KeepsFallibleIsEnough(f: Function, g: Function)
    requires Cleaned(f, g) && KeepsFallible(f)
    ensures RemovesNoFallible(f, g)
  {
    hide Cleaned, Needed, CanFail, FuncBag;
    forall b: BlockId, i: nat | b < |f.blocks| && Reaches(f, b) && i < |f.blocks[b].insts|
      ensures !Fallible(f, g, f.blocks[b].insts[i])
    {
      var inst := f.blocks[b].insts[i];
      if Fallible(f, g, inst) {
        var depth: nat :| Needed(f, Dst(inst).value, depth);
        NeededIsRead(f, g, Dst(inst).value, depth);
      }
    }
  }

  /** DCE preserves meaning, by a condition checked before cleaning. */
  lemma {:induction false} DcePreservesInput<W(!new)>(rt: Runtime<W>, p: Program, q: Program, fuel: nat, id: FuncId,
        args: seq<Word>, w: W)
    requires Clean(p, q) && forall i :: 0 <= i < |p| ==> KeepsFallible(p[i])
    ensures EvalFunc(rt, Unwatched(), q, fuel, id, args, w) == EvalFunc(rt, Unwatched(), p, fuel, id, args, w)
  {
    hide EvalFunc, RemovesNoFallible, KeepsFallible, Cleaned;
    forall i | 0 <= i < |p|
      ensures RemovesNoFallible(p[i], q[i])
    {
      KeepsFallibleIsEnough(p[i], q[i]);
    }
    DcePreservesMeaning(rt, p, q, fuel, id, args, w);
  }

  // ---- which blocks a run enters ----

  /** The blocks one activation enters, in order. */
  ghost function Entered<W>(rt: Runtime<W>, m: Watch, p: Program, fuel: nat, id: FuncId, b: BlockId, locals: Locals,
        w: W): seq<BlockId>
    requires id < |p|
    decreases fuel
  {
    [b] +
    if fuel == 0 || b >= |p[id].blocks| then []
    else
      var flow := EvalInsts(rt, m, p, fuel - 1, id, p[id].locals, p[id].blocks[b].insts, locals, w);
      match LeaveBlock(rt, p[id].blocks[b], p[id].ret, flow)
      case Ends(_) => []
      case Goes(b', locals', w') => Entered(rt, m, p, fuel - 1, id, b', locals', w')
  }

  /** No activation of a cleaned function ever enters a blanked block: all it enters was reachable before. */
  lemma {:induction false} NeverEntersBlanked<W(!new)>(rt: Runtime<W>, m: Watch, p: Program, q: Program, fuel: nat,
        id: FuncId, b: BlockId, locals: Locals, w: W)
    requires Clean(p, q) && id < |p| && b < |p[id].blocks| && Reaches(p[id], b)
    ensures forall x <- Entered(rt, m, q, fuel, id, b, locals, w) :: x < |p[id].blocks| && Reaches(p[id], x)
    decreases fuel
  {
    hide EvalInsts, LeaveBlock, Reaches, FuncBag;
    if fuel == 0 {
    } else {
      var f, g := p[id], q[id];
      assert CleanedBlock(f, b, g.blocks[b], FuncBag(g.blocks));
      var flow := EvalInsts(rt, m, q, fuel - 1, id, g.locals, g.blocks[b].insts, locals, w);
      GoesReached(rt, f, b, flow);
      SameTargets(rt, f.blocks[b], g.blocks[b], f.ret, flow);
      var e := LeaveBlock(rt, g.blocks[b], g.ret, flow);
      if e.Goes? {
        NeverEntersBlanked(rt, m, p, q, fuel - 1, id, e.block, e.locals, e.world);
      }
    }
  }

  lemma SameTargets<W(!new)>(rt: Runtime<W>, a: Block, b: Block, ret: Repr, flow: Flow<W>)
    requires a.term == b.term && a.handler == b.handler
    ensures LeaveBlock(rt, a, ret, flow) == LeaveBlock(rt, b, ret, flow)
  {
  }

  // ---- a run confined to reachable blocks executes no fallible removed instruction ----

  lemma {:induction false} NeverBreaksInsts<W(!new)>(rt: Runtime<W>, p: Program, q: Program, fuel: nat, id: FuncId,
        insts: seq<Inst>, locals: Locals, w: W)
    requires Clean(p, q) && id < |p| && forall i :: 0 <= i < |p| ==> RemovesNoFallible(p[i], q[i])
    requires forall i :: 0 <= i < |insts| ==> !Fallible(p[id], q[id], insts[i])
    ensures EvalInsts(rt, WatchFallible(p, q), p, fuel, id, p[id].locals, insts, locals, w) != Stops(BrokenPromise)
    decreases fuel, 2, |insts|
  {
    hide Compute, EvalFunc, ReadAll, BreaksPromise, Fallible, RemovesNoFallible, Clean;
    if insts == [] {
    } else {
      var m := WatchFallible(p, q);
      if insts[0].Call? {
        NeverBreaks(rt, p, q, fuel, insts[0].func, ReadAll(locals, insts[0].args), w);
      }
      var step := EvalInst(rt, m, p, fuel, id, p[id].locals, insts[0], locals, w);
      if step.Falls? {
        NeverBreaksInsts(rt, p, q, fuel, id, insts[1..], step.locals, step.world);
      }
    }
  }

  lemma NeverBreaksBlock<W(!new)>(rt: Runtime<W>, p: Program, q: Program, fuel: nat, id: FuncId, b: BlockId,
        locals: Locals, w: W)
    requires Clean(p, q) && id < |p| && forall i :: 0 <= i < |p| ==> RemovesNoFallible(p[i], q[i])
    requires Reaches(p[id], b) && b < |p[id].blocks|
    ensures EvalBlock(rt, WatchFallible(p, q), p, fuel, id, b, locals, w) != BrokenPromise
    decreases fuel, 0, 0
  {
    hide EvalInsts, Fallible, LeaveBlock, Reaches, InRange, Cleaned;
    if fuel == 0 {
    } else {
      var f, m := p[id], WatchFallible(p, q);
      NeverBreaksInsts(rt, p, q, fuel - 1, id, f.blocks[b].insts, locals, w);
      var flow := EvalInsts(rt, m, p, fuel - 1, id, f.locals, f.blocks[b].insts, locals, w);
      EndsAsStopped(rt, f.blocks[b], f.ret, flow);
      var e := LeaveBlock(rt, f.blocks[b], f.ret, flow);
      if e.Goes? {
        GoesReached(rt, f, b, flow);
        NeverBreaksBlock(rt, p, q, fuel - 1, id, e.block, e.locals, e.world);
      }
    }
  }

  lemma EndsAsStopped<W(!new)>(rt: Runtime<W>, blk: Block, ret: Repr, flow: Flow<W>)
    ensures LeaveBlock(rt, blk, ret, flow) == Ends(BrokenPromise) ==> flow == Stops(BrokenPromise)
  {
  }

  lemma NeverBreaks<W(!new)>(rt: Runtime<W>, p: Program, q: Program, fuel: nat, id: FuncId, args: seq<Word>, w: W)
    requires Clean(p, q) && forall i :: 0 <= i < |p| ==> RemovesNoFallible(p[i], q[i])
    ensures EvalFunc(rt, WatchFallible(p, q), p, fuel, id, args, w) != BrokenPromise
    decreases fuel, 1, 0
  {
    hide EvalBlock, RemovesNoFallible;
    if id < |p| {
      EntryReached(p[id]);
      NeverBreaksBlock(rt, p, q, fuel, id, p[id].entry, EntryLocals(p[id], args), w);
    }
  }
}
