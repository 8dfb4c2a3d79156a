/**
 The def, use and effect tables the passes trust, checked against what the evaluator does: it takes each operand from
 the instruction's own field and names the local it writes, and never looks at the tables.
 */
module EffectTables {
  import opened Mir
  import opened Semantics

  // ---- what is written, and that nothing else is read ----

  /** The local in the table is the one written. */
  lemma ComputeWrites<W>(rt: Runtime<W>, reprs: seq<Repr>, inst: Inst, locals: Locals, w: W)
    ensures Compute(rt, reprs, inst, locals, w).to == Dst(inst)
  {
  }

  ghost predicate SameAt(a: Locals, b: Locals, ls: seq<LocalId>) {
    forall l :: l in ls ==> Read(a, l) == Read(b, l)
  }

  lemma SameReadAll(a: Locals, b: Locals, ls: seq<LocalId>)
    requires SameAt(a, b, ls)
    ensures ReadAll(a, ls) == ReadAll(b, ls)
    ensures forall j :: ValuesAt(j, a, ls) == ValuesAt(j, b, ls)
  {
  }

  lemma SameCarried(j: Junk, k: RaiseKind, a: Locals, b: Locals)
    requires SameAt(a, b, Operands(Raise(k)))
    ensures Carried(j, k, a) == Carried(j, k, b)
  {
  }

  /** An instruction that is not a call does the same wherever its operands hold the same. */
  lemma OperandsSuffice<W>(rt: Runtime<W>, reprs: seq<Repr>, inst: Inst, a: Locals, b: Locals, w: W)
    requires SameAt(a, b, Operands(inst))
    ensures Compute(rt, reprs, inst, a, w) == Compute(rt, reprs, inst, b, w)
    ensures inst.Call? ==> ReadAll(a, inst.args) == ReadAll(b, inst.args)
  {
    hide RawFloatBin, RawIntBin, TaggedBin, TaggedCmp, TaggedTruthy, CheckedCoerce, UncheckedCoerce, Carried;
    if inst.Call? || inst.CallBuiltin? {
      SameReadAll(a, b, inst.args);
    } else if inst.Raise? {
      SameCarried(rt.junk, inst.exc, a, b);
    }
  }

  // ---- leaving a block ----

  /** Both end alike, or both go to the same block. */
  predicate SameWay<W(==)>(e: Exit<W>, e': Exit<W>) {
    if e.Ends? then e == e' else e'.Goes? && e.block == e'.block
  }

  /** Which way a terminator goes depends on its operands alone. */
  lemma TermOperandsSuffice<W>(rt: Runtime<W>, blk: Block, ret: Repr, a: Locals, b: Locals, w: W)
    requires SameAt(a, b, TermOperands(blk.term))
    ensures SameWay(LeaveBlock(rt, blk, ret, Falls(a, w)), LeaveBlock(rt, blk, ret, Falls(b, w)))
  {
  }

  ghost predicate Takes<W(!new)>(rt: Runtime<W>, blk: Block, ret: Repr, s: BlockId) {
    exists flow :: LeaveBlock(rt, blk, ret, flow).Goes? && LeaveBlock(rt, blk, ret, flow).block == s
  }

  /** The successors listed are exactly the blocks control can leave for, by falling through or by raising. */
  lemma SuccessorsAreTaken<W(!new)>(rt: Runtime<W>, blk: Block, ret: Repr, s: BlockId, w: W)
    ensures s in Successors(blk) <==> Takes(rt, blk, ret, s)
  {
    if s in HandlerSeq(blk) {
      assert LeaveBlock(rt, blk, ret, Throws([], w)).block == s;
    } else if s in TermTargets(blk.term) {
      var cond := if blk.term.Branch? then blk.term.cond else 0;
      var bit := if blk.term.Branch? && s == blk.term.thn then 1 else 0;
      var locals := seq(cond + 1, _ => RawI8(bit));
      assert LeaveBlock(rt, blk, ret, Falls(locals, w)).block == s;
    }
  }
}
