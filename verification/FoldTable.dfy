/**
 The fold table is complete: what it is meant for folds whenever the constants on record decide it, and nothing folds
 that the runtime would have a say in.
 */
module FoldTable {
  import opened Wrappers
  import opened Mir
  import opened BitOps
  import opened Verify
  import opened Analysis
  import opened Semantics
  import opened ConstFold
  import opened ConstFoldMeaning
  import AllocationTable

  // ---- what is on record ----

  /** The instruction at `i` loads the constant and nothing after it writes the local. */
  predicate LastLoad(insts: seq<Inst>, l: LocalId, c: Const, i: nat) {
    i < |insts| && insts[i] == Inst.Const(l, c) && forall j :: i < j < |insts| ==> Dst(insts[j]) != Some(l)
  }

  ghost predicate Loaded(insts: seq<Inst>, l: LocalId, c: Const) {
    exists i: nat :: LastLoad(insts, l, c, i)
  }

  /** The lattice records a constant exactly where loading it was the last write of the local. */
  lemma {:induction false} RecordsLastLoads(insts: seq<Inst>, l: LocalId, c: Const)
    ensures l in EnvThrough(insts, map[]) && EnvThrough(insts, map[])[l] == c <==> Loaded(insts, l, c)
  {
    if insts == [] {
    } else {
      var before, last := insts[..|insts| - 1], insts[|insts| - 1];
      assert insts == before + [last];
      EnvThroughAppend(before, last, map[]);
      RecordsLastLoads(before, l, c);
      if i: nat :| LastLoad(before, l, c, i) && Dst(last) != Some(l) {
        assert LastLoad(insts, l, c, i);
      }
      if last == Inst.Const(l, c) {
        assert LastLoad(insts, l, c, |before|);
      }
      if i: nat :| LastLoad(insts, l, c, i) {
        assert i < |before| ==> LastLoad(before, l, c, i) && Dst(insts[|before|]) != Some(l);
      }
    }
  }

  // ---- what folds ----

  /** The forms the table is for: tagged operators, float ones but division, comparisons and truth tests. */
  predicate Eligible(f: Function, inst: Inst) {
    inst.Compare? || inst.Truthy? || (inst.Unary? && inst.uop.Not?) ||
    (inst.BinOp? && (Has(f, inst.l, Tagged) || (Has(f, inst.l, Raw(F64)) && !inst.op.Div?)))
  }

  predicate Recorded(inst: Inst, env: ConstEnv) {
    forall i :: 0 <= i < |Operands(inst)| ==> Operands(inst)[i] in env
  }

  /** One unboxed word, whatever the runtime, as long as its floats are these. */
  ghost predicate Decided(fp: FloatOps, f: Function, inst: Inst, locals: Locals) {
    exists word: Word :: Unboxed(word) && AlwaysYields(fp, f, inst, locals, word)
  }

  ghost predicate AlwaysYields(fp: FloatOps, f: Function, inst: Inst, locals: Locals, word: Word) {
    forall rt: Runtime<nat>, w: nat :: rt.fp == fp ==> Compute(rt, f.locals, inst, locals, w).effect == Yields(word, w)
  }

  predicate Unboxed(word: Word) {
    word.Fix? || word.RawF64? || word.RawI8?
  }

  /** Nothing folds but these forms, on recorded operands. */
  lemma OnlyEligibleFolds(fp: FloatOps, f: Function, p: seq<Function>, inst: Inst, env: ConstEnv)
    requires VerifyInst(f, p, inst) && FoldInst(fp, inst, env, f.locals).Some?
    ensures Eligible(f, inst) && Recorded(inst, env)
  {
  }

  lemma FoldsToImmediate(fp: FloatOps, f: Function, p: seq<Function>, inst: Inst, env: ConstEnv)
    requires VerifyInst(f, p, inst) && FoldInst(fp, inst, env, f.locals).Some?
    ensures var c := FoldInst(fp, inst, env, f.locals).value;
      c.Const? && Unboxed(ConstWord(c.val, ReprOf(f.locals, c.dst)))
  {
  }

  lemma FoldedIsDecided(fp: FloatOps, f: Function, p: seq<Function>, inst: Inst, env: ConstEnv, locals: Locals)
    requires VerifyInst(f, p, inst) && EnvHolds(env, f.locals, locals) && FoldInst(fp, inst, env, f.locals).Some?
    ensures Decided(fp, f, inst, locals)
  {
    hide FoldInst, VerifyInst, EnvHolds, Compute, ConstWord;
    FoldsToImmediate(fp, f, p, inst, env);
    var c := FoldInst(fp, inst, env, f.locals).value;
    var word := ConstWord(c.val, ReprOf(f.locals, c.dst));
    forall rt: Runtime<nat>, w: nat | rt.fp == fp
      ensures Compute(rt, f.locals, inst, locals, w).effect == Yields(word, w)
    {
      FoldsRight(rt, f, p, inst, env, locals, w);
    }
    assert AlwaysYields(fp, f, inst, locals, word);
  }

  // ---- what does not ----

  function Raising(fp: FloatOps): Runtime<nat> {
    AllocationTable.Stamped(1).(fp := fp)
  }

  /** Under the runtime that raises wherever it can, the instruction raises or makes a boxed integer. */
  ghost predicate Resists(fp: FloatOps, f: Function, inst: Inst, locals: Locals) {
    var e := Compute(Raising(fp), f.locals, inst, locals, 0).effect;
    !e.Yields? || !Unboxed(e.word)
  }

  lemma OperatorResists(fp: FloatOps, f: Function, p: seq<Function>, inst: Inst, env: ConstEnv, locals: Locals)
    requires VerifyInst(f, p, inst) && EnvHolds(env, f.locals, locals) && inst.BinOp?
    requires Eligible(f, inst) && inst.l in env && inst.r in env && FoldInst(fp, inst, env, f.locals).None?
    ensures Resists(fp, f, inst, locals)
  {
    hide Bitwise, I64Op, RawIntBin, RawFloatBin, TaggedBin;
    var a, b := ConstWord(env[inst.l], Tagged), ConstWord(env[inst.r], Tagged);
    TaggedResists(fp, inst.op, env[inst.l], env[inst.r]);
  }

  /** Constants the table leaves to the runtime: not both integers, another operator, or too large a result. */
  lemma TaggedResists(fp: FloatOps, op: BinaryOp, a: Const, b: Const)
    requires ConstFitsRepr(a, Tagged) && ConstFitsRepr(b, Tagged)
    requires a.IntLit? && b.IntLit? && FoldInts(op, a.n, b.n).Some? ==> !Tagging.IntFits(FoldInts(op, a.n, b.n).value)
    ensures IsValue(ConstWord(a, Tagged)) && IsValue(ConstWord(b, Tagged))
    ensures var o := TaggedBin(Raising(fp), op, ConstWord(a, Tagged), ConstWord(b, Tagged), 0);
      o.Done? ==> !Unboxed(o.value)
  {
    hide IntOp, FoldInts, TaggedBin, Raising, Unboxed, Tagging.IntFits;
    if a.IntLit? && b.IntLit? {
      IntsResist(op, a.n, b.n);
      IntegersResist(fp, op, a.n, b.n);
    } else {
      OthersResist(fp, op, ConstWord(a, Tagged), ConstWord(b, Tagged));
    }
  }

  lemma OthersResist(fp: FloatOps, op: BinaryOp, a: Value, b: Value)
    requires AsInt(a).None? || AsInt(b).None?
    ensures TaggedBin(Raising(fp), op, a, b, 0).Raised?
  {
    hide IntOp;
  }

  lemma IntegersResist(fp: FloatOps, op: BinaryOp, a: I64, b: I64)
    requires IntOp(op, a, b).Some? ==> !Tagging.IntFits(IntOp(op, a, b).value)
    ensures var o := TaggedBin(Raising(fp), op, IntValue(a), IntValue(b), 0); o.Done? ==> !Unboxed(o.value)
  {
    hide IntOp;
    assert AsInt(IntValue(a)) == Some(a as int) && AsInt(IntValue(b)) == Some(b as int);
  }

  /** What does not fold on machine integers has no value in the runtime's own table, or a boxed one. */
  lemma IntsResist(op: BinaryOp, a: I64, b: I64)
    requires FoldInts(op, a, b).Some? ==> !Tagging.IntFits(FoldInts(op, a, b).value)
    ensures IntOp(op, a, b).Some? ==> !Tagging.IntFits(IntOp(op, a, b).value)
  {
    hide Bitwise, I64Op;
    if FoldInts(op, a, b).Some? {
      FoldIntsIsIntOp(op, a, b);
    }
  }

  lemma CompareResists(fp: FloatOps, f: Function, p: seq<Function>, inst: Inst, env: ConstEnv, locals: Locals)
    requires VerifyInst(f, p, inst) && EnvHolds(env, f.locals, locals) && inst.Compare?
    requires inst.l in env && inst.r in env && FoldInst(fp, inst, env, f.locals).None?
    ensures Resists(fp, f, inst, locals)
  {
    hide CmpInt;
  }

  lemma TruthResists(fp: FloatOps, f: Function, p: seq<Function>, inst: Inst, env: ConstEnv, locals: Locals)
    requires VerifyInst(f, p, inst) && EnvHolds(env, f.locals, locals) && (inst.Truthy? || inst.Unary?)
    requires Eligible(f, inst) && inst.operand in env && FoldInst(fp, inst, env, f.locals).None?
    ensures Resists(fp, f, inst, locals)
  {
  }

  /**
   Among what it is for, an instruction with constant operands on record folds exactly when they decide it: it then
   yields one unboxed word under every runtime with the same floating point.
   */
  lemma FoldsWhatIsDecided(fp: FloatOps, f: Function, p: seq<Function>, inst: Inst, env: ConstEnv, locals: Locals)
    requires VerifyInst(f, p, inst) && EnvHolds(env, f.locals, locals) && Eligible(f, inst) && Recorded(inst, env)
    ensures FoldInst(fp, inst, env, f.locals).Some? <==> Decided(fp, f, inst, locals)
  {
    hide FoldInst, VerifyInst, EnvHolds, Compute, Decided;
    if FoldInst(fp, inst, env, f.locals).Some? {
      FoldedIsDecided(fp, f, p, inst, env, locals);
    } else {
      if inst.BinOp? || inst.Compare? {
        assert Operands(inst)[0] in env && Operands(inst)[1] in env;
      } else {
        assert Operands(inst)[0] in env;
      }
      if inst.BinOp? {
        OperatorResists(fp, f, p, inst, env, locals);
      } else if inst.Compare? {
        CompareResists(fp, f, p, inst, env, locals);
      } else {
        TruthResists(fp, f, p, inst, env, locals);
      }
      ResistingIsUndecided(fp, f, inst, locals);
    }
  }

  lemma ResistingIsUndecided(fp: FloatOps, f: Function, inst: Inst, locals: Locals)
    requires Resists(fp, f, inst, locals)
    ensures !Decided(fp, f, inst, locals)
  {
    hide Compute;
    var e := Compute(Raising(fp), f.locals, inst, locals, 0).effect;
    if word :| Unboxed(word) && AlwaysYields(fp, f, inst, locals, word) {
      assert Raising(fp).fp == fp;
    }
  }
}
