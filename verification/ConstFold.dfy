/** Constant folding: a block-local forward scan with a strict allowlist. */
module ConstFold {
  import opened Wrappers
  import opened Mir
  import opened BitOps
  import opened Analysis
  import opened Semantics

  /** `checked_add` and its siblings: nothing on 64-bit overflow. */
  function Checked(n: int): Option<I64> {
    if InI64(n) then Some(n) else None
  }

  /** Operators that may fold on two machine integers; raising and in-place ones never do. */
  function FoldInts(op: BinaryOp, a: I64, b: I64): Option<I64> {
    match op
    case Add => Checked(a + b)
    case Sub => Checked(a - b)
    case Mul => Checked(a * b)
    case BitAnd => Some(I64Op(AndT, a, b))
    case BitOr => Some(I64Op(OrT, a, b))
    case BitXor => Some(I64Op(XorT, a, b))
    case _ => None
  }

  function FoldFloats(fp: FloatOps, op: BinaryOp, a: Ieee, b: Ieee): Option<Ieee> {
    match op
    case Add => Some(fp.add(a, b))
    case Sub => Some(fp.sub(a, b))
    case Mul => Some(fp.mul(a, b))
    case _ => None
  }

  function FoldBinOp(fp: FloatOps, dst: LocalId, repr: Repr, op: BinaryOp, lc: Const, rc: Const): Option<Inst> {
    match (lc, rc)
    case (IntLit(a), IntLit(b)) =>
      if repr == Tagged && FoldInts(op, a, b).Some? && Tagging.IntFits(FoldInts(op, a, b).value)
      then Some(Inst.Const(dst, IntLit(FoldInts(op, a, b).value))) else None
    case (FloatLit(a), FloatLit(b)) =>
      if repr == Raw(F64) && FoldFloats(fp, op, a, b).Some?
      then Some(Inst.Const(dst, FloatLit(FoldFloats(fp, op, a, b).value))) else None
    case _ => None
  }

  function FoldCompare(fp: FloatOps, op: CmpOp, lc: Const, rc: Const): Option<bool> {
    match (lc, rc)
    case (IntLit(a), IntLit(b)) => Some(CmpInt(op, a, b))
    case (FloatLit(a), FloatLit(b)) => Some(fp.cmp(op, a, b))
    case (BoolLit(a), BoolLit(b)) => Some(CmpInt(op, BoolInt(a), BoolInt(b)))
    case _ => None
  }

  /** Truthiness of a scalar; heap literals are left to the runtime. */
  function ConstTruthiness(fp: FloatOps, c: Const): Option<bool> {
    match c
    case IntLit(n) => Some(n != 0)
    case FloatLit(x) => Some(fp.cmp(NotEq, x, fp.zero))
    case BoolLit(b) => Some(b)
    case NoneLit => Some(false)
    case _ => None
  }

  function BitConst(dst: LocalId, b: Option<bool>): Option<Inst> {
    if b.Some? then Some(Inst.Const(dst, IntLit(BitVal(b.value)))) else None
  }

  function FoldInst(fp: FloatOps, inst: Inst, env: ConstEnv, reprs: seq<Repr>): Option<Inst> {
    match inst
    case BinOp(dst, op, l, r) =>
      if l in env && r in env then FoldBinOp(fp, dst, ReprOf(reprs, dst), op, env[l], env[r]) else None
    case Compare(dst, op, l, r) =>
      if ReprOf(reprs, dst) == Raw(I8) && l in env && r in env
      then BitConst(dst, FoldCompare(fp, op, env[l], env[r])) else None
    case Truthy(dst, o) =>
      if o in env then BitConst(dst, ConstTruthiness(fp, env[o])) else None
    case Unary(dst, Not, o) =>
      if ReprOf(reprs, dst) == Raw(I8) && o in env && ConstTruthiness(fp, env[o]).Some?
      then BitConst(dst, Some(!ConstTruthiness(fp, env[o]).value)) else None
    case _ => None
  }

  function Folded(fp: FloatOps, inst: Inst, env: ConstEnv, reprs: seq<Repr>): Inst {
    match FoldInst(fp, inst, env, reprs)
    case Some(i) => i
    case None => inst
  }

  /** The whole scan: each instruction is folded in the environment its predecessors left. */
  function FoldInsts(fp: FloatOps, insts: seq<Inst>, env: ConstEnv, reprs: seq<Repr>): seq<Inst> {
    if insts == [] then []
    else
      var inst := Folded(fp, insts[0], env, reprs);
      [inst] + FoldInsts(fp, insts[1..], EnvAfter(env, inst), reprs)
  }

  function EnvThrough(insts: seq<Inst>, env: ConstEnv): ConstEnv {
    if insts == [] then env else EnvThrough(insts[1..], EnvAfter(env, insts[0]))
  }

  /** A branch on a known constant becomes a jump. */
  function FoldTerm(t: Terminator, env: ConstEnv): Terminator {
    match t
    case Branch(c, thn, els) =>
      if c in env && env[c].IntLit? then Jump(if env[c].n != 0 then thn else els) else t
    case _ => t
  }

  function FoldBlock(fp: FloatOps, b: Block, reprs: seq<Repr>): Block {
    var insts := FoldInsts(fp, b.insts, map[], reprs);
    Block(insts, FoldTerm(b.term, EnvThrough(insts, map[])), b.handler)
  }

  function FoldFunc(fp: FloatOps, f: Function): Function {
    f.(blocks := seq(|f.blocks|, b requires 0 <= b < |f.blocks| => FoldBlock(fp, f.blocks[b], f.locals)))
  }

  // ---- the pass, in place ----

  lemma {:induction false} EnvThroughAppend(insts: seq<Inst>, inst: Inst, env: ConstEnv)
    ensures EnvThrough(insts + [inst], env) == EnvAfter(EnvThrough(insts, env), inst)
  {
    if insts != [] {
      assert (insts + [inst])[1..] == insts[1..] + [inst];
      EnvThroughAppend(insts[1..], inst, EnvAfter(env, insts[0]));
    } else {
      assert [inst][1..] == [];
    }
  }

  lemma {:induction false} FoldInstsAppend(fp: FloatOps, insts: seq<Inst>, inst: Inst, env: ConstEnv, reprs: seq<Repr>)
    ensures FoldInsts(fp, insts + [inst], env, reprs) ==
      FoldInsts(fp, insts, env, reprs) +
      [Folded(fp, inst, EnvThrough(FoldInsts(fp, insts, env, reprs), env), reprs)]
  {
    if insts != [] {
      assert (insts + [inst])[1..] == insts[1..] + [inst];
      FoldInstsAppend(fp, insts[1..], inst, EnvAfter(env, Folded(fp, insts[0], env, reprs)), reprs);
    } else {
      assert [inst][1..] == [];
    }
  }

  /** One block: rewrite each instruction, then update the lattice from the rewritten one. */
  method FoldOneBlock(fp: FloatOps, b: Block, reprs: seq<Repr>) returns (r: Block)
    ensures r == FoldBlock(fp, b, reprs)
  {
    hide Folded, EnvAfter;
    var env := new ConstLattice();
    var insts: seq<Inst> := [];
    for i := 0 to |b.insts|
      invariant insts == FoldInsts(fp, b.insts[..i], map[], reprs)
      invariant env.consts == EnvThrough(insts, map[])
    {
      FoldInstsAppend(fp, b.insts[..i], b.insts[i], map[], reprs);
      assert b.insts[..i + 1] == b.insts[..i] + [b.insts[i]];
      var inst := Folded(fp, b.insts[i], env.consts, reprs);
      EnvThroughAppend(insts, inst, map[]);
      insts := insts + [inst];
      UpdateLattice(env, inst);
    }
    assert b.insts[..|b.insts|] == b.insts;
    var term := b.term;
    if term.Branch? {
      var known := env.Get(term.cond);
      if known.Some? && known.value.IntLit? {
        term := Jump(if known.value.n != 0 then term.thn else term.els);
      }
    }
    r := Block(insts, term, b.handler);
  }

  method UpdateLattice(env: ConstLattice, inst: Inst)
    modifies env
    ensures env.consts == EnvAfter(old(env.consts), inst)
  {
    if inst.Const? {
      env.Set(inst.dst, inst.val);
    } else if Dst(inst).Some? {
      env.Kill(Dst(inst).value);
    }
  }

  method RunFunc(fp: FloatOps, f: Function) returns (g: Function)
    ensures g == FoldFunc(fp, f)
  {
    g := f;
    for b := 0 to |f.blocks|
      invariant g == f.(blocks := g.blocks) && |g.blocks| == |f.blocks|
      invariant forall c :: 0 <= c < b ==> g.blocks[c] == FoldBlock(fp, f.blocks[c], f.locals)
      invariant forall c :: b <= c < |f.blocks| ==> g.blocks[c] == f.blocks[c]
    {
      var blk := FoldOneBlock(fp, g.blocks[b], f.locals);
      g := g.(blocks := g.blocks[b := blk]);
    }
    assert g.blocks == FoldFunc(fp, f).blocks;
  }

  // ---- folding twice folds nothing more ----

  lemma FoldedIsStable(fp: FloatOps, inst: Inst, env: ConstEnv, reprs: seq<Repr>)
    ensures Folded(fp, Folded(fp, inst, env, reprs), env, reprs) == Folded(fp, inst, env, reprs)
  {
  }

  lemma {:induction false} FoldInstsIdempotent(fp: FloatOps, insts: seq<Inst>, env: ConstEnv, reprs: seq<Repr>)
    ensures FoldInsts(fp, FoldInsts(fp, insts, env, reprs), env, reprs) == FoldInsts(fp, insts, env, reprs)
  {
    if insts == [] {
    } else {
      var inst := Folded(fp, insts[0], env, reprs);
      var once := FoldInsts(fp, insts, env, reprs);
      FoldedIsStable(fp, insts[0], env, reprs);
      FoldInstsIdempotent(fp, insts[1..], EnvAfter(env, inst), reprs);
      assert once[1..] == FoldInsts(fp, insts[1..], EnvAfter(env, inst), reprs);
    }
  }

  lemma FoldBlockIdempotent(fp: FloatOps, b: Block, reprs: seq<Repr>)
    ensures FoldBlock(fp, FoldBlock(fp, b, reprs), reprs) == FoldBlock(fp, b, reprs)
  {
    FoldInstsIdempotent(fp, b.insts, map[], reprs);
  }

  lemma FoldIdempotent(fp: FloatOps, f: Function)
    ensures FoldFunc(fp, FoldFunc(fp, f)) == FoldFunc(fp, f)
  {
    var once := FoldFunc(fp, f);
    forall b | 0 <= b < |f.blocks|
      ensures FoldFunc(fp, once).blocks[b] == once.blocks[b]
    {
      FoldBlockIdempotent(fp, f.blocks[b], f.locals);
    }
    assert FoldFunc(fp, once).blocks == once.blocks;
  }
}
