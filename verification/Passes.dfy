/** What both passes keep: verification, the side conditions of the other theorems, and the root set. */
module Passes {
  import opened Wrappers
  import opened Mir
  import opened LivenessSpec
  import opened Verify
  import opened Analysis
  import opened Semantics
  import Dce
  import DceMeaning
  import opened ConstFoldMeaning
  import GcMachine
  import GcSafety

  /** Callers see the same parameter and return representations. */
  ghost predicate SameSignatures(p: seq<Function>, q: seq<Function>) {
    |p| == |q| && forall i :: 0 <= i < |p| ==> p[i].params == q[i].params && p[i].ret == q[i].ret
  }

  /** Rewriting blocks leaves everything the per-instruction rules look at alone. */
  lemma SameRules(f: Function, g: Function, p: seq<Function>, q: seq<Function>, inst: Inst)
    requires SameSignatures(p, q) && g == f.(blocks := g.blocks) && |g.blocks| == |f.blocks|
    ensures VerifyInst(f, p, inst) <==> VerifyInst(g, q, inst)
    ensures forall t :: VerifyTerm(f, t) <==> VerifyTerm(g, t)
  {
    forall l, r
      ensures Has(f, l, r) <==> Has(g, l, r)
    {
    }
  }

  lemma VerifiedFromBlocks(f: Function, g: Function, p: seq<Function>, q: seq<Function>)
    requires Verified(f, p) && SameSignatures(p, q) && g == f.(blocks := g.blocks) && |g.blocks| == |f.blocks|
    requires forall b :: 0 <= b < |f.blocks| ==> VerifyBlock(g, q, b)
    ensures Verified(g, q)
  {
  }

  // ---- dead-code elimination ----

  ghost predicate DivergesLast(insts: seq<Inst>, t: Terminator) {
    forall i :: 0 <= i < |insts| && Diverges(insts[i]) ==> i + 1 == |insts| && t.Unreachable?
  }

  lemma {:induction false} DropsKeepsShape(f: Function, p: seq<Function>, insts: seq<Inst>, kept: seq<Inst>,
        t: Terminator, bag: multiset<LocalId>)
    requires Dce.Drops(insts, kept, f.locals, bag) && DivergesLast(insts, t)
    requires forall i :: 0 <= i < |insts| ==> VerifyInst(f, p, insts[i])
    ensures DivergesLast(kept, t)
    ensures forall i :: 0 <= i < |kept| ==> VerifyInst(f, p, kept[i])
  {
    hide VerifyInst, Dst;
    if insts == [] {
    } else {
      forall i | 0 <= i < |insts[1..]|
        ensures VerifyInst(f, p, insts[1..][i])
        ensures Diverges(insts[1..][i]) ==> i + 1 == |insts[1..]| && t.Unreachable?
      {
        assert insts[1..][i] == insts[i + 1];
      }
      if kept != [] && kept[0] == insts[0] && Dce.Drops(insts[1..], kept[1..], f.locals, bag) {
        DropsKeepsShape(f, p, insts[1..], kept[1..], t, bag);
        if Diverges(insts[0]) {
          Dce.DropsShrinks(insts[1..], kept[1..], f.locals, bag);
        }
        forall i | 0 <= i < |kept|
          ensures VerifyInst(f, p, kept[i])
          ensures Diverges(kept[i]) ==> i + 1 == |kept| && t.Unreachable?
        {
          assert i > 0 ==> kept[i] == kept[1..][i - 1];
        }
      } else {
        DropsKeepsShape(f, p, insts[1..], kept, t, bag);
      }
    }
  }

  lemma CleanedBlockVerifies(f: Function, g: Function, p: seq<Function>, q: seq<Function>, b: BlockId)
    requires Verified(f, p) && SameSignatures(p, q) && Dce.Cleaned(f, g) && b < |f.blocks|
    ensures VerifyBlock(g, q, b)
  {
    hide VerifyInst, Dce.Drops, FuncBag;
    var blk := f.blocks[b];
    assert VerifyBlock(f, p, b);
    assert Dce.CleanedBlock(f, b, g.blocks[b], FuncBag(g.blocks));
    if Reaches(f, b) {
      DropsKeepsShape(f, p, blk.insts, g.blocks[b].insts, blk.term, FuncBag(g.blocks));
    }
    forall i | 0 <= i < |g.blocks[b].insts|
      ensures VerifyInst(g, q, g.blocks[b].insts[i])
    {
      SameRules(f, g, p, q, g.blocks[b].insts[i]);
    }
    SameRules(f, g, p, q, AssertFail);
  }

  /** A verified program is still verified after the sweep. */
  lemma {:induction false} DceKeepsVerified(p: seq<Function>, q: seq<Function>)
    requires VerifiedProgram(p)
    requires |q| == |p| && forall i :: 0 <= i < |p| ==> Dce.Cleaned(p[i], q[i])
    ensures VerifiedProgram(q)
  {
    forall i | 0 <= i < |q|
      ensures Verified(q[i], q)
    {
      forall b | 0 <= b < |p[i].blocks|
        ensures VerifyBlock(q[i], q, b)
      {
        CleanedBlockVerifies(p[i], q[i], p, q, b);
      }
      VerifiedFromBlocks(p[i], q[i], p, q);
    }
  }

  lemma {:induction false} DropsIsSubset(insts: seq<Inst>, kept: seq<Inst>, reprs: seq<Repr>, bag: multiset<LocalId>,
        i: nat) returns (j: nat)
    requires Dce.Drops(insts, kept, reprs, bag) && i < |kept|
    ensures j < |insts| && insts[j] == kept[i]
  {
    if kept[0] == insts[0] && Dce.Drops(insts[1..], kept[1..], reprs, bag) {
      if i == 0 {
        j := 0;
      } else {
        j := DropsIsSubset(insts[1..], kept[1..], reprs, bag, i - 1);
        j := j + 1;
      }
    } else {
      j := DropsIsSubset(insts[1..], kept, reprs, bag, i);
      j := j + 1;
    }
  }

  /** The sweep adds no instruction, and so no boxed constant. */
  lemma DceKeepsConstants(f: Function, g: Function, b: BlockId, i: nat)
    requires Dce.Cleaned(f, g) && b < |g.blocks| && i < |g.blocks[b].insts|
    ensures exists j :: 0 <= j < |f.blocks[b].insts| && f.blocks[b].insts[j] == g.blocks[b].insts[i]
  {
    hide FuncBag;
    assert Dce.CleanedBlock(f, b, g.blocks[b], FuncBag(g.blocks));
    var j := DropsIsSubset(f.blocks[b].insts, g.blocks[b].insts, f.locals, FuncBag(g.blocks), i);
  }

  lemma {:induction false} DceKeepsImmediates(p: seq<Function>, q: seq<Function>)
    requires GcSafety.ConstsAreImmediate(p)
    requires |q| == |p| && forall i :: 0 <= i < |p| ==> Dce.Cleaned(p[i], q[i])
    ensures GcSafety.ConstsAreImmediate(q)
  {
    hide GcMachine.BoxesConst;
    forall i, b, k | 0 <= i < |q| && 0 <= b < |q[i].blocks| && 0 <= k < |q[i].blocks[b].insts|
      ensures !GcMachine.BoxesConst(q[i].blocks[b].insts[k], q[i].locals)
    {
      DceKeepsConstants(p[i], q[i], b, k);
    }
  }

  // ---- cleaning never adds roots ----

  lemma {:induction false} BagHasUses(insts: seq<Inst>, i: nat, l: LocalId)
    requires i < |insts| && l in Uses(insts[i])
    ensures InstsBag(insts)[l] > 0
  {
    if i == 0 {
      assert multiset(Operands(insts[0]))[l] > 0;
    } else {
      BagHasUses(insts[1..], i - 1, l);
    }
  }

  /** For a local that is still read, dropping dead instructions loses uses but never a definition. */
  lemma {:induction false} DropsKeepsDefs(insts: seq<Inst>, kept: seq<Inst>, reprs: seq<Repr>,
        bag: multiset<LocalId>, l: LocalId)
    requires Dce.Drops(insts, kept, reprs, bag) && bag[l] > 0
    ensures l in Defs(insts) <==> l in Defs(kept)
  {
    if insts == [] {
    } else {
      if kept != [] && kept[0] == insts[0] && Dce.Drops(insts[1..], kept[1..], reprs, bag) {
        DropsKeepsDefs(insts[1..], kept[1..], reprs, bag, l);
      } else {
        DropsKeepsDefs(insts[1..], kept, reprs, bag, l);
      }
    }
  }

  lemma {:induction false} DropsShrinksLive(insts: seq<Inst>, kept: seq<Inst>, reprs: seq<Repr>, bag: multiset<LocalId>,
                                            out: set<LocalId>, out': set<LocalId>, l: LocalId)
    requires Dce.Drops(insts, kept, reprs, bag) && bag[l] > 0
    requires l in out' ==> l in out
    ensures l in LiveThrough(kept, out') ==> l in LiveThrough(insts, out)
  {
    if insts == [] {
    } else {
      if kept != [] && kept[0] == insts[0] && Dce.Drops(insts[1..], kept[1..], reprs, bag) {
        DropsShrinksLive(insts[1..], kept[1..], reprs, bag, out, out', l);
      } else {
        DropsShrinksLive(insts[1..], kept, reprs, bag, out, out', l);
      }
    }
  }

  /** A local live at some block of the cleaned function is still read there. */
  lemma LiveIsRead(g: Function, path: seq<BlockId>, l: LocalId)
    requires LivePath(g, path, l)
    ensures FuncBag(g.blocks)[l] > 0
  {
    var b := path[|path| - 1];
    var blk := g.blocks[b];
    DceMeaning.BlockReads(g.blocks, b);
    LiveThroughMeaning(blk.insts, TermUses(blk.term), l);
    if l in TermUses(blk.term) {
      assert multiset(TermOperands(blk.term))[l] > 0;
    }
    if i: nat :| ReadsFirst(blk.insts, i, l) {
      BagHasUses(blk.insts, i, l);
    }
  }

  lemma CleanedEdge(f: Function, g: Function, b: BlockId, s: BlockId)
    requires Dce.Cleaned(f, g) && Edge(g, b, s)
    ensures Edge(f, b, s)
    ensures Reaches(f, b) ==> Reaches(f, s)
  {
    hide FuncBag, Dce.Drops;
    assert Dce.CleanedBlock(f, b, g.blocks[b], FuncBag(g.blocks));
    if Reaches(f, b) {
      ReachesStep(f, b, s);
    }
  }

  /** A live path of the cleaned function is one of the original. */
  lemma CleanedPath(f: Function, g: Function, path: seq<BlockId>, l: LocalId)
    requires Dce.Cleaned(f, g) && LivePath(g, path, l)
    ensures LivePath(f, path, l)
  {
    hide FuncBag, Dce.Drops, LiveThrough, Defs;
    LiveIsRead(g, path, l);
    var bag := FuncBag(g.blocks);
    forall i | 0 <= i < |path| - 1
      ensures Edge(f, path[i], path[i + 1]) && l !in Defs(f.blocks[path[i]].insts)
    {
      CleanedEdge(f, g, path[i], path[i + 1]);
      CleanedDefs(f, g, path[i], l);
    }
    CleanedUse(f, g, path[|path| - 1], l);
  }

  lemma CleanedDefs(f: Function, g: Function, b: BlockId, l: LocalId)
    requires Dce.Cleaned(f, g) && b < |f.blocks| && FuncBag(g.blocks)[l] > 0
    requires Reaches(f, b) || exists s :: Edge(g, b, s)
    ensures l in Defs(f.blocks[b].insts) ==> l in Defs(g.blocks[b].insts)
  {
    hide FuncBag;
    assert Dce.CleanedBlock(f, b, g.blocks[b], FuncBag(g.blocks));
    if Reaches(f, b) {
      DropsKeepsDefs(f.blocks[b].insts, g.blocks[b].insts, f.locals, FuncBag(g.blocks), l);
    } else {
      assert Dce.IsBlank(g.blocks[b]);
      assert g.blocks[b].handler.Some?;
    }
  }

  lemma CleanedUse(f: Function, g: Function, b: BlockId, l: LocalId)
    requires Dce.Cleaned(f, g) && b < |f.blocks| && FuncBag(g.blocks)[l] > 0
    ensures l in BlockUse(g.blocks[b]) ==> l in BlockUse(f.blocks[b])
  {
    hide FuncBag;
    assert Dce.CleanedBlock(f, b, g.blocks[b], FuncBag(g.blocks));
    if Reaches(f, b) {
      DropsShrinksLive(f.blocks[b].insts, g.blocks[b].insts, f.locals, FuncBag(g.blocks),
                       TermUses(f.blocks[b].term), TermUses(g.blocks[b].term), l);
    }
  }

  lemma CleanedLiveOut(f: Function, g: Function, b: BlockId, l: LocalId)
    requires Dce.Cleaned(f, g) && b < |f.blocks| && l in LiveOut(g, b)
    ensures l in LiveOut(f, b)
    ensures FuncBag(g.blocks)[l] > 0
  {
    hide FuncBag, Dce.Drops, Dce.CleanedBlock;
    var s: BlockId :| Edge(g, b, s) && LiveFrom(g, s, l);
    var path :| LivePath(g, path, l) && path[0] == s;
    LiveIsRead(g, path, l);
    CleanedPath(f, g, path, l);
    CleanedEdge(f, g, b, s);
  }

  /** Instruction `i` of the kept list, found in the original list with its remainder aligned. */
  lemma {:induction false} DropsAlign(insts: seq<Inst>, kept: seq<Inst>, reprs: seq<Repr>, bag: multiset<LocalId>,
        i: nat) returns (j: nat)
    requires Dce.Drops(insts, kept, reprs, bag) && i < |kept|
    ensures j < |insts| && insts[j] == kept[i]
    ensures Dce.Drops(insts[j + 1..], kept[i + 1..], reprs, bag)
  {
    hide Dce.Removable;
    if kept[0] == insts[0] && Dce.Drops(insts[1..], kept[1..], reprs, bag) {
      if i == 0 {
        j := 0;
      } else {
        j := DropsAlign(insts[1..], kept[1..], reprs, bag, i - 1);
        assert insts[1..][j + 1..] == insts[j + 2..] && kept[1..][i..] == kept[i + 1..];
        j := j + 1;
      }
    } else {
      j := DropsAlign(insts[1..], kept, reprs, bag, i);
      assert insts[1..][j + 1..] == insts[j + 2..];
      j := j + 1;
    }
  }

  lemma {:induction false} LiveThroughIsRead(insts: seq<Inst>, out: set<LocalId>, l: LocalId)
    requires l in LiveThrough(insts, out)
    ensures l in out || InstsBag(insts)[l] > 0
  {
    if insts == [] {
    } else {
      if l in Uses(insts[0]) {
        assert multiset(Operands(insts[0]))[l] > 0;
      } else {
        LiveThroughIsRead(insts[1..], out, l);
      }
    }
  }

  lemma SuffixBag(insts: seq<Inst>, i: nat)
    requires i <= |insts|
    ensures InstsBag(insts[i..]) <= InstsBag(insts)
  {
    hide InstsBag;
    InstsBagAppend(insts[..i], insts[i..]);
    assert insts[..i] + insts[i..] == insts;
  }

  /** A local live inside a cleaned block is read somewhere in the cleaned function. */
  lemma LiveAtIsRead(f: Function, g: Function, b: BlockId, i: nat, l: LocalId)
    requires Dce.Cleaned(f, g) && b < |g.blocks| && i <= |g.blocks[b].insts| && l in LiveAt(g, b, i)
    ensures FuncBag(g.blocks)[l] > 0
  {
    hide FuncBag, LiveOut, Dce.CleanedBlock;
    var blk := g.blocks[b];
    DceMeaning.BlockReads(g.blocks, b);
    SuffixBag(blk.insts, i);
    LiveThroughIsRead(blk.insts[i..], TermUses(blk.term) + LiveOut(g, b), l);
    if l in TermUses(blk.term) {
      assert multiset(TermOperands(blk.term))[l] > 0;
    } else if l in LiveOut(g, b) {
      CleanedLiveOut(f, g, b, l);
    }
  }

  lemma CleanedCrossing(f: Function, g: Function, b: BlockId, i: nat, l: LocalId)
    requires Dce.Cleaned(f, g) && CrossesAllocation(g, b, i, l)
    ensures exists j: nat :: CrossesAllocation(f, b, j, l)
  {
    hide FuncBag, LiveOut, MayAllocate;
    var blk, blk' := f.blocks[b], g.blocks[b];
    var bag := FuncBag(g.blocks);
    assert Dce.CleanedBlock(f, b, blk', bag);
    var j := DropsAlign(blk.insts, blk'.insts, f.locals, bag, i);
    if l in LiveAt(g, b, i + 1) {
      LiveAtIsRead(f, g, b, i + 1, l);
      if l in LiveOut(g, b) {
        CleanedLiveOut(f, g, b, l);
      }
      DropsShrinksLive(blk.insts[j + 1..], blk'.insts[i + 1..], f.locals, bag,
                       TermUses(blk.term) + LiveOut(f, b), TermUses(blk'.term) + LiveOut(g, b), l);
    }
    assert CrossesAllocation(f, b, j, l);
  }

  /** Cleaning never adds roots: every root of the cleaned function was one before. */
  lemma {:induction false} DceNeverAddsRoots(f: Function, g: Function, l: LocalId)
    requires Dce.Cleaned(f, g) && NeedsRoot(g, l)
    ensures NeedsRoot(f, l)
  {
    hide FuncBag, MayAllocate, LiveAt, LiveFrom;
    if b: BlockId, i: nat :| CrossesAllocation(g, b, i, l) {
      CleanedCrossing(f, g, b, i, l);
    } else {
      var b: BlockId :| LiveAtHandler(g, b, l);
      var h := g.blocks[b].handler.value;
      assert Dce.CleanedBlock(f, b, g.blocks[b], FuncBag(g.blocks));
      LiveFromCleaned(f, g, h, l);
      assert LiveAtHandler(f, b, l);
    }
  }

  lemma LiveFromCleaned(f: Function, g: Function, b: BlockId, l: LocalId)
    requires Dce.Cleaned(f, g) && LiveFrom(g, b, l)
    ensures LiveFrom(f, b, l)
  {
    hide FuncBag, Dce.Cleaned;
    var path :| LivePath(g, path, l) && path[0] == b;
    CleanedPath(f, g, path, l);
  }

  // ---- constant folding ----

  /** What the verifier knows of a lattice: every constant fits its local. */
  ghost predicate EnvFits(env: ConstEnv, reprs: seq<Repr>) {
    forall l :: l in env ==> l < |reprs| && ConstFitsRepr(env[l], reprs[l])
  }

  lemma FoldedInstVerifies(fp: FloatOps, f: Function, p: seq<Function>, inst: Inst, env: ConstEnv)
    requires VerifyInst(f, p, inst) && EnvFits(env, f.locals)
    ensures VerifyInst(f, p, ConstFold.Folded(fp, inst, env, f.locals))
    ensures Diverges(inst) <==> Diverges(ConstFold.Folded(fp, inst, env, f.locals))
    ensures !GcMachine.BoxesConst(inst, f.locals) ==>
      !GcMachine.BoxesConst(ConstFold.Folded(fp, inst, env, f.locals), f.locals)
  {
    hide ConstFold.FoldInts;
  }

  lemma EnvStaysFit(f: Function, p: seq<Function>, inst: Inst, env: ConstEnv)
    requires VerifyInst(f, p, inst) && EnvFits(env, f.locals)
    ensures EnvFits(EnvAfter(env, inst), f.locals)
  {
  }

  lemma {:induction false} FoldedInstsVerify(fp: FloatOps, f: Function, p: seq<Function>, insts: seq<Inst>,
        env: ConstEnv, i: nat)
    requires VerifyInsts(f, p, insts) && EnvFits(env, f.locals) && i < |insts|
    ensures |ConstFold.FoldInsts(fp, insts, env, f.locals)| == |insts|
    ensures VerifyInst(f, p, ConstFold.FoldInsts(fp, insts, env, f.locals)[i])
    ensures Diverges(insts[i]) <==> Diverges(ConstFold.FoldInsts(fp, insts, env, f.locals)[i])
    ensures !GcMachine.BoxesConst(insts[i], f.locals) ==>
      !GcMachine.BoxesConst(ConstFold.FoldInsts(fp, insts, env, f.locals)[i], f.locals)
    decreases |insts|
  {
    hide VerifyInst, GcMachine.BoxesConst, ConstFold.Folded, EnvAfter;
    var inst := ConstFold.Folded(fp, insts[0], env, f.locals);
    FoldedInstVerifies(fp, f, p, insts[0], env);
    EnvStaysFit(f, p, inst, env);
    if |insts| <= 1 {
    } else {
      FoldedInstsVerify(fp, f, p, insts[1..], EnvAfter(env, inst), if i > 0 then i - 1 else 0);
    }
    assert |insts| == 1 ==> ConstFold.FoldInsts(fp, insts[1..], EnvAfter(env, inst), f.locals) == [];
  }

  lemma FoldedBlockVerifies(fp: FloatOps, f: Function, p: seq<Function>, q: seq<Function>, b: BlockId)
    requires Verified(f, p) && SameSignatures(p, q) && b < |f.blocks|
    ensures VerifyBlock(ConstFold.FoldFunc(fp, f), q, b)
  {
    hide VerifyInst, ConstFold.FoldInsts;
    var g := ConstFold.FoldFunc(fp, f);
    var blk := f.blocks[b];
    assert VerifyBlock(f, p, b);
    if |blk.insts| > 0 {
      FoldedInstsVerify(fp, f, p, blk.insts, map[], 0);
    } else {
      FoldNothing(fp, f.locals);
    }
    forall i | 0 <= i < |g.blocks[b].insts|
      ensures VerifyInst(g, q, g.blocks[b].insts[i])
      ensures Diverges(g.blocks[b].insts[i]) <==> Diverges(blk.insts[i])
    {
      FoldedInstsVerify(fp, f, p, blk.insts, map[], i);
      SameRules(f, g, p, q, g.blocks[b].insts[i]);
    }
    SameRules(f, g, p, q, AssertFail);
  }

  lemma FoldNothing(fp: FloatOps, reprs: seq<Repr>)
    ensures ConstFold.FoldInsts(fp, [], map[], reprs) == []
  {
  }

  /** A verified program is still verified after folding. */
  lemma FoldKeepsVerified(fp: FloatOps, p: seq<Function>, q: seq<Function>)
    requires VerifiedProgram(p)
    requires |q| == |p| && forall i :: 0 <= i < |p| ==> q[i] == ConstFold.FoldFunc(fp, p[i])
    ensures VerifiedProgram(q)
  {
    hide VerifyInst, ConstFold.FoldInsts;
    forall i | 0 <= i < |q|
      ensures Verified(q[i], q)
    {
      forall b | 0 <= b < |p[i].blocks|
        ensures VerifyBlock(q[i], q, b)
      {
        FoldedBlockVerifies(fp, p[i], p, q, b);
      }
      VerifiedFromBlocks(p[i], q[i], p, q);
    }
  }

  /** Folding emits only fixnum and 0/1 constants, so it introduces no boxed one. */
  lemma FoldKeepsImmediates(fp: FloatOps, p: seq<Function>, q: seq<Function>)
    requires VerifiedProgram(p) && GcSafety.ConstsAreImmediate(p)
    requires |q| == |p| && forall i :: 0 <= i < |p| ==> q[i] == ConstFold.FoldFunc(fp, p[i])
    ensures GcSafety.ConstsAreImmediate(q)
  {
    hide VerifyInst, ConstFold.FoldInsts, GcMachine.BoxesConst;
    forall i, b, k | 0 <= i < |q| && 0 <= b < |q[i].blocks| && 0 <= k < |q[i].blocks[b].insts|
      ensures !GcMachine.BoxesConst(q[i].blocks[b].insts[k], q[i].locals)
    {
      var f := p[i];
      assert Verified(f, p) && VerifyBlock(f, p, b);
      if |f.blocks[b].insts| == 0 {
        FoldNothing(fp, f.locals);
      } else {
        FoldedInstsVerify(fp, f, p, f.blocks[b].insts, map[], 0);
        FoldedInstsVerify(fp, f, p, f.blocks[b].insts, map[], k);
      }
    }
  }

  /** A folded function has no branch on a recorded constant left, so folding it again needs no condition. */
  lemma FoldedBranchesKeepTruth(fp: FloatOps, f: Function)
    ensures BranchesKeepTruth(fp, ConstFold.FoldFunc(fp, f))
  {
    hide ConstFold.FoldInsts, ConstFold.EnvThrough, KeepsTruth;
    var g := ConstFold.FoldFunc(fp, f);
    forall b | 0 <= b < |g.blocks|
      ensures BranchKeepsTruth(g.blocks[b].term, ExitEnv(fp, g.blocks[b], g.locals))
    {
      ConstFold.FoldInstsIdempotent(fp, f.blocks[b].insts, map[], f.locals);
    }
  }

  // ---- what can go wrong with a removed instruction ----

  /** In verified code a removable instruction that can fail is a raw sum, difference or product, and it overflows. */
  lemma FailsOnlyByOverflow<W(!new)>(rt: Runtime<W>, f: Function, p: seq<Function>, inst: Inst, locals: Locals, w: W)
    requires VerifyInst(f, p, inst) && !HasSideEffects(inst, f.locals) && DceMeaning.CanFail(inst, f.locals)
    ensures inst.BinOp? && (inst.op.Add? || inst.op.Sub? || inst.op.Mul?) && f.locals[inst.l] == Raw(I64)
    ensures BreaksPromise(inst, f.locals, Compute(rt, f.locals, inst, locals, w).effect) <==>
      !InI64(IntOp(inst.op, IntAt(rt.junk, locals, inst.l), IntAt(rt.junk, locals, inst.r)).value)
  {
    assert inst.BinOp?;
  }

  // ---- fold, then clean ----

  ghost predicate Optimized(fp: FloatOps, p: Program, q: Program) {
    |q| == |p| && forall i :: 0 <= i < |p| ==> Dce.Cleaned(ConstFold.FoldFunc(fp, p[i]), q[i])
  }

  ghost function FoldProgram(fp: FloatOps, p: Program): Program {
    seq(|p|, i requires 0 <= i < |p| => ConstFold.FoldFunc(fp, p[i]))
  }

  lemma OptimizedIsClean(fp: FloatOps, p: Program, q: Program)
    requires VerifiedProgram(p) && Optimized(fp, p, q)
    ensures VerifiedProgram(FoldProgram(fp, p)) && VerifiedProgram(q) && DceMeaning.Clean(FoldProgram(fp, p), q)
  {
    hide Verified, Dce.Cleaned, ConstFold.FoldFunc;
    var mid := FoldProgram(fp, p);
    FoldKeepsVerified(fp, p, mid);
    forall i | 0 <= i < |mid|
      ensures InRange(mid[i])
    {
      VerifiedInRange(mid[i], mid);
    }
    DceKeepsVerified(mid, q);
  }

  /**
   The two passes on their own, one after the other: the result is verified, and every function ends as before on every
   input, unless the run executes a raw operation that cleaning removed and it overflows there.
   */
  lemma {:induction false} OptimizedIsSound<W(!new)>(rt: Runtime<W>, p: Program, q: Program, fuel: nat, id: FuncId,
        args: seq<Word>, w: W)
    requires VerifiedProgram(p) && forall i :: 0 <= i < |p| ==> BranchesKeepTruth(rt.fp, p[i])
    requires Optimized(rt.fp, p, q)
    ensures VerifiedProgram(q)
    ensures var mid := FoldProgram(rt.fp, p);
      EvalFunc(rt, DceMeaning.WatchFallible(mid, q), mid, fuel, id, args, w) == BrokenPromise ||
      EvalFunc(rt, Unwatched(), q, fuel, id, args, w) == EvalFunc(rt, Unwatched(), p, fuel, id, args, w)
  {
    hide EvalFunc, BranchesKeepTruth, Verified, Dce.Cleaned, ConstFold.FoldFunc, DceMeaning.Clean;
    var mid := FoldProgram(rt.fp, p);
    OptimizedIsClean(rt.fp, p, q);
    FoldPreservesMeaning(rt, p, mid, fuel, id, args, w);
    DceMeaning.DiffersOnlyOnOverflow(rt, mid, q, fuel, id, args, w);
  }

  /** With nothing fallible to remove, the two passes preserve meaning outright. */
  lemma {:induction false} OptimizedIsExact<W(!new)>(rt: Runtime<W>, p: Program, q: Program, fuel: nat, id: FuncId,
        args: seq<Word>, w: W)
    requires VerifiedProgram(p) && forall i :: 0 <= i < |p| ==> BranchesKeepTruth(rt.fp, p[i])
    requires Optimized(rt.fp, p, q)
    requires forall i :: 0 <= i < |p| ==> DceMeaning.RemovesNoFallible(FoldProgram(rt.fp, p)[i], q[i])
    ensures EvalFunc(rt, Unwatched(), q, fuel, id, args, w) == EvalFunc(rt, Unwatched(), p, fuel, id, args, w)
  {
    hide EvalFunc, BranchesKeepTruth, Verified, Dce.Cleaned, ConstFold.FoldFunc, DceMeaning.Clean;
    hide DceMeaning.RemovesNoFallible;
    var mid := FoldProgram(rt.fp, p);
    OptimizedIsClean(rt.fp, p, q);
    FoldPreservesMeaning(rt, p, mid, fuel, id, args, w);
    DceMeaning.DcePreservesMeaning(rt, mid, q, fuel, id, args, w);
  }

  /**
   No run of the optimized program reads a dropped object: it is enough that its own boxed constants are covered, which
   is seen where the roots are chosen, or that the program had no boxed constant to begin with.
   */
  lemma {:induction false} OptimizedIsCollectable(fp: FloatOps, p: Program, q: Program, trace: seq<GcMachine.State>,
        i: nat)
    requires VerifiedProgram(p) && Optimized(fp, p, q)
    requires GcSafety.BoxesAreCovered(q) || GcSafety.ConstsAreImmediate(p)
    requires GcMachine.Run(q, trace) && i < |trace|
    ensures GcMachine.Safe(q, trace[i])
  {
    hide Verified, Dce.Cleaned, ConstFold.FoldFunc, GcSafety.ConstsAreImmediate, GcSafety.BoxesAreCovered;
    hide GcMachine.Safe, GcMachine.Run, DceMeaning.Clean;
    var mid := FoldProgram(fp, p);
    OptimizedIsClean(fp, p, q);
    if GcSafety.ConstsAreImmediate(p) {
      FoldKeepsImmediates(fp, p, mid);
      DceKeepsImmediates(mid, q);
      GcSafety.ImmediatesAreCovered(q);
    }
    GcSafety.NoReadOfDropped(q, trace, i);
  }

  // ---- a pipeline with other passes in it ----

  /** Some fuel takes the run to this end. */
  ghost predicate EndsAs<W>(rt: Runtime<W>, p: Program, id: FuncId, args: seq<Word>, w: W, end: Final<W>) {
    end != OutOfFuel && exists fuel: nat :: EvalFunc(rt, Unwatched(), p, fuel, id, args, w) == end
  }

  /** Both programs end alike on every function, input and world, however much fuel either takes. */
  ghost predicate SameEnds<W(!new)>(rt: Runtime<W>, p: Program, q: Program) {
    forall id, args, w, end :: EndsAs(rt, p, id, args, w, end) <==> EndsAs(rt, q, id, args, w, end)
  }

  lemma EqualRunsEndAlike<W(!new)>(rt: Runtime<W>, p: Program, q: Program)
    requires forall fuel: nat, id, args, w ::
      EvalFunc(rt, Unwatched(), p, fuel, id, args, w) == EvalFunc(rt, Unwatched(), q, fuel, id, args, w)
    ensures SameEnds(rt, p, q)
  {
    hide EvalFunc;
    forall id, args, w, end
      ensures EndsAs(rt, p, id, args, w, end) <==> EndsAs(rt, q, id, args, w, end)
    {
      if fuel: nat :| EvalFunc(rt, Unwatched(), p, fuel, id, args, w) == end {
        assert EvalFunc(rt, Unwatched(), q, fuel, id, args, w) == end;
      }
      if fuel: nat :| EvalFunc(rt, Unwatched(), q, fuel, id, args, w) == end {
        assert EvalFunc(rt, Unwatched(), p, fuel, id, args, w) == end;
      }
    }
  }

  /** A pass that is not modelled, taken at its word: what it gets verified it leaves verified and ending alike. */
  ghost predicate Keeps<W(!new)>(rt: Runtime<W>, p: Program, q: Program) {
    VerifiedProgram(p) ==> VerifiedProgram(q) && SameEnds(rt, p, q)
  }

  /** Folding, a pass taken at its word, cleaning; the promises are those of the two modelled passes. */
  ghost predicate Trio<W(!new)>(rt: Runtime<W>, p: Program, mid: Program, q: Program) {
    (forall i :: 0 <= i < |p| ==> BranchesKeepTruth(rt.fp, p[i])) &&
    Keeps(rt, FoldProgram(rt.fp, p), mid) &&
    (forall i :: 0 <= i < |mid| ==> DceMeaning.KeepsFallible(mid[i])) &&
    |q| == |mid| && forall i :: 0 <= i < |mid| ==> Dce.Cleaned(mid[i], q[i])
  }

  lemma TrioKeeps<W(!new)>(rt: Runtime<W>, p: Program, mid: Program, q: Program)
    requires Trio(rt, p, mid, q)
    ensures Keeps(rt, p, q)
  {
    hide SameEnds, EvalFunc, BranchesKeepTruth, Verified, Dce.Cleaned, DceMeaning.KeepsFallible, ConstFold.FoldFunc;
    if VerifiedProgram(p) {
      var folded := FoldProgram(rt.fp, p);
      FoldKeepsVerified(rt.fp, p, folded);
      FoldEndsAlike(rt, p, folded);
      CleanEndsAlike(rt, mid, q);
      SameEndsTransitive(rt, p, folded, mid);
      SameEndsTransitive(rt, p, mid, q);
    }
  }

  lemma SameEndsTransitive<W(!new)>(rt: Runtime<W>, p: Program, q: Program, r: Program)
    requires SameEnds(rt, p, q) && SameEnds(rt, q, r)
    ensures SameEnds(rt, p, r)
  {
    hide EndsAs;
  }

  lemma FoldEndsAlike<W(!new)>(rt: Runtime<W>, p: Program, q: Program)
    requires VerifiedProgram(p) && forall i :: 0 <= i < |p| ==> BranchesKeepTruth(rt.fp, p[i])
    requires q == FoldProgram(rt.fp, p)
    ensures SameEnds(rt, p, q)
  {
    hide SameEnds, EvalFunc, BranchesKeepTruth, Verified, ConstFold.FoldFunc;
    forall fuel: nat, id, args, w
      ensures EvalFunc(rt, Unwatched(), p, fuel, id, args, w) == EvalFunc(rt, Unwatched(), q, fuel, id, args, w)
    {
      FoldPreservesMeaning(rt, p, q, fuel, id, args, w);
    }
    EqualRunsEndAlike(rt, p, q);
  }

  lemma CleanEndsAlike<W(!new)>(rt: Runtime<W>, p: Program, q: Program)
    requires VerifiedProgram(p) && forall i :: 0 <= i < |p| ==> DceMeaning.KeepsFallible(p[i])
    requires |q| == |p| && forall i :: 0 <= i < |p| ==> Dce.Cleaned(p[i], q[i])
    ensures VerifiedProgram(q) && SameEnds(rt, p, q)
  {
    hide SameEnds, EvalFunc, Verified, Dce.Cleaned, DceMeaning.KeepsFallible;
    forall i | 0 <= i < |p|
      ensures InRange(p[i])
    {
      VerifiedInRange(p[i], p);
    }
    DceKeepsVerified(p, q);
    forall fuel: nat, id, args, w
      ensures EvalFunc(rt, Unwatched(), p, fuel, id, args, w) == EvalFunc(rt, Unwatched(), q, fuel, id, args, w)
    {
      DceMeaning.DcePreservesInput(rt, p, q, fuel, id, args, w);
    }
    EqualRunsEndAlike(rt, p, q);
  }

  /**
   The whole pipeline: fold, peephole, clean, inline, devirtualize, fold, peephole, clean. If the passes that are not
   modelled keep verification and meaning, the program that comes out is verified and ends as the one that went in.
   */
  lemma PipelineIsSound<W(!new)>(rt: Runtime<W>, p: Program, peeped: Program, cleaned: Program, inlined: Program,
        devirtualized: Program, peepedAgain: Program, q: Program)
    requires VerifiedProgram(p)
    requires Trio(rt, p, peeped, cleaned)
    requires Keeps(rt, cleaned, inlined) && Keeps(rt, inlined, devirtualized)
    requires Trio(rt, devirtualized, peepedAgain, q)
    ensures VerifiedProgram(q) && SameEnds(rt, p, q)
  {
    hide VerifiedProgram, SameEnds, Trio;
    TrioKeeps(rt, p, peeped, cleaned);
    TrioKeeps(rt, devirtualized, peepedAgain, q);
    SameEndsTransitive(rt, p, cleaned, inlined);
    SameEndsTransitive(rt, p, inlined, devirtualized);
    SameEndsTransitive(rt, p, devirtualized, q);
  }

  // ---- what the range proof is for ----

  const GREATEST: I64 := 0x7FFF_FFFF_FFFF_FFFF

  /** An unread raw addition, removable because the table calls raw arithmetic pure. */
  function UnreadSum(keep: bool): Function {
    Function([Raw(I64), Raw(I64)], Tagged, [Raw(I64), Raw(I64), Raw(I64)],
             [Block(if keep then [BinOp(2, Add, 0, 1)] else [], Return(None), None)], 0)
  }

  lemma UnreadSumIsCleaned()
    ensures VerifiedProgram([UnreadSum(true)]) && Dce.Cleaned(UnreadSum(true), UnreadSum(false))
  {
    var f, g := UnreadSum(true), UnreadSum(false);
    assert VerifyBlock(f, [f], 0);
    EntryReached(f);
    var insts := f.blocks[0].insts;
    assert insts[1..] == [] && g.blocks[1..] == [];
    assert FuncBag(g.blocks) == multiset{};
    assert Dce.Removable(insts[0], f.locals, FuncBag(g.blocks));
    assert Dce.Drops(insts, [], f.locals, FuncBag(g.blocks));
    assert Dce.CleanedBlock(f, 0, g.blocks[0], FuncBag(g.blocks));
  }

  lemma SumRaises<W(!new)>(rt: Runtime<W>, w: W)
    ensures EvalFunc(rt, Unwatched(), [UnreadSum(true)], 1, 0, [RawI64(1), RawI64(GREATEST)], w) ==
      Escaped(rt.rawOverflow(Add, 1, GREATEST, w))
  {
    var f := UnreadSum(true);
    var args := [RawI64(1), RawI64(GREATEST)];
    var locals := EntryLocals(f, args);
    var inst := f.blocks[0].insts[0];
    assert Read(locals, 0) == args[0] && Read(locals, 1) == args[1];
    var thrown := Throws(locals, rt.rawOverflow(Add, 1, GREATEST, w));
    assert EvalInst(rt, Unwatched(), [f], 0, 0, f.locals, inst, locals, w) == thrown;
    assert EvalInsts(rt, Unwatched(), [f], 0, 0, f.locals, f.blocks[0].insts, locals, w) == thrown;
  }

  /** On overflow the original raises through its cold edge; the cleaned function returns. */
  lemma OverflowIsLost<W(!new)>(rt: Runtime<W>, w: W)
    ensures Dce.Cleaned(UnreadSum(true), UnreadSum(false))
    ensures !DceMeaning.RemovesNoFallible(UnreadSum(true), UnreadSum(false))
    ensures EvalFunc(rt, Unwatched(), [UnreadSum(true)], 1, 0, [RawI64(1), RawI64(GREATEST)], w) ==
      Escaped(rt.rawOverflow(Add, 1, GREATEST, w))
    ensures EvalFunc(rt, Unwatched(), [UnreadSum(false)], 1, 0, [RawI64(1), RawI64(GREATEST)], w) == Returned(NullW, w)
  {
    UnreadSumIsCleaned();
    var f, g := UnreadSum(true), UnreadSum(false);
    var args := [RawI64(1), RawI64(GREATEST)];
    var locals := EntryLocals(f, args);
    var inst := f.blocks[0].insts[0];
    EntryReached(f);
    assert FuncBag(g.blocks) == multiset{} by {
      assert g.blocks[1..] == [];
    }
    assert DceMeaning.Fallible(f, g, inst);
    hide DceMeaning.Fallible, DceMeaning.RemovesNoFallible, Dce.Cleaned, FuncBag;
    SumRaises(rt, w);
    assert EvalBlock(rt, Unwatched(), [g], 1, 0, 0, locals, w) == Returned(NullW, w);
  }
}
