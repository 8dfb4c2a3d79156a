/** The liveness worklist as it runs: on word-level bit sets, one per block, each standing for a set of locals. */
module BitLiveness {
  import opened Mir
  import opened LivenessSpec
  import opened Liveness
  import opened BitSets

  ghost predicate Represents(bits: Bits, n: nat, s: set<LocalId>)
    reads bits, bits.words
  {
    n <= 64 * bits.words.Length < n + 64 && forall i: nat :: bits.Holds(i) <==> i in s
  }

  ghost predicate Table(table: seq<Bits>, n: nat, sets: seq<set<LocalId>>)
    reads table, set b | b in table :: b.words
  {
    |table| == |sets| && forall b :: 0 <= b < |table| ==> Represents(table[b], n, sets[b])
  }

  /** Every operand read here joins. */
  method SetAll(bits: Bits, ls: seq<LocalId>, n: nat, ghost s: set<LocalId>)
    requires Represents(bits, n, s) && forall l <- ls :: l < n
    modifies bits.words
    ensures Represents(bits, n, s + set l | l in ls)
  {
    for i := 0 to |ls|
      invariant Represents(bits, n, s + set l | l in ls[..i])
    {
      assert forall l :: l in ls[..i + 1] <==> l in ls[..i] || l == ls[i];
      assert ls[i] in ls;
      bits.Set(ls[i]);
    }
    assert ls[..|ls|] == ls;
  }

  method NoBits(n: nat) returns (bits: Bits)
    ensures fresh(bits) && fresh(bits.words) && Represents(bits, n, {})
  {
    bits := new Bits(n);
  }

  lemma ThroughNone(out: set<LocalId>)
    ensures LiveThrough([], out) == out && Defs([]) == {}
  {
  }

  lemma ThroughOne(inst: Inst, rest: seq<Inst>, out: set<LocalId>)
    ensures LiveThrough([inst] + rest, out) == LiveThrough(rest, out) - DstSet(inst) + set l | l in Operands(inst)
    ensures Defs([inst] + rest) == Defs(rest) + DstSet(inst)
  {
    assert ([inst] + rest)[1..] == rest;
  }

  /** The destination leaves the one set and joins the other. */
  method WriteBits(inst: Inst, use: Bits, def: Bits, n: nat, ghost live: set<LocalId>, ghost defs: set<LocalId>)
    requires InstInRange(inst, n) && use.words != def.words
    requires Represents(use, n, live) && Represents(def, n, defs)
    modifies use.words, def.words
    ensures Represents(use, n, live - DstSet(inst)) && Represents(def, n, defs + DstSet(inst))
  {
    if Dst(inst).Some? {
      use.Clear(Dst(inst).value);
      def.Set(Dst(inst).value);
    }
  }

  /** Read-before-written and written locals of one block, scanned backward. */
  method BlockBits(b: Block, n: nat, ghost blocks: nat) returns (use: Bits, def: Bits)
    requires BlockInRange(b, n, blocks)
    ensures fresh(use) && fresh(use.words) && fresh(def) && fresh(def.words)
    ensures Represents(use, n, BlockUse(b)) && Represents(def, n, Defs(b.insts))
  {
    hide Represents, LiveThrough, Defs;
    use := NoBits(n);
    def := NoBits(n);
    SetAll(use, TermOperands(b.term), n, {});
    assert {} + (set l | l in TermOperands(b.term)) == TermUses(b.term);
    var i := |b.insts|;
    ThroughNone(TermUses(b.term));
    assert b.insts[i..] == [];
    while i > 0
      invariant 0 <= i <= |b.insts|
      invariant fresh(use) && fresh(use.words) && fresh(def) && fresh(def.words) && use.words != def.words
      invariant Represents(use, n, LiveThrough(b.insts[i..], TermUses(b.term)))
      invariant Represents(def, n, Defs(b.insts[i..]))
    {
      i := i - 1;
      var inst := b.insts[i];
      assert b.insts[i..] == [inst] + b.insts[i + 1..];
      assert InstInRange(inst, n);
      ghost var live := LiveThrough(b.insts[i + 1..], TermUses(b.term));
      ThroughOne(inst, b.insts[i + 1..], TermUses(b.term));
      WriteBits(inst, use, def, n, live, Defs(b.insts[i + 1..]));
      SetAll(use, Operands(inst), n, live - DstSet(inst));
    }
    assert b.insts[0..] == b.insts;
  }

  /** What is live into any of the successors. */
  method MeetOut(succs: seq<BlockId>, n: nat, liveIn: seq<Bits>, ghost x: seq<set<LocalId>>) returns (out: Bits)
    requires Table(liveIn, n, x) && forall s <- succs :: s < |liveIn|
    ensures fresh(out) && fresh(out.words) && Represents(out, n, OutOf(succs, x))
  {
    out := new Bits(n);
    for k := 0 to |succs|
      invariant fresh(out) && fresh(out.words) && Represents(out, n, OutOf(succs[..k], x))
    {
      var s := succs[k];
      assert s in succs;
      OutOfLast(succs[..k], s, x);
      assert succs[..k + 1] == succs[..k] + [s];
      assert Represents(liveIn[s], n, x[s]);
      out.UnionWith(liveIn[s]);
    }
    assert succs[..|succs|] == succs;
  }

  lemma OutOfLast(succs: seq<BlockId>, s: BlockId, x: seq<set<LocalId>>)
    requires s < |x|
    ensures OutOf(succs + [s], x) == OutOf(succs, x) + x[s]
  {
    forall l
      ensures l in OutOf(succs + [s], x) <==> l in OutOf(succs, x) + x[s]
    {
      if l in OutOf(succs, x) {
        var t :| t in succs && t < |x| && l in x[t];
        assert t in succs + [s];
      }
      if l in x[s] {
        assert s in succs + [s];
      }
    }
  }

  /** One block's equations, solved for the current live-ins. */
  method TransferBits(b: Block, n: nat, use: Bits, def: Bits, liveIn: seq<Bits>, ghost x: seq<set<LocalId>>)
    returns (out: Bits, inn: Bits)
    requires Table(liveIn, n, x) && forall s <- Successors(b) :: s < |liveIn|
    requires Represents(use, n, BlockUse(b)) && Represents(def, n, Defs(b.insts))
    ensures fresh(out) && fresh(out.words) && fresh(inn) && fresh(inn.words)
    ensures Represents(out, n, OutOf(Successors(b), x)) && Represents(inn, n, Transfer(b, x))
  {
    out := MeetOut(Successors(b), n, liveIn, x);
    inn := use.Clone();
    assert Represents(inn, n, BlockUse(b)) by {
      forall i: nat ensures inn.Holds(i) <==> use.Holds(i) { }
    }
    inn.AddUnwritten(out, def);
  }

  ghost predicate Summarized(f: Function, use: seq<Bits>, def: seq<Bits>)
    reads use, set b | b in use :: b.words
    reads def, set b | b in def :: b.words
  {
    |use| == |def| == |f.blocks| &&
    forall b :: 0 <= b < |f.blocks| ==>
      Represents(use[b], |f.locals|, BlockUse(f.blocks[b])) &&
      Represents(def[b], |f.locals|, Defs(f.blocks[b].insts))
  }

  method AllBlockBits(f: Function) returns (use: seq<Bits>, def: seq<Bits>)
    requires InRange(f)
    ensures Summarized(f, use, def)
  {
    hide Represents, BlockUse, Defs;
    use, def := [], [];
    for bi := 0 to |f.blocks|
      invariant |use| == |def| == bi
      invariant forall b :: 0 <= b < bi ==>
        Represents(use[b], |f.locals|, BlockUse(f.blocks[b])) &&
        Represents(def[b], |f.locals|, Defs(f.blocks[b].insts))
    {
      var u, d := BlockBits(f.blocks[bi], |f.locals|, |f.blocks|);
      use, def := use + [u], def + [d];
    }
  }

  method SameSet(a: Bits, b: Bits, n: nat, ghost x: set<LocalId>, ghost y: set<LocalId>) returns (same: bool)
    requires Represents(a, n, x) && Represents(b, n, y)
    ensures same <==> x == y
  {
    same := a.Same(b);
    if same {
      assert forall i :: i in x ==> a.Holds(i);
      assert forall i :: i in y ==> b.Holds(i);
    }
  }

  /** One iteration of the worklist, in step with the one on sets. */
  method VisitBits(f: Function, use: Bits, def: Bits, preds: seq<seq<BlockId>>, liveIn0: seq<Bits>,
                   liveOut0: seq<Bits>, work0: seq<BlockId>, inWork0: seq<bool>,
                   ghost x0: seq<set<LocalId>>, ghost y0: seq<set<LocalId>>)
    returns (liveIn: seq<Bits>, liveOut: seq<Bits>, work: seq<BlockId>, inWork: seq<bool>,
             ghost x: seq<set<LocalId>>, ghost y: seq<set<LocalId>>)
    requires InRange(f) && PredsUpTo(f, preds, |f.blocks|)
    requires Table(liveIn0, |f.locals|, x0) && Table(liveOut0, |f.locals|, y0)
    requires WorklistInv(f, x0, y0, work0, inWork0) && work0 != []
    requires Represents(use, |f.locals|, BlockUse(f.blocks[work0[|work0| - 1]]))
    requires Represents(def, |f.locals|, Defs(f.blocks[work0[|work0| - 1]].insts))
    ensures var bi := work0[|work0| - 1];
      var grown, out := Transfer(f.blocks[bi], x0), OutOf(Successors(f.blocks[bi]), x0);
      Table(liveIn, |f.locals|, x0[bi := grown]) && Table(liveOut, |f.locals|, y0[bi := out]) &&
      x == x0[bi := grown] && y == y0[bi := out]
    ensures WorklistInv(f, x, y, work, inWork) && Advances(f, x0, work0, x, work)
  {
    hide Represents, Transfer, OutOf, SolvedOff, Growing, Slack;
    WorklistSizes(f, x0, y0, work0, inWork0);
    var bi := work0[|work0| - 1];
    work, inWork := work0[..|work0| - 1], inWork0[bi := false];
    PopKeepsQueue(|f.blocks|, work0, inWork0, inWork);
    assert BlockInRange(f.blocks[bi], |f.locals|, |f.blocks|);
    var out, inn := TransferBits(f.blocks[bi], |f.locals|, use, def, liveIn0, x0);
    liveIn, x := liveIn0, x0;
    liveOut, y := liveOut0[bi := out], y0[bi := OutOf(Successors(f.blocks[bi]), x0)];
    ghost var grown := Transfer(f.blocks[bi], x0);
    assert Represents(liveIn[bi], |f.locals|, x0[bi]);
    var same := SameSet(inn, liveIn[bi], |f.locals|, grown, x0[bi]);
    if !same {
      SlackShrinks(f, x0, bi, grown);
      GrowKeepsGrowing(f, x0, bi, grown);
      work, inWork := Requeue(preds[bi], work, inWork);
      liveIn, x := liveIn0[bi := inn], x0[bi := grown];
      GrowKeepsSolved(f, x0, y0, inWork0, preds, bi, x, inWork);
    } else {
      SteadyKeepsSolved(f, x0, y0, inWork0, bi, y, inWork);
    }
  }

  method NoBitsSet(blocks: nat, n: nat) returns (table: seq<Bits>)
    ensures Table(table, n, seq(blocks, _ => {}))
  {
    table := [];
    for b := 0 to blocks
      invariant |table| == b && forall k :: 0 <= k < b ==> Represents(table[k], n, {})
    {
      var bits := new Bits(n);
      table := table + [bits];
    }
  }

  /** The worklist on bit sets ends with exactly path liveness too. */
  method SolveOnBits(f: Function) returns (liveIn: seq<Bits>, liveOut: seq<Bits>)
    requires InRange(f)
    ensures |liveIn| == |liveOut| == |f.blocks|
    ensures forall b :: 0 <= b < |f.blocks| ==>
      Represents(liveIn[b], |f.locals|, LiveIn(f, b)) && Represents(liveOut[b], |f.locals|, LiveOut(f, b))
  {
    hide Represents, Transfer, OutOf, WorklistInv, Slack, LiveIn, LiveOut;
    var n := |f.blocks|;
    var use, def := AllBlockBits(f);
    var preds := Predecessors(f);
    liveIn := NoBitsSet(n, |f.locals|);
    liveOut := NoBitsSet(n, |f.locals|);
    ghost var x: seq<set<LocalId>> := seq(n, _ => {});
    ghost var y := x;
    var work: seq<BlockId> := seq(n, b requires 0 <= b < n => b);
    var inWork := seq(n, _ => true);
    StartInv(f, x, work, inWork);
    while work != []
      invariant Summarized(f, use, def)
      invariant Table(liveIn, |f.locals|, x) && Table(liveOut, |f.locals|, y)
      invariant WorklistInv(f, x, y, work, inWork)
      decreases Slack(x, |f.locals|), |work|
    {
      WorklistSizes(f, x, y, work, inWork);
      var bi := work[|work| - 1];
      liveIn, liveOut, work, inWork, x, y :=
        VisitBits(f, use[bi], def[bi], preds, liveIn, liveOut, work, inWork, x, y);
      WorklistSizes(f, x, y, work, inWork);
    }
    SolvedIsPathLive(f, x, y, inWork);
  }
}
