/** Shared per-function analyses: read counts, reachability and the constant lattice. */
module Analysis {
  import opened Wrappers
  import opened Mir
  import opened LivenessSpec

  // ---- read counts ----

  function InstsBag(insts: seq<Inst>): multiset<LocalId> {
    if insts == [] then multiset{} else multiset(Operands(insts[0])) + InstsBag(insts[1..])
  }

  function BlockBag(b: Block): multiset<LocalId> {
    InstsBag(b.insts) + multiset(TermOperands(b.term))
  }

  /** Every read in the function, with multiplicity. */
  function FuncBag(blocks: seq<Block>): multiset<LocalId> {
    if blocks == [] then multiset{} else BlockBag(blocks[0]) + FuncBag(blocks[1..])
  }

  lemma {:induction false} InstsBagAppend(a: seq<Inst>, b: seq<Inst>)
    ensures InstsBag(a + b) == InstsBag(a) + InstsBag(b)
  {
    if a == [] {
      assert a + b == b;
    } else {
      assert (a + b)[1..] == a[1..] + b;
      InstsBagAppend(a[1..], b);
    }
  }

  lemma InstsBagSplit(insts: seq<Inst>, i: nat)
    requires i < |insts|
    ensures InstsBag(insts[i..]) == multiset(Operands(insts[i])) + InstsBag(insts[i + 1..])
  {
    assert insts[i..][1..] == insts[i + 1..];
  }

  lemma InstsBagPush(insts: seq<Inst>, inst: Inst)
    ensures InstsBag(insts + [inst]) == InstsBag(insts) + multiset(Operands(inst))
  {
    InstsBagAppend(insts, [inst]);
    assert [inst][1..] == [];
  }

  lemma {:induction false} FuncBagAppend(a: seq<Block>, b: seq<Block>)
    ensures FuncBag(a + b) == FuncBag(a) + FuncBag(b)
  {
    if a == [] {
      assert a + b == b;
    } else {
      assert (a + b)[1..] == a[1..] + b;
      FuncBagAppend(a[1..], b);
    }
  }

  lemma FuncBagPush(blocks: seq<Block>, b: Block)
    ensures FuncBag(blocks + [b]) == FuncBag(blocks) + BlockBag(b)
  {
    FuncBagAppend(blocks, [b]);
    assert [b][1..] == [];
  }

  /** What the rest of the function reads, besides block `i`. */
  function OtherBlocks(blocks: seq<Block>, i: nat): multiset<LocalId>
    requires i < |blocks|
  {
    FuncBag(blocks[..i]) + FuncBag(blocks[i + 1..])
  }

  lemma FuncBagAt(blocks: seq<Block>, i: nat, b: Block)
    requires i < |blocks|
    ensures FuncBag(blocks[i := b]) == OtherBlocks(blocks, i) + BlockBag(b)
  {
    assert blocks[i := b] == (blocks[..i] + [b]) + blocks[i + 1..];
    FuncBagPush(blocks[..i], b);
    FuncBagAppend(blocks[..i] + [b], blocks[i + 1..]);
  }

  /** The counter array holds exactly this bag of reads. */
  ghost predicate Counts(counts: seq<nat>, n: nat, bag: multiset<LocalId>) {
    |counts| == n && forall l :: 0 <= l < n ==> counts[l] == bag[l]
  }

  ghost predicate Below(ops: seq<LocalId>, n: nat) {
    forall k :: 0 <= k < |ops| ==> ops[k] < n
  }

  method AddReads(counts0: seq<nat>, ops: seq<LocalId>, ghost bag: multiset<LocalId>) returns (counts: seq<nat>)
    requires Counts(counts0, |counts0|, bag) && Below(ops, |counts0|)
    ensures Counts(counts, |counts0|, bag + multiset(ops))
  {
    counts := counts0;
    for k := 0 to |ops|
      invariant Counts(counts, |counts0|, bag + multiset(ops[..k]))
    {
      assert ops[..k + 1] == ops[..k] + [ops[k]];
      counts := counts[ops[k] := counts[ops[k]] + 1];
    }
    assert ops[..|ops|] == ops;
  }

  method AddBlockReads(f: Function, b: BlockId, counts0: seq<nat>,
        ghost before: multiset<LocalId>) returns (counts: seq<nat>)
    requires InRange(f) && b < |f.blocks|
    requires Counts(counts0, |f.locals|, before)
    ensures Counts(counts, |f.locals|, before + BlockBag(f.blocks[b]))
  {
    hide InstsBag;
    var blk := f.blocks[b];
    counts := counts0;
    NoInsts(blk.insts);
    for i := 0 to |blk.insts|
      invariant Counts(counts, |f.locals|, before + InstsBag(blk.insts[..i]))
    {
      OperandsBelow(f, b, i);
      InstsBagPrefix(blk.insts, i);
      counts := AddReads(counts, Operands(blk.insts[i]), before + InstsBag(blk.insts[..i]));
      assert before + InstsBag(blk.insts[..i + 1]) ==
        before + InstsBag(blk.insts[..i]) + multiset(Operands(blk.insts[i]));
    }
    assert blk.insts[..|blk.insts|] == blk.insts;
    TermOperandsBelow(f, b);
    counts := AddReads(counts, TermOperands(blk.term), before + InstsBag(blk.insts));
    assert before + BlockBag(blk) == before + InstsBag(blk.insts) + multiset(TermOperands(blk.term));
  }

  /** How often each local is read: instruction operands, branch conditions and returned values. */
  method ReadCounts(f: Function) returns (counts: seq<nat>)
    requires InRange(f)
    ensures Counts(counts, |f.locals|, FuncBag(f.blocks))
  {
    hide FuncBag, BlockBag;
    counts := seq(|f.locals|, _ => 0);
    NoBlocks(f.blocks);
    for bi := 0 to |f.blocks|
      invariant Counts(counts, |f.locals|, FuncBag(f.blocks[..bi]))
    {
      FuncBagPrefix(f.blocks, bi);
      counts := AddBlockReads(f, bi, counts, FuncBag(f.blocks[..bi]));
    }
    assert f.blocks[..|f.blocks|] == f.blocks;
  }

  lemma NoBlocks(blocks: seq<Block>)
    ensures FuncBag(blocks[..0]) == multiset{}
  {
  }

  lemma FuncBagPrefix(blocks: seq<Block>, i: nat)
    requires i < |blocks|
    ensures FuncBag(blocks[..i + 1]) == FuncBag(blocks[..i]) + BlockBag(blocks[i])
  {
    hide FuncBag, BlockBag;
    FuncBagPush(blocks[..i], blocks[i]);
    assert blocks[..i + 1] == blocks[..i] + [blocks[i]];
  }

  lemma NoInsts(insts: seq<Inst>)
    ensures InstsBag(insts[..0]) == multiset{}
  {
  }

  lemma InstsBagPrefix(insts: seq<Inst>, i: nat)
    requires i < |insts|
    ensures InstsBag(insts[..i + 1]) == InstsBag(insts[..i]) + multiset(Operands(insts[i]))
  {
    hide InstsBag;
    InstsBagPush(insts[..i], insts[i]);
    assert insts[..i + 1] == insts[..i] + [insts[i]];
  }

  lemma OperandsBelow(f: Function, b: BlockId, i: nat)
    requires InRange(f) && b < |f.blocks| && i < |f.blocks[b].insts|
    ensures Below(Operands(f.blocks[b].insts[i]), |f.locals|)
  {
    assert BlockInRange(f.blocks[b], |f.locals|, |f.blocks|);
    var inst := f.blocks[b].insts[i];
    assert InstInRange(inst, |f.locals|);
    forall k | 0 <= k < |Operands(inst)|
      ensures Operands(inst)[k] < |f.locals|
    {
      assert Operands(inst)[k] in Operands(inst);
    }
  }

  lemma TermOperandsBelow(f: Function, b: BlockId)
    requires InRange(f) && b < |f.blocks|
    ensures Below(TermOperands(f.blocks[b].term), |f.locals|)
  {
    assert BlockInRange(f.blocks[b], |f.locals|, |f.blocks|);
    var ops := TermOperands(f.blocks[b].term);
    forall k | 0 <= k < |ops|
      ensures ops[k] < |f.locals|
    {
      assert ops[k] in ops;
    }
  }

  // ---- reachability ----

  ghost predicate EntryPath(f: Function, path: seq<BlockId>) {
    |path| > 0 && path[0] == f.entry && f.entry < |f.blocks| &&
    forall i :: 0 <= i < |path| - 1 ==> Edge(f, path[i], path[i + 1])
  }

  /** Some path of terminator and handler edges leads from the entry to `b`. */
  ghost predicate Reaches(f: Function, b: BlockId) {
    exists path :: EntryPath(f, path) && path[|path| - 1] == b
  }

  lemma EntryReached(f: Function)
    requires f.entry < |f.blocks|
    ensures Reaches(f, f.entry)
  {
    assert EntryPath(f, [f.entry]) && [f.entry][0] == f.entry;
  }

  lemma ReachesStep(f: Function, b: BlockId, s: BlockId)
    requires Reaches(f, b) && Edge(f, b, s)
    ensures Reaches(f, s)
  {
    var path :| EntryPath(f, path) && path[|path| - 1] == b;
    var longer := path + [s];
    assert EntryPath(f, longer) && longer[|longer| - 1] == s;
  }

  lemma {:induction false} ClosedContainsReached(f: Function, mark: seq<bool>, path: seq<BlockId>)
    requires |mark| == |f.blocks| && EntryPath(f, path) && mark[f.entry]
    requires forall b, s: BlockId :: 0 <= b < |mark| && mark[b] && Edge(f, b, s) ==> mark[s]
    ensures path[|path| - 1] < |mark| && mark[path[|path| - 1]]
    decreases |path|
  {
    if |path| <= 1 {
    } else {
      var init := path[..|path| - 1];
      assert EntryPath(f, init);
      ClosedContainsReached(f, mark, init);
      assert Edge(f, path[|path| - 2], path[|path| - 2 + 1]);
    }
  }

  ghost function Unmarked(mark: seq<bool>): nat {
    if mark == [] then 0 else (if mark[0] then 0 else 1) + Unmarked(mark[1..])
  }

  lemma {:induction false} MarkShrinks(mark: seq<bool>, b: nat)
    requires b < |mark| && !mark[b]
    ensures Unmarked(mark[b := true]) < Unmarked(mark)
  {
    if b == 0 {
    } else {
      MarkShrinks(mark[1..], b - 1);
      assert mark[b := true][1..] == mark[1..][b - 1 := true];
    }
  }

  /** Everything marked or queued is reached; a marked block's successors are marked or queued. */
  ghost predicate ReachInv(f: Function, mark: seq<bool>, work: seq<BlockId>) {
    |mark| == |f.blocks| && f.entry < |f.blocks| &&
    (mark[f.entry] || f.entry in work) &&
    (forall k :: 0 <= k < |work| ==> work[k] < |f.blocks| && Reaches(f, work[k])) &&
    (forall b :: 0 <= b < |mark| && mark[b] ==> Reaches(f, b)) &&
    (forall b, s: BlockId :: 0 <= b < |mark| && mark[b] && Edge(f, b, s) ==> mark[s] || s in work)
  }

  lemma PopMarked(f: Function, mark: seq<bool>, work: seq<BlockId>)
    requires ReachInv(f, mark, work) && work != [] && mark[work[|work| - 1]]
    ensures ReachInv(f, mark, work[..|work| - 1])
  {
    var rest := work[..|work| - 1];
    forall b: BlockId | b in work && b != work[|work| - 1]
      ensures b in rest
    {
      var k :| 0 <= k < |work| && work[k] == b;
      assert rest[k] == b;
    }
  }

  lemma PopFresh(f: Function, mark: seq<bool>, work: seq<BlockId>)
    requires InRange(f) && ReachInv(f, mark, work) && work != []
    ensures var b := work[|work| - 1];
      ReachInv(f, mark[b := true], work[..|work| - 1] + HandlerSeq(f.blocks[b]) + TermTargets(f.blocks[b].term))
  {
    var b := work[|work| - 1];
    var rest := work[..|work| - 1];
    var work' := rest + HandlerSeq(f.blocks[b]) + TermTargets(f.blocks[b].term);
    assert Reaches(f, b);
    assert BlockInRange(f.blocks[b], |f.locals|, |f.blocks|);
    forall s: BlockId | s in HandlerSeq(f.blocks[b]) + TermTargets(f.blocks[b].term)
      ensures s < |f.blocks| && Reaches(f, s)
    {
      assert s in Successors(f.blocks[b]);
      assert Edge(f, b, s);
      ReachesStep(f, b, s);
    }
    forall c: BlockId | c in work && c != b
      ensures c in work'
    {
      var k :| 0 <= k < |work| && work[k] == c;
      assert rest[k] == c;
    }
    forall k | 0 <= k < |work'|
      ensures work'[k] < |f.blocks| && Reaches(f, work'[k])
    {
      if k >= |rest| {
        assert work'[k] in HandlerSeq(f.blocks[b]) + TermTargets(f.blocks[b].term);
      }
    }
    forall s: BlockId | Edge(f, b, s)
      ensures s in work'
    {
    }
  }

  lemma ReachInvDone(f: Function, mark: seq<bool>)
    requires ReachInv(f, mark, [])
    ensures forall b :: 0 <= b < |f.blocks| ==> (mark[b] <==> Reaches(f, b))
  {
    forall b | 0 <= b < |f.blocks| && Reaches(f, b)
      ensures mark[b]
    {
      var path :| EntryPath(f, path) && path[|path| - 1] == b;
      ClosedContainsReached(f, mark, path);
    }
  }

  /** Which blocks the entry reaches, handler edges included. */
  method ReachableBlocks(f: Function) returns (reachable: seq<bool>)
    requires InRange(f)
    ensures |reachable| == |f.blocks|
    ensures forall b :: 0 <= b < |f.blocks| ==> (reachable[b] <==> Reaches(f, b))
  {
    reachable := seq(|f.blocks|, _ => false);
    var work: seq<BlockId> := [f.entry];
    EntryReached(f);
    while work != []
      invariant ReachInv(f, reachable, work)
      decreases Unmarked(reachable), |work|
    {
      var b := work[|work| - 1];
      if reachable[b] {
        PopMarked(f, reachable, work);
        work := work[..|work| - 1];
      } else {
        PopFresh(f, reachable, work);
        MarkShrinks(reachable, b);
        work := work[..|work| - 1] + HandlerSeq(f.blocks[b]) + TermTargets(f.blocks[b].term);
        reachable := reachable[b := true];
      }
    }
    ReachInvDone(f, reachable);
  }

  // ---- the block-local constant environment ----

  type ConstEnv = map<LocalId, Const>

  function EnvGet(env: ConstEnv, l: LocalId): Option<Const> {
    if l in env then Some(env[l]) else None
  }

  /** A write of a constant records it, any other write forgets the local. */
  function EnvAfter(env: ConstEnv, inst: Inst): ConstEnv {
    match inst
    case Const(dst, val) => env[dst := val]
    case _ => if Dst(inst).Some? then env - {Dst(inst).value} else env
  }

  class ConstLattice {
    var consts: ConstEnv

    constructor ()
      ensures consts == map[]
    {
      consts := map[];
    }

    function Get(l: LocalId): Option<Const>
      reads this
    {
      EnvGet(consts, l)
    }

    method Set(l: LocalId, val: Const)
      modifies this
      ensures consts == old(consts)[l := val]
    {
      consts := consts[l := val];
    }

    method Kill(l: LocalId)
      modifies this
      ensures consts == old(consts) - {l}
    {
      consts := consts - {l};
    }
  }
}
