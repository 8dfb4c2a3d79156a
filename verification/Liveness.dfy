/**
 What liveness means: a local is live at a block iff some path of blocks, handler
 edges included, reaches a read of it with no earlier write.
 */
module LivenessSpec {
  import opened Mir

  /** Backward transfer: what is live before `insts` when `out` is live after. */
  function LiveThrough(insts: seq<Inst>, out: set<LocalId>): set<LocalId> {
    if insts == [] then out
    else Uses(insts[0]) + (LiveThrough(insts[1..], out) - DstSet(insts[0]))
  }

  function Defs(insts: seq<Inst>): set<LocalId> {
    if insts == [] then {} else DstSet(insts[0]) + Defs(insts[1..])
  }

  /** Locals read in the block before any write in it. */
  function BlockUse(b: Block): set<LocalId> {
    LiveThrough(b.insts, TermUses(b.term))
  }

  /** Instruction `i` reads `l` and none before it writes `l`. */
  ghost predicate ReadsFirst(insts: seq<Inst>, i: nat, l: LocalId) {
    i < |insts| && l in Uses(insts[i]) && l !in Defs(insts[..i])
  }

  lemma ReadsFirstStep(insts: seq<Inst>, i: nat, l: LocalId)
    requires insts != []
    ensures ReadsFirst(insts, i + 1, l) <==> ReadsFirst(insts[1..], i, l) && l !in DstSet(insts[0])
  {
    if i + 1 < |insts| {
      assert insts[..i + 1][1..] == insts[1..][..i];
      assert insts[1..][i] == insts[i + 1];
    }
  }

  /** The transfer function is "read before written", instruction by instruction. */
  lemma {:induction false} LiveThroughMeaning(insts: seq<Inst>, out: set<LocalId>, l: LocalId)
    ensures l in LiveThrough(insts, out) <==>
      (exists i: nat :: ReadsFirst(insts, i, l)) || (l in out && l !in Defs(insts))
  {
    if insts == [] {
    } else {
      LiveThroughMeaning(insts[1..], out, l);
      if l in Uses(insts[0]) {
        assert ReadsFirst(insts, 0, l);
      } else {
        if i: nat :| ReadsFirst(insts[1..], i, l) {
          ReadsFirstStep(insts, i, l);
        }
        if i: nat :| ReadsFirst(insts, i, l) {
          ReadsFirstStep(insts, i - 1, l);
        }
      }
    }
  }

  lemma {:induction false} LiveThroughUnion(insts: seq<Inst>, a: set<LocalId>, b: set<LocalId>)
    ensures LiveThrough(insts, a + b) == LiveThrough(insts, a) + (b - Defs(insts))
  {
    if insts == [] {
    } else {
      LiveThroughUnion(insts[1..], a, b);
    }
  }

  function Locals(n: nat): (r: set<LocalId>)
    ensures forall l: LocalId :: l in r <==> l < n
    ensures |r| == n
  {
    if n == 0 then {} else Locals(n - 1) + {n - 1}
  }

  predicate Edge(f: Function, b: BlockId, s: BlockId) {
    b < |f.blocks| && s < |f.blocks| && s in Successors(f.blocks[b])
  }

  ghost predicate LivePath(f: Function, path: seq<BlockId>, l: LocalId) {
    |path| > 0 &&
    (forall i :: 0 <= i < |path| ==> path[i] < |f.blocks|) &&
    (forall i :: 0 <= i < |path| - 1 ==> Edge(f, path[i], path[i + 1]) && l !in Defs(f.blocks[path[i]].insts)) &&
    l in BlockUse(f.blocks[path[|path| - 1]])
  }

  ghost predicate LiveFrom(f: Function, b: BlockId, l: LocalId) {
    exists path :: LivePath(f, path, l) && path[0] == b
  }

  ghost function LiveIn(f: Function, b: BlockId): set<LocalId> {
    set l | l in Locals(|f.locals|) && LiveFrom(f, b, l)
  }

  ghost function LiveOut(f: Function, b: BlockId): set<LocalId> {
    set l | l in Locals(|f.locals|) && exists s :: Edge(f, b, s) && LiveFrom(f, s, l)
  }

  /** Live before instruction `i` of block `b` (after the last one: before the terminator). */
  ghost function LiveAt(f: Function, b: BlockId, i: nat): set<LocalId>
    requires b < |f.blocks| && i <= |f.blocks[b].insts|
  {
    LiveThrough(f.blocks[b].insts[i..], TermUses(f.blocks[b].term) + LiveOut(f, b))
  }

  // ---- path liveness is the least solution of the dataflow equations ----

  function OutOf(succs: seq<BlockId>, x: seq<set<LocalId>>): set<LocalId> {
    set s, l | s in succs && s < |x| && l in x[s] :: l
  }

  function Transfer(b: Block, x: seq<set<LocalId>>): set<LocalId> {
    BlockUse(b) + (OutOf(Successors(b), x) - Defs(b.insts))
  }

  ghost predicate IsSolution(f: Function, x: seq<set<LocalId>>) {
    |x| == |f.blocks| && forall b :: 0 <= b < |x| ==> x[b] == Transfer(f.blocks[b], x)
  }

  ghost function PathLive(f: Function): seq<set<LocalId>> {
    seq(|f.blocks|, b requires 0 <= b < |f.blocks| => LiveIn(f, b))
  }

  lemma LiveFromFold(f: Function, b: BlockId, s: BlockId, l: LocalId)
    requires Edge(f, b, s) && LiveFrom(f, s, l) && l !in Defs(f.blocks[b].insts)
    ensures LiveFrom(f, b, l)
  {
    hide BlockUse, Defs, Successors;
    var path :| LivePath(f, path, l) && path[0] == s;
    var longer := [b] + path;
    forall i | 0 <= i < |longer| - 1
      ensures Edge(f, longer[i], longer[i + 1]) && l !in Defs(f.blocks[longer[i]].insts)
    {
      assert i > 0 ==> longer[i] == path[i - 1] && longer[i + 1] == path[i - 1 + 1];
    }
    assert longer[|longer| - 1] == path[|path| - 1];
    assert LivePath(f, longer, l) && longer[0] == b;
  }

  lemma LiveFromUnfold(f: Function, b: BlockId, l: LocalId)
    requires b < |f.blocks|
    ensures LiveFrom(f, b, l) <==>
      l in BlockUse(f.blocks[b]) ||
      (l !in Defs(f.blocks[b].insts) && exists s :: Edge(f, b, s) && LiveFrom(f, s, l))
  {
    if l in BlockUse(f.blocks[b]) {
      assert LivePath(f, [b], l) && [b][0] == b;
    } else if LiveFrom(f, b, l) {
      var path :| LivePath(f, path, l) && path[0] == b;
      var rest := path[1..];
      assert Edge(f, path[0], path[1]);
      assert LivePath(f, rest, l) && rest[0] == path[1];
    } else if s :| l !in Defs(f.blocks[b].insts) && Edge(f, b, s) && LiveFrom(f, s, l) {
      LiveFromFold(f, b, s, l);
    }
  }

  lemma {:induction false} LiveThroughInRange(insts: seq<Inst>, out: set<LocalId>, n: nat)
    requires forall i :: 0 <= i < |insts| ==> InstInRange(insts[i], n)
    requires forall l :: l in out ==> l < n
    ensures forall l :: l in LiveThrough(insts, out) ==> l < n
  {
    if insts == [] {
    } else {
      assert InstInRange(insts[0], n);
      forall i | 0 <= i < |insts[1..]|
        ensures InstInRange(insts[1..][i], n)
      {
        assert InstInRange(insts[i + 1], n);
      }
      LiveThroughInRange(insts[1..], out, n);
    }
  }

  lemma BlockUseInRange(f: Function, b: BlockId)
    requires InRange(f) && b < |f.blocks|
    ensures forall l :: l in BlockUse(f.blocks[b]) ==> l < |f.locals|
  {
    LiveThroughInRange(f.blocks[b].insts, TermUses(f.blocks[b].term), |f.locals|);
  }

  lemma OutOfPathLive(f: Function, b: BlockId)
    requires InRange(f) && b < |f.blocks|
    ensures OutOf(Successors(f.blocks[b]), PathLive(f)) == LiveOut(f, b)
  {
    hide LiveFrom;
    var x := PathLive(f);
    forall l: LocalId
      ensures l in OutOf(Successors(f.blocks[b]), x) <==> l in LiveOut(f, b)
    {
      if l in OutOf(Successors(f.blocks[b]), x) {
        var s :| s in Successors(f.blocks[b]) && s < |x| && l in x[s];
        assert Edge(f, b, s);
      }
      if l in LiveOut(f, b) {
        var s: BlockId :| Edge(f, b, s) && LiveFrom(f, s, l);
        assert l in x[s];
      }
    }
  }

  /** Path liveness satisfies the equation `in = use + (out - def)` at every block. */
  lemma PathLiveIsSolution(f: Function)
    requires InRange(f)
    ensures IsSolution(f, PathLive(f))
    ensures forall b :: 0 <= b < |f.blocks| ==> OutOf(Successors(f.blocks[b]), PathLive(f)) == LiveOut(f, b)
  {
    var x := PathLive(f);
    forall b | 0 <= b < |f.blocks|
      ensures OutOf(Successors(f.blocks[b]), x) == LiveOut(f, b)
      ensures x[b] == Transfer(f.blocks[b], x)
    {
      OutOfPathLive(f, b);
      BlockUseInRange(f, b);
      forall l
        ensures l in x[b] <==> l in Transfer(f.blocks[b], x)
      {
        LiveFromUnfold(f, b, l);
      }
    }
  }

  /** Anything closed under the equations contains every path-live local. */
  lemma {:induction false} PathLiveIsLeast(f: Function, x: seq<set<LocalId>>, path: seq<BlockId>, l: LocalId)
    requires |x| == |f.blocks|
    requires forall b :: 0 <= b < |x| ==> Transfer(f.blocks[b], x) <= x[b]
    requires LivePath(f, path, l)
    ensures l in x[path[0]]
    decreases |path|
  {
    var b := path[0];
    if |path| == 1 {
      assert l in Transfer(f.blocks[b], x);
    } else {
      var rest := path[1..];
      assert LivePath(f, rest, l);
      PathLiveIsLeast(f, x, rest, l);
      assert Edge(f, path[0], path[1]);
      assert path[1] in Successors(f.blocks[b]) && l in x[path[1]];
      assert l in OutOf(Successors(f.blocks[b]), x);
      assert l in Transfer(f.blocks[b], x);
    }
  }

  /** `LiveAt` is the block's live-in at its start. */
  lemma LiveAtStart(f: Function, b: BlockId)
    requires InRange(f) && b < |f.blocks|
    ensures LiveAt(f, b, 0) == LiveIn(f, b)
  {
    PathLiveIsSolution(f);
    var blk := f.blocks[b];
    assert blk.insts[0..] == blk.insts;
    LiveThroughUnion(blk.insts, TermUses(blk.term), LiveOut(f, b));
    assert PathLive(f)[b] == LiveIn(f, b);
  }

  lemma LiveAtStep(f: Function, b: BlockId, i: nat)
    requires b < |f.blocks| && i < |f.blocks[b].insts|
    ensures LiveAt(f, b, i) == Uses(f.blocks[b].insts[i]) + (LiveAt(f, b, i + 1) - DstSet(f.blocks[b].insts[i]))
  {
    var insts := f.blocks[b].insts;
    assert insts[i..][0] == insts[i] && insts[i..][1..] == insts[i + 1..];
  }

  lemma LiveAtInRange(f: Function, b: BlockId, i: nat)
    requires InRange(f) && b < |f.blocks| && i <= |f.blocks[b].insts|
    ensures forall l :: l in LiveAt(f, b, i) ==> l < |f.locals|
  {
    var blk := f.blocks[b];
    forall k | 0 <= k < |blk.insts[i..]|
      ensures InstInRange(blk.insts[i..][k], |f.locals|)
    {
      assert blk.insts[i..][k] == blk.insts[i + k];
    }
    LiveThroughInRange(blk.insts[i..], TermUses(blk.term) + LiveOut(f, b), |f.locals|);
  }

  // ---- which locals need a root slot ----

  /** Used by, or live across, the allocating instruction `i` of block `b`. */
  ghost predicate CrossesAllocation(f: Function, b: BlockId, i: nat, l: LocalId) {
    b < |f.blocks| && i < |f.blocks[b].insts| &&
    MayAllocate(f.blocks[b].insts[i], f.locals) &&
    (l in Uses(f.blocks[b].insts[i]) || l in LiveAt(f, b, i + 1) - DstSet(f.blocks[b].insts[i]))
  }

  ghost predicate LiveAtHandler(f: Function, b: BlockId, l: LocalId) {
    b < |f.blocks| && f.blocks[b].handler.Some? && l in LiveIn(f, f.blocks[b].handler.value)
  }

  ghost predicate NeedsRoot(f: Function, l: LocalId) {
    l < |f.locals| && IsGcRoot(f.locals[l]) &&
    ((exists b, i :: CrossesAllocation(f, b, i, l)) || (exists b :: LiveAtHandler(f, b, l)))
  }
}

/** The liveness algorithms: the backward worklist and the epoch rooting pass. */
module Liveness {
  import opened Mir
  import opened LivenessSpec

  /** Read-before-written and written locals of one block, scanned backward. */
  method BlockSummary(b: Block) returns (use: set<LocalId>, def: set<LocalId>)
    ensures use == BlockUse(b)
    ensures def == Defs(b.insts)
  {
    use, def := TermUses(b.term), {};
    var i := |b.insts|;
    while i > 0
      invariant 0 <= i <= |b.insts|
      invariant use == LiveThrough(b.insts[i..], TermUses(b.term))
      invariant def == Defs(b.insts[i..])
    {
      i := i - 1;
      var inst := b.insts[i];
      assert b.insts[i..] == [inst] + b.insts[i + 1..];
      if Dst(inst).Some? {
        use := use - {Dst(inst).value};
        def := def + {Dst(inst).value};
      }
      use := use + Uses(inst);
    }
    assert b.insts[0..] == b.insts;
  }

  ghost predicate PredsUpTo(f: Function, preds: seq<seq<BlockId>>, n: nat) {
    |preds| == |f.blocks| &&
    (forall s, k :: 0 <= s < |preds| && 0 <= k < |preds[s]| ==> preds[s][k] < n) &&
    (forall s, p :: 0 <= s < |preds| && 0 <= p < n ==> (p in preds[s] <==> Edge(f, p, s)))
  }

  lemma PredAdded(preds: seq<BlockId>, b: BlockId)
    ensures forall p :: p in preds + [b] <==> p in preds || p == b
  {
  }

  lemma SuccSeen(succs: seq<BlockId>, k: nat)
    requires k < |succs|
    ensures forall s :: s in succs[..k + 1] <==> s in succs[..k] || s == succs[k]
  {
    assert succs[..k + 1] == succs[..k] + [succs[k]];
  }

  method Predecessors(f: Function) returns (preds: seq<seq<BlockId>>)
    requires InRange(f)
    ensures PredsUpTo(f, preds, |f.blocks|)
  {
    preds := seq(|f.blocks|, _ => []);
    for bi := 0 to |f.blocks|
      invariant PredsUpTo(f, preds, bi)
    {
      var succs := Successors(f.blocks[bi]);
      assert BlockInRange(f.blocks[bi], |f.locals|, |f.blocks|);
      for k := 0 to |succs|
        invariant |preds| == |f.blocks|
        invariant forall s, k :: 0 <= s < |preds| && 0 <= k < |preds[s]| ==> preds[s][k] <= bi
        invariant forall s, p :: 0 <= s < |preds| && 0 <= p < bi ==> (p in preds[s] <==> Edge(f, p, s))
        invariant forall s :: 0 <= s < |preds| ==> (bi in preds[s] <==> s in succs[..k])
      {
        hide Successors, Edge;
        var s := succs[k];
        assert s in succs;
        PredAdded(preds[s], bi);
        SuccSeen(succs, k);
        preds := preds[s := preds[s] + [bi]];
      }
      assert succs[..|succs|] == succs;
    }
  }

  // ---- termination measure of the worklist ----

  lemma SubsetSize<T>(a: set<T>, b: set<T>)
    requires a <= b
    ensures |a| <= |b|
    ensures a != b ==> |a| < |b|
  {
    assert b == a + (b - a);
    if a != b {
      var x :| x in b - a;
    }
  }

  /** How much the solution can still grow. */
  ghost function Slack(x: seq<set<LocalId>>, n: nat): int {
    if x == [] then 0 else (n - |x[0]|) + Slack(x[1..], n)
  }

  lemma {:induction false} SlackBound(x: seq<set<LocalId>>, n: nat)
    requires forall b :: 0 <= b < |x| ==> x[b] <= Locals(n)
    ensures Slack(x, n) >= 0
  {
    if x == [] {
    } else {
      SubsetSize(x[0], Locals(n));
      SlackBound(x[1..], n);
    }
  }

  lemma {:induction false} SlackUpdate(x: seq<set<LocalId>>, n: nat, b: nat, s: set<LocalId>)
    requires b < |x|
    ensures Slack(x[b := s], n) == Slack(x, n) + |x[b]| - |s|
  {
    var y := x[b := s];
    if b == 0 {
    } else {
      SlackUpdate(x[1..], n, b - 1, s);
      assert y[1..] == x[1..][b - 1 := s];
    }
  }

  lemma OutOfMonotone(succs: seq<BlockId>, x: seq<set<LocalId>>, y: seq<set<LocalId>>)
    requires |x| == |y| && forall b :: 0 <= b < |x| ==> x[b] <= y[b]
    ensures OutOf(succs, x) <= OutOf(succs, y)
  {
    forall l | l in OutOf(succs, x)
      ensures l in OutOf(succs, y)
    {
      var s :| s in succs && s < |x| && l in x[s];
      assert l in y[s];
    }
  }

  lemma OutOfLocal(succs: seq<BlockId>, x: seq<set<LocalId>>, b: BlockId, s: set<LocalId>)
    requires b < |x| && b !in succs
    ensures OutOf(succs, x[b := s]) == OutOf(succs, x)
  {
    forall l
      ensures l in OutOf(succs, x[b := s]) <==> l in OutOf(succs, x)
    {
      if l in OutOf(succs, x[b := s]) {
        var t :| t in succs && t < |x| && l in x[b := s][t];
        assert l in x[t];
      }
      if l in OutOf(succs, x) {
        var t :| t in succs && t < |x| && l in x[t];
        assert l in x[b := s][t];
      }
    }
  }

  /** The queue holds no block twice and `inWork` is its membership table. */
  ghost predicate Queue(n: nat, work: seq<BlockId>, inWork: seq<bool>) {
    |inWork| == n &&
    (forall k :: 0 <= k < |work| ==> work[k] < n) &&
    (forall b :: 0 <= b < n ==> (inWork[b] <==> b in work)) &&
    (forall j, k :: 0 <= j < k < |work| ==> work[j] != work[k])
  }

  /** A growing under-approximation of path liveness. */
  ghost predicate Growing(f: Function, liveIn: seq<set<LocalId>>) {
    |liveIn| == |f.blocks| &&
    (forall b :: 0 <= b < |f.blocks| ==> liveIn[b] <= LiveIn(f, b)) &&
    (forall b :: 0 <= b < |f.blocks| ==> liveIn[b] <= Transfer(f.blocks[b], liveIn))
  }

  ghost predicate SolvedAt(f: Function, liveIn: seq<set<LocalId>>, liveOut: seq<set<LocalId>>, b: BlockId)
    requires |liveIn| == |liveOut| == |f.blocks| && b < |f.blocks|
  {
    liveOut[b] == OutOf(Successors(f.blocks[b]), liveIn) && liveIn[b] == Transfer(f.blocks[b], liveIn)
  }

  /** Every block off the queue satisfies its equation. */
  ghost predicate SolvedOff(f: Function, liveIn: seq<set<LocalId>>, liveOut: seq<set<LocalId>>, inWork: seq<bool>) {
    |liveIn| == |liveOut| == |inWork| == |f.blocks| &&
    forall b :: 0 <= b < |f.blocks| && !inWork[b] ==> SolvedAt(f, liveIn, liveOut, b)
  }

  ghost predicate WorklistInv(f: Function, liveIn: seq<set<LocalId>>, liveOut: seq<set<LocalId>>,
                              work: seq<BlockId>, inWork: seq<bool>) {
    Queue(|f.blocks|, work, inWork) && Growing(f, liveIn) && SolvedOff(f, liveIn, liveOut, inWork)
  }

  lemma TransferSound(f: Function, x: seq<set<LocalId>>, b: BlockId)
    requires InRange(f) && b < |f.blocks| && |x| == |f.blocks|
    requires forall c :: 0 <= c < |x| ==> x[c] <= LiveIn(f, c)
    ensures Transfer(f.blocks[b], x) <= LiveIn(f, b)
  {
    PathLiveIsSolution(f);
    OutOfMonotone(Successors(f.blocks[b]), x, PathLive(f));
  }

  lemma SolvedContainsLive(f: Function, liveIn: seq<set<LocalId>>, b: BlockId)
    requires |liveIn| == |f.blocks| && b < |f.blocks|
    requires forall c :: 0 <= c < |f.blocks| ==> Transfer(f.blocks[c], liveIn) <= liveIn[c]
    ensures LiveIn(f, b) <= liveIn[b]
  {
    forall l | l in LiveIn(f, b)
      ensures l in liveIn[b]
    {
      var path :| LivePath(f, path, l) && path[0] == b;
      PathLiveIsLeast(f, liveIn, path, l);
    }
  }

  lemma SolvedIsPathLive(f: Function, liveIn: seq<set<LocalId>>, liveOut: seq<set<LocalId>>, inWork: seq<bool>)
    requires InRange(f) && WorklistInv(f, liveIn, liveOut, [], inWork)
    ensures |liveIn| == |liveOut| == |f.blocks|
    ensures forall b :: 0 <= b < |f.blocks| ==> liveIn[b] == LiveIn(f, b) && liveOut[b] == LiveOut(f, b)
  {
    forall b | 0 <= b < |f.blocks|
      ensures Transfer(f.blocks[b], liveIn) <= liveIn[b]
      ensures liveOut[b] == OutOf(Successors(f.blocks[b]), liveIn)
    {
      assert !inWork[b];
      assert SolvedAt(f, liveIn, liveOut, b);
    }
    assert liveIn == PathLive(f) by {
      forall b | 0 <= b < |f.blocks|
        ensures liveIn[b] == PathLive(f)[b]
      {
        SolvedContainsLive(f, liveIn, b);
      }
    }
    PathLiveIsSolution(f);
  }

  lemma GrowKeepsGrowing(f: Function, liveIn: seq<set<LocalId>>, bi: BlockId, inn: set<LocalId>)
    requires InRange(f) && Growing(f, liveIn) && bi < |f.blocks|
    requires inn == Transfer(f.blocks[bi], liveIn)
    ensures Growing(f, liveIn[bi := inn])
  {
    TransferSound(f, liveIn, bi);
    var grown := liveIn[bi := inn];
    forall b | 0 <= b < |f.blocks|
      ensures grown[b] <= Transfer(f.blocks[b], grown)
    {
      OutOfMonotone(Successors(f.blocks[b]), liveIn, grown);
    }
  }

  /** Push every predecessor that is not already queued. */
  method Requeue(preds: seq<BlockId>, work0: seq<BlockId>, inWork0: seq<bool>)
    returns (work: seq<BlockId>, inWork: seq<bool>)
    requires Queue(|inWork0|, work0, inWork0)
    requires forall k :: 0 <= k < |preds| ==> preds[k] < |inWork0|
    ensures Queue(|inWork0|, work, inWork)
    ensures forall b :: 0 <= b < |inWork| ==> (inWork[b] <==> inWork0[b] || b in preds)
  {
    work, inWork := work0, inWork0;
    for k := 0 to |preds|
      invariant Queue(|inWork0|, work, inWork)
      invariant forall b :: 0 <= b < |inWork| ==> (inWork[b] <==> inWork0[b] || b in preds[..k])
    {
      var p := preds[k];
      if !inWork[p] {
        assert p !in work;
        inWork := inWork[p := true];
        work := work + [p];
      }
    }
    assert preds[..|preds|] == preds;
  }

  method Summaries(f: Function) returns (use: seq<set<LocalId>>, def: seq<set<LocalId>>)
    ensures |use| == |def| == |f.blocks|
    ensures forall b :: 0 <= b < |f.blocks| ==> use[b] == BlockUse(f.blocks[b]) && def[b] == Defs(f.blocks[b].insts)
  {
    use, def := [], [];
    for bi := 0 to |f.blocks|
      invariant |use| == |def| == bi
      invariant forall b :: 0 <= b < bi ==> use[b] == BlockUse(f.blocks[b]) && def[b] == Defs(f.blocks[b].insts)
    {
      var u, d := BlockSummary(f.blocks[bi]);
      use, def := use + [u], def + [d];
    }
  }

  lemma PopKeepsQueue(n: nat, work: seq<BlockId>, inWork: seq<bool>, popped: seq<bool>)
    requires Queue(n, work, inWork) && work != []
    requires popped == inWork[work[|work| - 1] := false]
    ensures Queue(n, work[..|work| - 1], popped)
  {
    var rest := work[..|work| - 1];
    forall b | 0 <= b < n
      ensures popped[b] <==> b in rest
    {
      if popped[b] {
        var k :| 0 <= k < |work| && work[k] == b;
        assert rest[k] == b;
      }
    }
  }

  /** After block `bi` grew, only its predecessors can be unsolved. */
  lemma GrowKeepsSolved(f: Function, liveIn: seq<set<LocalId>>, liveOut: seq<set<LocalId>>, inWork: seq<bool>,
                        preds: seq<seq<BlockId>>, bi: BlockId, grown: seq<set<LocalId>>, requeued: seq<bool>)
    requires SolvedOff(f, liveIn, liveOut, inWork) && PredsUpTo(f, preds, |f.blocks|) && bi < |f.blocks|
    requires grown == liveIn[bi := Transfer(f.blocks[bi], liveIn)]
    requires |requeued| == |f.blocks|
    requires forall b :: 0 <= b < |f.blocks| ==> (requeued[b] <==> (inWork[b] && b != bi) || b in preds[bi])
    ensures SolvedOff(f, grown, liveOut[bi := OutOf(Successors(f.blocks[bi]), liveIn)], requeued)
  {
    var out := liveOut[bi := OutOf(Successors(f.blocks[bi]), liveIn)];
    forall b | 0 <= b < |f.blocks| && !requeued[b]
      ensures SolvedAt(f, grown, out, b)
    {
      assert !Edge(f, b, bi);
      OutOfLocal(Successors(f.blocks[b]), liveIn, bi, grown[bi]);
      if b != bi {
        assert SolvedAt(f, liveIn, liveOut, b);
      }
    }
  }

  lemma SteadyKeepsSolved(f: Function, liveIn: seq<set<LocalId>>, liveOut: seq<set<LocalId>>, inWork: seq<bool>,
                          bi: BlockId, out: seq<set<LocalId>>, popped: seq<bool>)
    requires SolvedOff(f, liveIn, liveOut, inWork) && bi < |f.blocks|
    requires liveIn[bi] == Transfer(f.blocks[bi], liveIn)
    requires out == liveOut[bi := OutOf(Successors(f.blocks[bi]), liveIn)] && popped == inWork[bi := false]
    ensures SolvedOff(f, liveIn, out, popped)
  {
    forall b | 0 <= b < |f.blocks| && !popped[b]
      ensures SolvedAt(f, liveIn, out, b)
    {
      assert b != bi ==> SolvedAt(f, liveIn, liveOut, b);
    }
  }

  lemma SlackShrinks(f: Function, liveIn: seq<set<LocalId>>, bi: BlockId, inn: set<LocalId>)
    requires Growing(f, liveIn) && bi < |f.blocks|
    requires inn == Transfer(f.blocks[bi], liveIn) && inn != liveIn[bi]
    ensures Slack(liveIn[bi := inn], |f.locals|) < Slack(liveIn, |f.locals|)
  {
    SlackUpdate(liveIn, |f.locals|, bi, inn);
    SubsetSize(liveIn[bi], inn);
  }

  /** The solution grew, or it stayed and the queue got shorter. */
  ghost predicate Advances(f: Function, before: seq<set<LocalId>>, work0: seq<BlockId>, after: seq<set<LocalId>>,
                           work: seq<BlockId>)
  {
    var now, earlier := Slack(after, |f.locals|), Slack(before, |f.locals|);
    now < earlier || (now == earlier && |work| < |work0|)
  }

  /** One iteration of the worklist: recompute the last queued block, requeue its predecessors if it grew. */
  method Visit(f: Function, use: set<LocalId>, def: set<LocalId>, preds: seq<seq<BlockId>>,
               liveIn0: seq<set<LocalId>>, liveOut0: seq<set<LocalId>>, work0: seq<BlockId>, inWork0: seq<bool>)
    returns (liveIn: seq<set<LocalId>>, liveOut: seq<set<LocalId>>, work: seq<BlockId>, inWork: seq<bool>)
    requires InRange(f) && PredsUpTo(f, preds, |f.blocks|)
    requires WorklistInv(f, liveIn0, liveOut0, work0, inWork0) && work0 != []
    requires use == BlockUse(f.blocks[work0[|work0| - 1]]) && def == Defs(f.blocks[work0[|work0| - 1]].insts)
    ensures WorklistInv(f, liveIn, liveOut, work, inWork) && Advances(f, liveIn0, work0, liveIn, work)
  {
    liveIn := liveIn0;
    var bi := work0[|work0| - 1];
    work, inWork := work0[..|work0| - 1], inWork0[bi := false];
    PopKeepsQueue(|f.blocks|, work0, inWork0, inWork);
    var out := OutOf(Successors(f.blocks[bi]), liveIn);
    var inn := use + (out - def);
    liveOut := liveOut0[bi := out];
    if inn != liveIn[bi] {
      SlackShrinks(f, liveIn, bi, inn);
      GrowKeepsGrowing(f, liveIn, bi, inn);
      work, inWork := Requeue(preds[bi], work, inWork);
      liveIn := liveIn[bi := inn];
      GrowKeepsSolved(f, liveIn0, liveOut0, inWork0, preds, bi, liveIn, inWork);
    } else {
      SteadyKeepsSolved(f, liveIn0, liveOut0, inWork0, bi, liveOut, inWork);
    }
  }

  lemma StartInv(f: Function, empty: seq<set<LocalId>>, work: seq<BlockId>, inWork: seq<bool>)
    requires |empty| == |work| == |inWork| == |f.blocks|
    requires forall b :: 0 <= b < |f.blocks| ==> empty[b] == {} && work[b] == b && inWork[b]
    ensures WorklistInv(f, empty, empty, work, inWork)
  {
    forall b | 0 <= b < |f.blocks|
      ensures b in work
    {
      assert work[b] == b;
    }
  }

  lemma SlackFinite(f: Function, liveIn: seq<set<LocalId>>)
    requires |liveIn| == |f.blocks| && forall b :: 0 <= b < |f.blocks| ==> liveIn[b] <= LiveIn(f, b)
    ensures Slack(liveIn, |f.locals|) >= 0
  {
    SlackBound(liveIn, |f.locals|);
  }

  lemma WorklistSizes(f: Function, liveIn: seq<set<LocalId>>, liveOut: seq<set<LocalId>>, work: seq<BlockId>,
                      inWork: seq<bool>)
    requires WorklistInv(f, liveIn, liveOut, work, inWork)
    ensures |liveIn| == |liveOut| == |inWork| == |f.blocks| && Slack(liveIn, |f.locals|) >= 0
    ensures forall k :: 0 <= k < |work| ==> work[k] < |f.blocks|
  {
    SlackFinite(f, liveIn);
  }

  /**
   The backward worklist. It terminates with exactly path liveness, and every
   block's live-out is the union over its successors on exit.
   */
  method SolveLiveness(f: Function) returns (liveIn: seq<set<LocalId>>, liveOut: seq<set<LocalId>>)
    requires InRange(f)
    ensures |liveIn| == |liveOut| == |f.blocks|
    ensures forall b :: 0 <= b < |f.blocks| ==> liveIn[b] == LiveIn(f, b) && liveOut[b] == LiveOut(f, b)
  {
    var n := |f.blocks|;
    var use, def := Summaries(f);
    var preds := Predecessors(f);
    liveIn := seq(n, _ => {});
    liveOut := liveIn;
    var work: seq<BlockId> := seq(n, b requires 0 <= b < n => b);
    var inWork := seq(n, _ => true);
    StartInv(f, liveIn, work, inWork);
    while work != []
      invariant WorklistInv(f, liveIn, liveOut, work, inWork)
      decreases Slack(liveIn, |f.locals|), |work|
    {
      SlackFinite(f, liveIn);
      var bi := work[|work| - 1];
      liveIn, liveOut, work, inWork := Visit(f, use[bi], def[bi], preds, liveIn, liveOut, work, inWork);
      SlackFinite(f, liveIn);
    }
    SolvedIsPathLive(f, liveIn, liveOut, inWork);
  }

  // ---- the rooting pass ----

  /** The quadratic definition, restricted to instructions `i..` of one block. */
  ghost function CrossingFrom(f: Function, b: BlockId, i: nat): set<LocalId>
    requires b < |f.blocks| && i <= |f.blocks[b].insts|
  {
    set l | l in Locals(|f.locals|) && exists k: nat :: i <= k && CrossesAllocation(f, b, k, l)
  }

  ghost function CrossingBefore(f: Function, b: BlockId): set<LocalId> {
    set l | l in Locals(|f.locals|) && exists c: nat, k: nat :: c < b && CrossesAllocation(f, c, k, l)
  }

  /** Live locals whose range has already seen the epoch advance. */
  ghost function Pending(live: set<LocalId>, since: seq<nat>, epoch: nat): set<LocalId> {
    set l | l in live && l < |since| && epoch > since[l]
  }

  lemma CrossingStep(f: Function, b: BlockId, i: nat)
    requires InRange(f) && b < |f.blocks| && i < |f.blocks[b].insts|
    ensures CrossingFrom(f, b, i) ==
      CrossingFrom(f, b, i + 1) +
      (if MayAllocate(f.blocks[b].insts[i], f.locals)
       then Uses(f.blocks[b].insts[i]) + (LiveAt(f, b, i + 1) - DstSet(f.blocks[b].insts[i])) else {})
  {
    LiveAtInRange(f, b, i + 1);
    assert InstInRange(f.blocks[b].insts[i], |f.locals|);
    forall l: LocalId
      ensures l in CrossingFrom(f, b, i) <==>
        l in CrossingFrom(f, b, i + 1) || (l < |f.locals| && CrossesAllocation(f, b, i, l))
    {
      if l in CrossingFrom(f, b, i) {
        var k :| i <= k && CrossesAllocation(f, b, k, l);
        assert k == i || i + 1 <= k;
      }
    }
  }

  /** Read one instruction's operands: mark them if it allocates, start their live ranges. */
  method ReadOperands(ops: seq<LocalId>, allocates: bool, epoch: nat,
                      live0: set<LocalId>, since0: seq<nat>, needed0: set<LocalId>)
    returns (live: set<LocalId>, since: seq<nat>, needed: set<LocalId>)
    requires forall l :: l in live0 ==> l < |since0|
    requires forall k :: 0 <= k < |ops| ==> ops[k] < |since0|
    requires forall l :: 0 <= l < |since0| ==> since0[l] <= epoch
    ensures |since| == |since0| && forall l :: 0 <= l < |since| ==> since[l] <= epoch
    ensures live == live0 + (set l | l in ops)
    ensures Pending(live, since, epoch) == Pending(live0, since0, epoch)
    ensures needed == needed0 + (if allocates then set l | l in ops else {})
  {
    live, since, needed := live0, since0, needed0;
    for k := 0 to |ops|
      invariant |since| == |since0| && forall l :: 0 <= l < |since| ==> since[l] <= epoch
      invariant live == live0 + (set l | l in ops[..k])
      invariant Pending(live, since, epoch) == Pending(live0, since0, epoch)
      invariant needed == needed0 + (if allocates then set l | l in ops[..k] else {})
    {
      var l := ops[k];
      assert ops[..k + 1] == ops[..k] + [l];
      if allocates {
        needed := needed + {l};
      }
      if l !in live {
        live := live + {l};
        since := since[l := epoch];
      }
    }
    assert ops[..|ops|] == ops;
  }

  /** Terminator uses and live-outs start their ranges at the current epoch. */
  method StampLive(live: set<LocalId>, since0: seq<nat>, epoch: nat) returns (since: seq<nat>)
    requires forall l :: 0 <= l < |since0| ==> since0[l] <= epoch
    ensures |since| == |since0| && forall l :: 0 <= l < |since| ==> since[l] <= epoch
    ensures Pending(live, since, epoch) == {}
  {
    since := since0;
    for l := 0 to |since0|
      invariant |since| == |since0|
      invariant forall k :: 0 <= k < |since| ==> since[k] <= epoch
      invariant forall k :: 0 <= k < l && k in live ==> since[k] == epoch
    {
      if l in live {
        since := since[l := epoch];
      }
    }
  }

  /** At the start of a block, whatever is still live counts if an allocation came after its stamp. */
  method FlushLive(live: set<LocalId>, since: seq<nat>, epoch: nat,
        needed0: set<LocalId>) returns (needed: set<LocalId>)
    ensures needed == needed0 + Pending(live, since, epoch)
  {
    needed := needed0;
    for l := 0 to |since|
      invariant needed == needed0 + set k | k in Pending(live, since, epoch) && k < l
    {
      if l in live && epoch > since[l] {
        needed := needed + {l};
      }
    }
  }

  /** A definition ends its local's live range, which counts if an allocation came within it. */
  method EndRange(inst: Inst, live0: set<LocalId>, since: seq<nat>, epoch: nat, needed0: set<LocalId>)
    returns (live: set<LocalId>, needed: set<LocalId>)
    requires forall l :: l in live0 ==> l < |since|
    ensures live == live0 - DstSet(inst)
    ensures needed + Pending(live, since, epoch) == needed0 + Pending(live0, since, epoch)
  {
    live, needed := live0, needed0;
    if Dst(inst).Some? {
      var d := Dst(inst).value;
      if d in live {
        if epoch > since[d] {
          needed := needed + {d};
        }
        live := live - {d};
      }
    }
  }

  /** An allocation ends every epoch so far. */
  lemma AllPending(live: set<LocalId>, since: seq<nat>, epoch: nat)
    requires forall l :: l in live ==> l < |since| && since[l] <= epoch
    ensures Pending(live, since, epoch + 1) == live && Pending(live, since, epoch) <= live
  {
  }

  /** One instruction, cursor moving backward over it. */
  method RootInst(inst: Inst, locals: seq<Repr>, live0: set<LocalId>, since0: seq<nat>, epoch0: nat,
        needed0: set<LocalId>)
    returns (live: set<LocalId>, since: seq<nat>, epoch: nat, needed: set<LocalId>)
    requires InstInRange(inst, |locals|) && |since0| == |locals|
    requires forall l :: l in live0 ==> l < |locals|
    requires forall l :: 0 <= l < |since0| ==> since0[l] <= epoch0
    ensures |since| == |locals| && forall l :: 0 <= l < |since| ==> since[l] <= epoch
    ensures live == Uses(inst) + (live0 - DstSet(inst))
    ensures needed + Pending(live, since, epoch) ==
      needed0 + Pending(live0, since0, epoch0) +
      (if MayAllocate(inst, locals) then Uses(inst) + (live0 - DstSet(inst)) else {})
  {
    hide Pending, MayAllocate;
    since, epoch := since0, epoch0;
    live, needed := EndRange(inst, live0, since, epoch, needed0);
    var allocates := MayAllocate(inst, locals);
    if allocates {
      AllPending(live, since, epoch);
      epoch := epoch + 1;
    }
    forall k | 0 <= k < |Operands(inst)|
      ensures Operands(inst)[k] < |since|
    {
      assert Operands(inst)[k] in Operands(inst);
    }
    live, since, needed := ReadOperands(Operands(inst), allocates, epoch, live, since, needed);
  }

  /**
   One block of the epoch pass: from the block's live-out, one counter and one
   stamp per local find exactly the locals the quadratic definition finds.
   */
  method RootBlock(f: Function, b: BlockId, out: set<LocalId>, since0: seq<nat>, epoch0: nat, needed0: set<LocalId>)
    returns (since: seq<nat>, epoch: nat, needed: set<LocalId>)
    requires InRange(f) && b < |f.blocks| && out == LiveOut(f, b)
    requires |since0| == |f.locals| && forall l :: 0 <= l < |since0| ==> since0[l] <= epoch0
    ensures |since| == |f.locals| && forall l :: 0 <= l < |since| ==> since[l] <= epoch
    ensures needed == needed0 + CrossingFrom(f, b, 0)
  {
    var blk := f.blocks[b];
    epoch, needed := epoch0, needed0;
    var live := TermUses(blk.term) + out;
    since := StampLive(live, since0, epoch);
    var i := |blk.insts|;
    assert live == LiveAt(f, b, i);
    assert CrossingFrom(f, b, i) == {};
    while i > 0
      invariant 0 <= i <= |blk.insts|
      invariant live == LiveAt(f, b, i)
      invariant |since| == |f.locals| && forall l :: 0 <= l < |since| ==> since[l] <= epoch
      invariant needed + Pending(live, since, epoch) == needed0 + CrossingFrom(f, b, i)
    {
      LiveAtInRange(f, b, i);
      i := i - 1;
      assert BlockInRange(blk, |f.locals|, |f.blocks|);
      CrossingStep(f, b, i);
      LiveAtStep(f, b, i);
      live, since, epoch, needed := RootInst(blk.insts[i], f.locals, live, since, epoch, needed);
    }
    needed := FlushLive(live, since, epoch, needed);
  }

  lemma CrossingExtend(f: Function, b: BlockId)
    requires b < |f.blocks|
    ensures CrossingBefore(f, b + 1) == CrossingBefore(f, b) + CrossingFrom(f, b, 0)
  {
    forall l: LocalId
      ensures l in CrossingBefore(f, b + 1) <==> l in CrossingBefore(f, b) + CrossingFrom(f, b, 0)
    {
      if l in CrossingBefore(f, b + 1) {
        var c: nat, k: nat :| c < b + 1 && CrossesAllocation(f, c, k, l);
        assert c < b || c == b;
      }
    }
  }

  ghost function HandlerIns(f: Function, b: BlockId): set<LocalId>
    requires b < |f.blocks|
  {
    if f.blocks[b].handler.Some? then LiveIn(f, f.blocks[b].handler.value) else {}
  }

  /** Live-ins of the handlers of the first `n` blocks. */
  ghost function HandlerLive(f: Function, n: nat): set<LocalId>
    requires n <= |f.blocks|
  {
    if n == 0 then {} else HandlerLive(f, n - 1) + HandlerIns(f, n - 1)
  }

  lemma {:induction false} HandlerLiveMeaning(f: Function, n: nat, l: LocalId)
    requires n <= |f.blocks|
    ensures l in HandlerLive(f, n) <==> exists b: nat :: b < n && LiveAtHandler(f, b, l)
  {
    hide LiveIn;
    if n == 0 {
    } else {
      HandlerLiveMeaning(f, n - 1, l);
      assert LiveAtHandler(f, n - 1, l) <==> l in HandlerIns(f, n - 1);
    }
  }

  lemma MarkedIsNeeded(f: Function, l: LocalId)
    requires l < |f.locals|
    ensures NeedsRoot(f, l) <==>
      l in CrossingBefore(f, |f.blocks|) + HandlerLive(f, |f.blocks|) && IsGcRoot(f.locals[l])
  {
    if b: BlockId, i: nat :| CrossesAllocation(f, b, i, l) {
      assert b < |f.blocks|;
    }
    HandlerLiveMeaning(f, |f.blocks|, l);
  }

  method RootCrossings(f: Function, liveOut: seq<set<LocalId>>) returns (marked: set<LocalId>)
    requires InRange(f) && |liveOut| == |f.blocks|
    requires forall b :: 0 <= b < |f.blocks| ==> liveOut[b] == LiveOut(f, b)
    ensures marked == CrossingBefore(f, |f.blocks|)
  {
    marked := {};
    var since: seq<nat> := seq(|f.locals|, _ => 0);
    var epoch: nat := 0;
    for bi := 0 to |f.blocks|
      invariant |since| == |f.locals| && forall l :: 0 <= l < |since| ==> since[l] <= epoch
      invariant marked == CrossingBefore(f, bi)
    {
      CrossingExtend(f, bi);
      since, epoch, marked := RootBlock(f, bi, liveOut[bi], since, epoch, marked);
    }
  }

  method RootHandlers(f: Function, liveIn: seq<set<LocalId>>, marked0: set<LocalId>) returns (marked: set<LocalId>)
    requires InRange(f) && |liveIn| == |f.blocks|
    requires forall b :: 0 <= b < |f.blocks| ==> liveIn[b] == LiveIn(f, b)
    ensures marked == marked0 + HandlerLive(f, |f.blocks|)
  {
    hide LiveIn;
    marked := marked0;
    for bi := 0 to |f.blocks|
      invariant marked == marked0 + HandlerLive(f, bi)
    {
      assert BlockInRange(f.blocks[bi], |f.locals|, |f.blocks|);
      if f.blocks[bi].handler.Some? {
        assert f.blocks[bi].handler.value in Successors(f.blocks[bi]);
        marked := marked + liveIn[f.blocks[bi].handler.value];
      }
    }
  }

  /** Which locals get a slot in the frame's root array. */
  method RootsNeeded(f: Function) returns (needed: seq<bool>)
    requires InRange(f)
    ensures |needed| == |f.locals|
    ensures forall l :: 0 <= l < |f.locals| ==> (needed[l] <==> NeedsRoot(f, l))
  {
    var liveIn, liveOut := SolveLiveness(f);
    var crossing := RootCrossings(f, liveOut);
    var marked := RootHandlers(f, liveIn, crossing);
    needed := seq(|f.locals|, l requires 0 <= l < |f.locals| => l in marked && IsGcRoot(f.locals[l]));
    forall l | 0 <= l < |f.locals|
      ensures needed[l] <==> NeedsRoot(f, l)
    {
      MarkedIsNeeded(f, l);
    }
  }
}
