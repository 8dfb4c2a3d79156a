/** Dead-code elimination: blank unreachable blocks, then sweep unread pure instructions to a fixpoint. */
module Dce {
  import opened Wrappers
  import opened Mir
  import opened Analysis

  // ---- what the pass may do ----

  /** Pure, and writing a local that `bag` never reads. */
  predicate Removable(inst: Inst, reprs: seq<Repr>, bag: multiset<LocalId>) {
    !HasSideEffects(inst, reprs) && Dst(inst).Some? && bag[Dst(inst).value] == 0
  }

  /** `kept` is `insts` without some removable instructions. */
  predicate Drops(insts: seq<Inst>, kept: seq<Inst>, reprs: seq<Repr>, bag: multiset<LocalId>) {
    if insts == [] then kept == []
    else
      (kept != [] && kept[0] == insts[0] && Drops(insts[1..], kept[1..], reprs, bag)) ||
      (Removable(insts[0], reprs, bag) && Drops(insts[1..], kept, reprs, bag))
  }

  predicate IsBlank(b: Block) {
    b.insts == [] && b.term.Unreachable?
  }

  /** Reachable blocks keep their edges and lose only dead instructions; the rest are blank. */
  ghost predicate CleanedBlock(f: Function, b: BlockId, blk: Block, bag: multiset<LocalId>)
    requires b < |f.blocks|
  {
    var was := f.blocks[b];
    if Reaches(f, b) then
      blk.term == was.term && blk.handler == was.handler && Drops(was.insts, blk.insts, f.locals, bag)
    else IsBlank(blk) && blk.handler == (if IsBlank(was) then was.handler else None)
  }

  ghost predicate Cleaned(f: Function, g: Function) {
    g == f.(blocks := g.blocks) && |g.blocks| == |f.blocks| &&
    forall b :: 0 <= b < |f.blocks| ==> CleanedBlock(f, b, g.blocks[b], FuncBag(g.blocks))
  }

  /** Every instruction left has an effect, no destination, or a destination that is read. */
  ghost predicate NothingDead(f: Function) {
    forall b, i :: 0 <= b < |f.blocks| && 0 <= i < |f.blocks[b].insts| ==>
      !Removable(f.blocks[b].insts[i], f.locals, FuncBag(f.blocks))
  }

  // ---- facts about dropping ----

  lemma {:induction false} DropsNothing(insts: seq<Inst>, reprs: seq<Repr>, bag: multiset<LocalId>)
    ensures Drops(insts, insts, reprs, bag)
  {
    if insts == [] {
    } else {
      DropsNothing(insts[1..], reprs, bag);
    }
  }

  /** Fewer reads make more instructions removable, never fewer. */
  lemma {:induction false} DropsMonotone(insts: seq<Inst>, kept: seq<Inst>, reprs: seq<Repr>,
                                         bag: multiset<LocalId>, less: multiset<LocalId>)
    requires Drops(insts, kept, reprs, bag) && less <= bag
    ensures Drops(insts, kept, reprs, less)
  {
    if insts == [] {
    } else {
      if kept != [] && kept[0] == insts[0] && Drops(insts[1..], kept[1..], reprs, bag) {
        DropsMonotone(insts[1..], kept[1..], reprs, bag, less);
      } else {
        DropsMonotone(insts[1..], kept, reprs, bag, less);
      }
    }
  }

  lemma {:induction false} DropsTransitive(a: seq<Inst>, b: seq<Inst>, c: seq<Inst>, reprs: seq<Repr>,
        bag: multiset<LocalId>)
    requires Drops(a, b, reprs, bag) && Drops(b, c, reprs, bag)
    ensures Drops(a, c, reprs, bag)
  {
    if a == [] {
    } else {
      if b != [] && b[0] == a[0] && Drops(a[1..], b[1..], reprs, bag) {
        if c != [] && c[0] == b[0] && Drops(b[1..], c[1..], reprs, bag) {
          DropsTransitive(a[1..], b[1..], c[1..], reprs, bag);
        } else {
          DropsTransitive(a[1..], b[1..], c, reprs, bag);
        }
      } else {
        DropsTransitive(a[1..], b, c, reprs, bag);
      }
    }
  }

  lemma {:induction false} DropsAppend(a: seq<Inst>, k: seq<Inst>, inst: Inst, keep: bool, reprs: seq<Repr>,
        bag: multiset<LocalId>)
    requires Drops(a, k, reprs, bag) && (keep || Removable(inst, reprs, bag))
    ensures Drops(a + [inst], if keep then k + [inst] else k, reprs, bag)
  {
    var k' := if keep then k + [inst] else k;
    if a == [] {
      assert [inst][1..] == [];
      assert a + [inst] == [inst] && k' == if keep then [inst] else [];
    } else {
      assert (a + [inst])[1..] == a[1..] + [inst];
      if k != [] && k[0] == a[0] && Drops(a[1..], k[1..], reprs, bag) {
        DropsAppend(a[1..], k[1..], inst, keep, reprs, bag);
        assert k'[1..] == if keep then k[1..] + [inst] else k[1..];
      } else {
        DropsAppend(a[1..], k, inst, keep, reprs, bag);
      }
    }
  }

  lemma {:induction false} DropsShrinks(insts: seq<Inst>, kept: seq<Inst>, reprs: seq<Repr>, bag: multiset<LocalId>)
    requires Drops(insts, kept, reprs, bag)
    ensures |kept| <= |insts|
    ensures |kept| == |insts| ==> kept == insts
    ensures InstsBag(kept) <= InstsBag(insts)
  {
    if insts == [] {
    } else {
      if kept != [] && kept[0] == insts[0] && Drops(insts[1..], kept[1..], reprs, bag) {
        DropsShrinks(insts[1..], kept[1..], reprs, bag);
      } else {
        DropsShrinks(insts[1..], kept, reprs, bag);
      }
    }
  }

  // ---- the sweep ----

  /** A removed instruction's operands are uncounted; a count is never below one here. */
  method DropReads(counts0: seq<nat>, ops: seq<LocalId>, ghost bag: multiset<LocalId>) returns (counts: seq<nat>)
    requires Counts(counts0, |counts0|, bag + multiset(ops)) && Below(ops, |counts0|)
    ensures Counts(counts, |counts0|, bag)
  {
    counts := counts0;
    for k := 0 to |ops|
      invariant Counts(counts, |counts0|, bag + multiset(ops[k..]))
    {
      assert ops[k..] == [ops[k]] + ops[k + 1..];
      counts := counts[ops[k] := counts[ops[k]] - 1];
    }
  }

  ghost predicate InstsBelow(insts: seq<Inst>, n: nat) {
    forall i :: 0 <= i < |insts| ==> Below(Operands(insts[i]), n) && (Dst(insts[i]).Some? ==> Dst(insts[i]).value < n)
  }

  /** The loop state of one block's sweep: exact counts for what is kept plus what is still to be seen. */
  ghost predicate SweepInv(insts: seq<Inst>, i: nat, kept: seq<Inst>, reprs: seq<Repr>, counts: seq<nat>,
        other: multiset<LocalId>) {
    i <= |insts| &&
    Counts(counts, |reprs|, other + InstsBag(kept) + InstsBag(insts[i..])) &&
    Drops(insts[..i], kept, reprs, other + InstsBag(kept) + InstsBag(insts[i..]))
  }

  lemma SweepStart(insts: seq<Inst>, reprs: seq<Repr>, counts: seq<nat>, other: multiset<LocalId>)
    requires Counts(counts, |reprs|, other + InstsBag(insts))
    ensures SweepInv(insts, 0, [], reprs, counts, other)
  {
    assert insts[0..] == insts && insts[..0] == [];
    assert other + InstsBag([]) + InstsBag(insts) == other + InstsBag(insts);
  }

  lemma Regroup<T>(other: multiset<T>, kept: multiset<T>, now: multiset<T>, rest: multiset<T>)
    ensures other + (kept + now) + rest == other + kept + (now + rest)
    ensures other + kept + rest <= other + kept + (now + rest)
  {
  }

  lemma ReadsLast<T>(kept: multiset<T>, now: multiset<T>, rest: multiset<T>)
    ensures kept + rest + now == kept + (now + rest)
  {
  }

  lemma FewerReads(inst: Inst, reprs: seq<Repr>, bag: multiset<LocalId>, less: multiset<LocalId>)
    requires Removable(inst, reprs, bag) && less <= bag
    ensures Removable(inst, reprs, less)
  {
  }

  lemma SweepKeep(insts: seq<Inst>, i: nat, kept: seq<Inst>, reprs: seq<Repr>, counts: seq<nat>,
        other: multiset<LocalId>)
    requires i < |insts| && SweepInv(insts, i, kept, reprs, counts, other)
    ensures SweepInv(insts, i + 1, kept + [insts[i]], reprs, counts, other)
  {
    hide Drops, HasSideEffects, InstsBag;
    var bag := other + InstsBag(kept) + InstsBag(insts[i..]);
    InstsBagSplit(insts, i);
    InstsBagPush(kept, insts[i]);
    Regroup(other, InstsBag(kept), multiset(Operands(insts[i])), InstsBag(insts[i + 1..]));
    DropsAppend(insts[..i], kept, insts[i], true, reprs, bag);
    assert insts[..i] + [insts[i]] == insts[..i + 1];
  }

  lemma SweepDrop(insts: seq<Inst>, i: nat, kept: seq<Inst>, reprs: seq<Repr>, counts: seq<nat>,
        other: multiset<LocalId>)
    requires i < |insts| && Drops(insts[..i], kept, reprs, other + InstsBag(kept) + InstsBag(insts[i..]))
    requires Removable(insts[i], reprs, other + InstsBag(kept) + InstsBag(insts[i..]))
    requires Counts(counts, |reprs|, other + InstsBag(kept) + InstsBag(insts[i + 1..]))
    ensures SweepInv(insts, i + 1, kept, reprs, counts, other)
  {
    hide Drops, Removable, InstsBag;
    var bag := other + InstsBag(kept) + InstsBag(insts[i..]);
    var less := other + InstsBag(kept) + InstsBag(insts[i + 1..]);
    InstsBagSplit(insts, i);
    Regroup(other, InstsBag(kept), multiset(Operands(insts[i])), InstsBag(insts[i + 1..]));
    FewerReads(insts[i], reprs, bag, less);
    DropsMonotone(insts[..i], kept, reprs, bag, less);
    DropsAppend(insts[..i], kept, insts[i], false, reprs, less);
    assert insts[..i] + [insts[i]] == insts[..i + 1];
  }

  lemma SweepDone(insts: seq<Inst>, kept: seq<Inst>, reprs: seq<Repr>, counts: seq<nat>, other: multiset<LocalId>)
    requires SweepInv(insts, |insts|, kept, reprs, counts, other)
    ensures Counts(counts, |reprs|, other + InstsBag(kept)) && Drops(insts, kept, reprs, other + InstsBag(kept))
  {
    assert insts[..|insts|] == insts && insts[|insts|..] == [];
    assert other + InstsBag(kept) + InstsBag([]) == other + InstsBag(kept);
  }

  /** `retain` over one block, decrementing read counts as it removes. */
  method SweepBlock(insts: seq<Inst>, reprs: seq<Repr>, counts0: seq<nat>, ghost other: multiset<LocalId>)
    returns (kept: seq<Inst>, counts: seq<nat>, changed: bool)
    requires InstsBelow(insts, |reprs|)
    requires Counts(counts0, |reprs|, other + InstsBag(insts))
    ensures Counts(counts, |reprs|, other + InstsBag(kept))
    ensures Drops(insts, kept, reprs, other + InstsBag(kept))
    ensures changed ==> |kept| < |insts|
    ensures !changed ==> kept == insts && counts == counts0
    ensures !changed ==> forall i :: 0 <= i < |insts| ==> !Removable(insts[i], reprs, other + InstsBag(insts))
  {
    hide Drops, InstsBag, HasSideEffects;
    kept, counts, changed := [], counts0, false;
    SweepStart(insts, reprs, counts0, other);
    for i := 0 to |insts|
      invariant SweepInv(insts, i, kept, reprs, counts, other)
      invariant changed ==> |kept| < i
      invariant !changed ==> kept == insts[..i] && counts == counts0
      invariant !changed ==> forall j :: 0 <= j < i ==> !Removable(insts[j], reprs, other + InstsBag(insts))
    {
      var inst := insts[i];
      if !HasSideEffects(inst, reprs) && Dst(inst).Some? && counts[Dst(inst).value] == 0 {
        InstsBagSplit(insts, i);
        ghost var rest := other + InstsBag(kept) + InstsBag(insts[i + 1..]);
        ReadsLast(other + InstsBag(kept), multiset(Operands(inst)), InstsBag(insts[i + 1..]));
        counts := DropReads(counts, Operands(inst), rest);
        SweepDrop(insts, i, kept, reprs, counts, other);
        changed := true;
      } else {
        SweepKeep(insts, i, kept, reprs, counts, other);
        kept := kept + [inst];
      }
    }
    SweepDone(insts, kept, reprs, counts, other);
    assert insts[..|insts|] == insts;
  }

  // ---- the whole function ----

  lemma {:induction false} DropsKeepsBelow(insts: seq<Inst>, kept: seq<Inst>, reprs: seq<Repr>,
        bag: multiset<LocalId>, n: nat)
    requires Drops(insts, kept, reprs, bag) && InstsBelow(insts, n)
    ensures InstsBelow(kept, n)
  {
    if insts == [] {
    } else {
      assert InstsBelow(insts[1..], n);
      if kept != [] && kept[0] == insts[0] && Drops(insts[1..], kept[1..], reprs, bag) {
        DropsKeepsBelow(insts[1..], kept[1..], reprs, bag, n);
        forall i | 0 <= i < |kept|
          ensures Below(Operands(kept[i]), n) && (Dst(kept[i]).Some? ==> Dst(kept[i]).value < n)
        {
          assert i > 0 ==> kept[i] == kept[1..][i - 1];
        }
      } else {
        DropsKeepsBelow(insts[1..], kept, reprs, bag, n);
      }
    }
  }

  ghost predicate BlocksBelow(blocks: seq<Block>, n: nat) {
    forall b :: 0 <= b < |blocks| ==> InstsBelow(blocks[b].insts, n)
  }

  /** `blocks` is `origin` with instructions removed that nothing left reads. */
  ghost predicate SweptFrom(origin: seq<Block>, blocks: seq<Block>, reprs: seq<Repr>) {
    |blocks| == |origin| &&
    forall b :: 0 <= b < |blocks| ==>
      blocks[b].term == origin[b].term && blocks[b].handler == origin[b].handler &&
      Drops(origin[b].insts, blocks[b].insts, reprs, FuncBag(blocks))
  }

  ghost predicate NothingDeadIn(blocks: seq<Block>, n: nat, reprs: seq<Repr>) {
    forall b, i :: 0 <= b < n <= |blocks| && 0 <= i < |blocks[b].insts| ==>
      !Removable(blocks[b].insts[i], reprs, FuncBag(blocks))
  }

  ghost function TotalInsts(blocks: seq<Block>): nat {
    if blocks == [] then 0 else |blocks[0].insts| + TotalInsts(blocks[1..])
  }

  lemma {:induction false} TotalUpdate(blocks: seq<Block>, i: nat, b: Block)
    requires i < |blocks|
    ensures TotalInsts(blocks[i := b]) == TotalInsts(blocks) - |blocks[i].insts| + |b.insts|
  {
    if i == 0 {
    } else {
      TotalUpdate(blocks[1..], i - 1, b);
      assert blocks[i := b][1..] == blocks[1..][i - 1 := b];
    }
  }

  /** The reads outside one block's instruction list, its terminator included. */
  ghost function Outside(blocks: seq<Block>, i: nat): multiset<LocalId>
    requires i < |blocks|
  {
    OtherBlocks(blocks, i) + multiset(TermOperands(blocks[i].term))
  }

  lemma OutsideBag(blocks: seq<Block>, i: nat, kept: seq<Inst>)
    requires i < |blocks|
    ensures FuncBag(blocks[i := blocks[i].(insts := kept)]) == Outside(blocks, i) + InstsBag(kept)
    ensures FuncBag(blocks) == Outside(blocks, i) + InstsBag(blocks[i].insts)
  {
    FuncBagAt(blocks, i, blocks[i].(insts := kept));
    FuncBagAt(blocks, i, blocks[i]);
    assert blocks[i := blocks[i]] == blocks;
  }

  lemma SweepStep(origin: seq<Block>, blocks: seq<Block>, i: nat, kept: seq<Inst>, reprs: seq<Repr>)
    requires i < |blocks| && SweptFrom(origin, blocks, reprs)
    requires Drops(blocks[i].insts, kept, reprs, Outside(blocks, i) + InstsBag(kept))
    ensures SweptFrom(origin, blocks[i := blocks[i].(insts := kept)], reprs)
  {
    hide Drops, FuncBag, InstsBag, Outside;
    var after := blocks[i := blocks[i].(insts := kept)];
    OutsideBag(blocks, i, kept);
    DropsShrinks(blocks[i].insts, kept, reprs, FuncBag(after));
    assert FuncBag(after) <= FuncBag(blocks);
    forall b | 0 <= b < |after|
      ensures Drops(origin[b].insts, after[b].insts, reprs, FuncBag(after))
    {
      DropsMonotone(origin[b].insts, blocks[b].insts, reprs, FuncBag(blocks), FuncBag(after));
      if b == i {
        DropsTransitive(origin[i].insts, blocks[i].insts, kept, reprs, FuncBag(after));
      }
    }
  }

  /** One sweep over every block. */
  method Sweep(blocks0: seq<Block>, reprs: seq<Repr>, counts0: seq<nat>, ghost origin: seq<Block>)
    returns (blocks: seq<Block>, counts: seq<nat>, changed: bool)
    requires BlocksBelow(blocks0, |reprs|) && SweptFrom(origin, blocks0, reprs)
    requires Counts(counts0, |reprs|, FuncBag(blocks0))
    ensures BlocksBelow(blocks, |reprs|) && SweptFrom(origin, blocks, reprs)
    ensures Counts(counts, |reprs|, FuncBag(blocks))
    ensures changed ==> TotalInsts(blocks) < TotalInsts(blocks0)
    ensures !changed ==> blocks == blocks0 && NothingDeadIn(blocks, |blocks|, reprs)
  {
    hide Drops, FuncBag, InstsBag, TotalInsts, HasSideEffects, BlockBag;
    blocks, counts, changed := blocks0, counts0, false;
    for bi := 0 to |blocks0|
      invariant |blocks| == |blocks0|
      invariant BlocksBelow(blocks, |reprs|) && SweptFrom(origin, blocks, reprs)
      invariant Counts(counts, |reprs|, FuncBag(blocks))
      invariant changed ==> TotalInsts(blocks) < TotalInsts(blocks0)
      invariant !changed ==> blocks == blocks0 && NothingDeadIn(blocks, bi, reprs)
    {
      ghost var before := blocks;
      OutsideBag(blocks, bi, blocks[bi].insts);
      var kept, counts', removed := SweepBlock(blocks[bi].insts, reprs, counts, Outside(blocks, bi));
      OutsideBag(blocks, bi, kept);
      SweepStep(origin, blocks, bi, kept, reprs);
      DropsKeepsBelow(blocks[bi].insts, kept, reprs, Outside(blocks, bi) + InstsBag(kept), |reprs|);
      TotalUpdate(blocks, bi, blocks[bi].(insts := kept));
      counts := counts';
      blocks := blocks[bi := blocks[bi].(insts := kept)];
      if removed {
        DropsShrinks(before[bi].insts, kept, reprs, Outside(before, bi) + InstsBag(kept));
        changed := true;
      } else {
        assert blocks == before;
      }
    }
  }

  ghost function Blanked(f: Function, b: BlockId): Block
    requires b < |f.blocks|
  {
    if Reaches(f, b) || IsBlank(f.blocks[b]) then f.blocks[b] else Block([], Unreachable, None)
  }

  /** Blank every unreachable block in place; block ids stay put. */
  method BlankUnreachable(f: Function) returns (g: Function)
    requires InRange(f)
    ensures g == f.(blocks := g.blocks) && |g.blocks| == |f.blocks|
    ensures forall b :: 0 <= b < |f.blocks| ==> g.blocks[b] == Blanked(f, b)
  {
    var reachable := ReachableBlocks(f);
    var blocks := f.blocks;
    for i := 0 to |f.blocks|
      invariant |blocks| == |f.blocks|
      invariant forall b :: 0 <= b < i ==> blocks[b] == Blanked(f, b)
      invariant forall b :: i <= b < |blocks| ==> blocks[b] == f.blocks[b]
    {
      if !reachable[i] && !IsBlank(blocks[i]) {
        blocks := blocks[i := Block([], Unreachable, None)];
      }
    }
    g := f.(blocks := blocks);
  }

  lemma BlankedInRange(f: Function, g: Function)
    requires InRange(f) && g == f.(blocks := g.blocks) && |g.blocks| == |f.blocks|
    requires forall b :: 0 <= b < |f.blocks| ==> g.blocks[b] == Blanked(f, b)
    ensures InRange(g) && BlocksBelow(g.blocks, |g.locals|)
  {
    forall b | 0 <= b < |g.blocks|
      ensures BlockInRange(g.blocks[b], |g.locals|, |g.blocks|)
      ensures InstsBelow(g.blocks[b].insts, |g.locals|)
    {
      assert BlockInRange(f.blocks[b], |f.locals|, |f.blocks|);
      forall i | 0 <= i < |g.blocks[b].insts|
        ensures Below(Operands(g.blocks[b].insts[i]), |g.locals|)
      {
        OperandsBelow(f, b, i);
      }
    }
  }

  /** The pass on one function: the loop ends, with exact counts, and nothing dead is left. */
  method RunFunc(f: Function) returns (g: Function)
    requires InRange(f)
    ensures Cleaned(f, g)
    ensures NothingDead(g)
  {
    hide Drops, FuncBag, TotalInsts, HasSideEffects;
    var blank := BlankUnreachable(f);
    BlankedInRange(f, blank);
    var counts := ReadCounts(blank);
    var blocks, changed := blank.blocks, true;
    forall b | 0 <= b < |blocks|
      ensures Drops(blocks[b].insts, blocks[b].insts, f.locals, FuncBag(blocks))
    {
      DropsNothing(blocks[b].insts, f.locals, FuncBag(blocks));
    }
    while changed
      invariant BlocksBelow(blocks, |f.locals|) && SweptFrom(blank.blocks, blocks, f.locals)
      invariant Counts(counts, |f.locals|, FuncBag(blocks))
      invariant !changed ==> NothingDeadIn(blocks, |blocks|, f.locals)
      decreases TotalInsts(blocks) + (if changed then 1 else 0)
    {
      blocks, counts, changed := Sweep(blocks, f.locals, counts, blank.blocks);
    }
    g := f.(blocks := blocks);
    SweptIsCleaned(f, blank, g);
  }

  lemma SweptIsCleaned(f: Function, blank: Function, g: Function)
    requires |blank.blocks| == |f.blocks| && forall b :: 0 <= b < |f.blocks| ==> blank.blocks[b] == Blanked(f, b)
    requires g == f.(blocks := g.blocks) && SweptFrom(blank.blocks, g.blocks, f.locals)
    ensures Cleaned(f, g)
  {
    forall b | 0 <= b < |f.blocks|
      ensures CleanedBlock(f, b, g.blocks[b], FuncBag(g.blocks))
    {
      assert blank.blocks[b] == Blanked(f, b);
    }
  }

  /** The pass over a program's function table. */
  method Run(p: seq<Function>) returns (q: seq<Function>)
    requires forall i :: 0 <= i < |p| ==> InRange(p[i])
    ensures |q| == |p| && forall i :: 0 <= i < |p| ==> Cleaned(p[i], q[i]) && NothingDead(q[i])
  {
    q := p;
    for i := 0 to |p|
      invariant |q| == |p|
      invariant forall j :: 0 <= j < i ==> Cleaned(p[j], q[j]) && NothingDead(q[j])
      invariant forall j :: i <= j < |p| ==> q[j] == p[j]
    {
      var g := RunFunc(q[i]);
      q := q[i := g];
    }
  }
}
