/** The body of a dispatcher: a chain of class-id tests with the arms set aside. */
module DispatcherBody {
  import opened Mir
  import opened Classes
  import opened Dispatch

  /** `Open` is a reserved block that has not been sealed yet. */
  datatype Block = Open | Test(cid: ClassId, arm: BlockId, next: BlockId) | Reply(target: Target)

  /** The chain runs forward, and an arm is never itself a test. */
  predicate IsChain(blocks: seq<Block>) {
    forall b: nat :: b < |blocks| && blocks[b].Test? ==>
      blocks[b].arm < |blocks| && !blocks[blocks[b].arm].Test? && b < blocks[b].next < |blocks|
  }

  /** The block where a receiver of class `k` stops. */
  function Stop(blocks: seq<Block>, b: BlockId, k: ClassId): (s: BlockId)
    requires IsChain(blocks) && b < |blocks|
    ensures s < |blocks| && !blocks[s].Test?
    decreases |blocks| - b
  {
    if !blocks[b].Test? then b else if k == blocks[b].cid then blocks[b].arm else Stop(blocks, blocks[b].next, k)
  }

  lemma {:induction false} ReservingKeepsStop(blocks: seq<Block>, b: BlockId, k: ClassId)
    requires IsChain(blocks) && b < |blocks|
    ensures IsChain(blocks + [Open]) && Stop(blocks + [Open], b, k) == Stop(blocks, b, k)
    decreases |blocks| - b
  {
    if !blocks[b].Test? {
    } else {
      ReservingKeepsStop(blocks, blocks[b].next, k);
    }
  }

  lemma {:induction false} ReplyKeepsStop(blocks: seq<Block>, at: BlockId, t: Target, b: BlockId, k: ClassId)
    requires IsChain(blocks) && b < |blocks| && at < |blocks| && blocks[at].Open?
    ensures IsChain(blocks[at := Reply(t)]) && Stop(blocks[at := Reply(t)], b, k) == Stop(blocks, b, k)
    decreases |blocks| - b
  {
    if !blocks[b].Test? {
    } else {
      ReplyKeepsStop(blocks, at, t, blocks[b].next, k);
    }
  }

  predicate NoArm(blocks: seq<Block>, cur: BlockId) {
    forall b: nat :: b < |blocks| && blocks[b].Test? ==> blocks[b].arm != cur
  }

  /** Sealing the current block with a test sends whoever stopped there on. */
  lemma {:induction false} TestMovesOn(blocks: seq<Block>, at: BlockId, test: Block, b: BlockId, k: ClassId)
    requires IsChain(blocks) && b < |blocks| && at < |blocks| && blocks[at].Open? && NoArm(blocks, at)
    requires test.Test? && test.arm < |blocks| && test.arm != at && at < test.next < |blocks|
    requires blocks[test.arm].Open? && blocks[test.next].Open?
    ensures IsChain(blocks[at := test])
    ensures Stop(blocks[at := test], b, k) ==
      if Stop(blocks, b, k) != at then Stop(blocks, b, k) else if k == test.cid then test.arm else test.next
    decreases |blocks| - b
  {
    if !blocks[b].Test? {
    } else {
      TestMovesOn(blocks, at, test, blocks[b].next, k);
    }
  }

  predicate Listed(arms: seq<Arm>, k: ClassId) {
    exists arm <- arms :: k in arm.classes
  }

  lemma {:induction false} SelectGrows(arms: seq<Arm>, arm: Arm, base: Target, k: ClassId)
    ensures Select(arms + [arm], base, k) ==
      if Listed(arms, k) then Select(arms, base, k) else if k in arm.classes then arm.target else base
    ensures Listed(arms + [arm], k) <==> Listed(arms, k) || k in arm.classes
  {
    if arms == [] {
    } else {
      assert (arms + [arm])[1..] == arms[1..] + [arm];
      SelectGrows(arms[1..], arm, base, k);
      assert Listed(arms, k) <==> k in arms[0].classes || Listed(arms[1..], k);
    }
  }

  lemma {:induction false} UnlistedIsBase(arms: seq<Arm>, base: Target, k: ClassId)
    requires !Listed(arms, k)
    ensures Select(arms, base, k) == base
  {
    if arms == [] {
    } else {
      UnlistedIsBase(arms[1..], base, k);
    }
  }

  ghost predicate Current(blocks: seq<Block>, cur: BlockId) {
    IsChain(blocks) && cur < |blocks| && blocks[cur].Open? && NoArm(blocks, cur)
  }

  predicate Replies(blocks: seq<Block>, s: BlockId, t: Target) {
    s < |blocks| && blocks[s] == Reply(t)
  }

  /** Where a class is while an arm is being built: replied to, at the arm, or still at the current block. */
  ghost predicate RouteOf(
    blocks: seq<Block>, cur: BlockId, arm: BlockId, sorted: seq<ClassId>, arms: seq<Arm>, base: Target, k: ClassId)
    requires Current(blocks, cur)
  {
    var s := Stop(blocks, 0, k);
    if Listed(arms, k) then Replies(blocks, s, Select(arms, base, k)) else s == if k in sorted then arm else cur
  }

  /** Classes of earlier arms stop at their reply, those listed so far for this arm at its reserved block. */
  ghost predicate Sorting(
    blocks: seq<Block>, cur: BlockId, arm: BlockId, sorted: seq<ClassId>, arms: seq<Arm>, base: Target)
  {
    Current(blocks, cur) && arm < |blocks| && blocks[arm].Open? && arm != cur &&
    forall k: ClassId :: RouteOf(blocks, cur, arm, sorted, arms, base, k)
  }

  ghost predicate Routed(blocks: seq<Block>, cur: BlockId, arms: seq<Arm>, base: Target) {
    Current(blocks, cur) && forall k: ClassId :: RouteOf(blocks, cur, cur, [], arms, base, k)
  }

  lemma ArmReserved(blocks: seq<Block>, cur: BlockId, arms: seq<Arm>, base: Target)
    requires Routed(blocks, cur, arms, base)
    ensures Sorting(blocks + [Open], cur, |blocks|, [], arms, base)
  {
    ReservingKeepsStop(blocks, 0, 0);
    forall k: ClassId
      ensures RouteOf(blocks + [Open], cur, |blocks|, [], arms, base, k)
    {
      ReservingKeepsStop(blocks, 0, k);
      assert RouteOf(blocks, cur, cur, [], arms, base, k);
    }
  }

  lemma ClassSorted(
      blocks: seq<Block>, cur: BlockId, arm: BlockId, sorted: seq<ClassId>, arms: seq<Arm>, base: Target, c: ClassId)
    requires Sorting(blocks, cur, arm, sorted, arms, base)
    ensures var next := |blocks|;
      Sorting((blocks + [Open])[cur := Test(c, arm, next)], next, arm, sorted + [c], arms, base)
  {
    var next := |blocks|;
    var more := blocks + [Open];
    var test := Test(c, arm, next);
    ReservingKeepsStop(blocks, 0, 0);
    TestMovesOn(more, cur, test, 0, 0);
    var after, now := more[cur := test], sorted + [c];
    forall k: ClassId
      ensures RouteOf(after, next, arm, now, arms, base, k)
    {
      assert RouteOf(blocks, cur, arm, sorted, arms, base, k);
      ReservingKeepsStop(blocks, 0, k);
      TestMovesOn(more, cur, test, 0, k);
    }
  }

  lemma ArmSealed(blocks: seq<Block>, cur: BlockId, at: BlockId, arm: Arm, arms: seq<Arm>, base: Target)
    requires Sorting(blocks, cur, at, arm.classes, arms, base)
    ensures Routed(blocks[at := Reply(arm.target)], cur, arms + [arm], base)
  {
    ReplyKeepsStop(blocks, at, arm.target, 0, 0);
    var after, now := blocks[at := Reply(arm.target)], arms + [arm];
    forall k: ClassId
      ensures RouteOf(after, cur, cur, [], now, base, k)
    {
      assert RouteOf(blocks, cur, at, arm.classes, arms, base, k);
      ReplyKeepsStop(blocks, at, arm.target, 0, k);
      SelectGrows(arms, arm, base, k);
    }
  }

  /** Emit the chain: one test for each listed class, its arm aside, and the static resolution at the end. */
  method EmitDispatcher(arms: seq<Arm>, base: Target) returns (blocks: seq<Block>)
    ensures IsChain(blocks) && blocks != []
    ensures forall k: ClassId :: Replies(blocks, Stop(blocks, 0, k), Select(arms, base, k))
  {
    hide RouteOf, Stop, Listed, Select;
    blocks := [Open];
    var cur: BlockId := 0;
    NothingRouted(base);
    for i := 0 to |arms|
      invariant Routed(blocks, cur, arms[..i], base)
    {
      assert arms[..i + 1] == arms[..i] + [arms[i]];
      var at := |blocks|;
      ArmReserved(blocks, cur, arms[..i], base);
      blocks := blocks + [Open];
      var ks := arms[i].classes;
      for j := 0 to |ks|
        invariant Sorting(blocks, cur, at, ks[..j], arms[..i], base)
      {
        assert ks[..j + 1] == ks[..j] + [ks[j]];
        ClassSorted(blocks, cur, at, ks[..j], arms[..i], base, ks[j]);
        var next := |blocks|;
        blocks := (blocks + [Open])[cur := Test(ks[j], at, next)];
        cur := next;
      }
      assert ks[..|ks|] == ks;
      ArmSealed(blocks, cur, at, arms[i], arms[..i], base);
      blocks := blocks[at := Reply(arms[i].target)];
    }
    assert arms[..|arms|] == arms;
    ChainSealed(blocks, cur, arms, base);
    blocks := blocks[cur := Reply(base)];
  }

  /** The body of a planned dispatcher gives each class of the family what it resolves to itself. */
  method EmitPlanned(table: ClassTable, ghost sigs: seq<FnSig>, key: Key, spec: DispatchSpec)
    returns (blocks: seq<Block>)
    requires Planned(table, sigs, key, spec)
    requires key.0 in table && table[key.0].mro != [] && table[key.0].mro[0] == key.0
    ensures IsChain(blocks) && blocks != []
    ensures forall k: ClassId :: InFamily(table, key.0, k) ==>
      Replies(blocks, Stop(blocks, 0, k), OwnTarget(table, key.0, k, key.1, key.2, spec.base))
  {
    hide IsChain, Stop, Select, Signature, InSigs, Resolve, OwnTarget;
    OwnOfStatic(table, key.0, key.1, key.2);
    blocks := EmitDispatcher(spec.arms, spec.base);
  }

  lemma NothingRouted(base: Target)
    ensures Routed([Open], 0, [], base)
  {
    forall k: ClassId
      ensures RouteOf([Open], 0, 0, [], [], base, k)
    {
    }
  }

  lemma ChainSealed(blocks: seq<Block>, cur: BlockId, arms: seq<Arm>, base: Target)
    requires Routed(blocks, cur, arms, base)
    ensures var done := blocks[cur := Reply(base)];
      IsChain(done) && forall k: ClassId :: Replies(done, Stop(done, 0, k), Select(arms, base, k))
  {
    var done := blocks[cur := Reply(base)];
    ReplyKeepsStop(blocks, cur, base, 0, 0);
    forall k: ClassId
      ensures Replies(done, Stop(done, 0, k), Select(arms, base, k))
    {
      assert RouteOf(blocks, cur, cur, [], arms, base, k);
      ReplyKeepsStop(blocks, cur, base, 0, k);
      if !Listed(arms, k) {
        UnlistedIsBase(arms, base, k);
      }
    }
  }
}
