/** Mapping a call's positional count and keyword names onto a callee's parameter slots. */
module KeywordMatch {
  import opened Wrappers

  type Name = nat

  datatype SlotSource = Pos(i: nat) | Kw(k: nat) | Default

  datatype KwMatch = KwMatch(slots: seq<SlotSource>, leftover: seq<nat>)

  datatype KwMatchError =
    | Unexpected(name: Name)
    | Duplicate(name: Name)
    | Missing(name: Name)
    | TooManyPositional(expected: nat, got: nat)

  datatype Callee = Callee(params: seq<Name>, hasDefault: seq<bool>, allowExtra: bool)

  predicate Distinct<T(==)>(s: seq<T>) {
    forall i, j :: 0 <= i < j < |s| ==> s[i] != s[j]
  }

  /** Parameter `i` may take its value from `s`. */
  predicate SlotOk(c: Callee, nPos: nat, kws: seq<Name>, i: nat, s: SlotSource)
    requires |c.hasDefault| == |c.params| && i < |c.params|
  {
    if i < nPos then s == Pos(i) && c.params[i] !in kws
    else
      match s
      case Pos(_) => false
      case Kw(k) => k < |kws| && kws[k] == c.params[i]
      case Default => c.hasDefault[i] && c.params[i] !in kws
  }

  predicate SlotsOk(c: Callee, nPos: nat, kws: seq<Name>, slots: seq<SlotSource>)
    requires |c.hasDefault| == |c.params| && |slots| <= |c.params|
  {
    forall i :: 0 <= i < |slots| ==> SlotOk(c, nPos, kws, i, slots[i])
  }

  predicate Ascending(s: seq<nat>) {
    forall i, j :: 0 <= i < j < |s| ==> s[i] < s[j]
  }

  /** A legal way to bind the call: every slot filled, every unused keyword accounted for. */
  predicate Binds(c: Callee, nPos: nat, kws: seq<Name>, m: KwMatch)
    requires |c.hasDefault| == |c.params|
  {
    nPos <= |c.params| && |m.slots| == |c.params| &&
    SlotsOk(c, nPos, kws, m.slots) &&
    Ascending(m.leftover) && (forall k :: k in m.leftover ==> k < |kws|) &&
    (forall k: nat :: k < |kws| ==> (k in m.leftover <==> Kw(k) !in m.slots)) &&
    (!c.allowExtra ==> m.leftover == [])
  }

  /** Why this call cannot be bound. */
  predicate Explains(c: Callee, nPos: nat, kws: seq<Name>, e: KwMatchError)
    requires |c.hasDefault| == |c.params|
  {
    match e
    case TooManyPositional(expected, got) => expected == |c.params| && got == nPos && nPos > |c.params|
    case Duplicate(p) => p in kws && exists i :: 0 <= i < nPos && i < |c.params| && c.params[i] == p
    case Missing(p) => p !in kws && exists i :: nPos <= i < |c.params| && c.params[i] == p && !c.hasDefault[i]
    case Unexpected(n) =>
      !c.allowExtra &&
      exists k :: 0 <= k < |kws| && kws[k] == n && (n !in c.params || exists j :: 0 <= j < k && kws[j] == n)
  }

  /** The index of the first keyword with this name. */
  method FindKeyword(kws: seq<Name>, p: Name) returns (r: Option<nat>)
    ensures r.Some? ==> r.value < |kws| && kws[r.value] == p && p !in kws[..r.value]
    ensures r.None? ==> p !in kws
  {
    for k := 0 to |kws|
      invariant p !in kws[..k]
    {
      if kws[k] == p {
        return Some(k);
      }
    }
    r := None;
  }

  method UnusedKeywords(used: seq<bool>) returns (leftover: seq<nat>)
    ensures Ascending(leftover)
    ensures forall k :: k in leftover ==> k < |used|
    ensures forall k :: 0 <= k < |used| ==> (k in leftover <==> !used[k])
  {
    leftover := [];
    for k := 0 to |used|
      invariant Ascending(leftover)
      invariant forall i :: 0 <= i < |leftover| ==> leftover[i] < k
      invariant forall j :: 0 <= j < k ==> (j in leftover <==> !used[j])
    {
      if !used[k] {
        leftover := leftover + [k];
      }
    }
  }

  /** The slots so far are the first-occurrence ones, and `used` is what they use. */
  ghost predicate LoopInv(c: Callee, nPos: nat, kws: seq<Name>, slots: seq<SlotSource>, used: seq<bool>)
    requires |c.hasDefault| == |c.params| && |slots| <= |c.params|
  {
    SlotsOk(c, nPos, kws, slots) && |used| == |kws| &&
    (forall k :: 0 <= k < |kws| ==> (used[k] <==> Kw(k) in slots)) &&
    (forall k :: 0 <= k < |kws| && used[k] ==> kws[k] !in kws[..k])
  }

  /** Success binds the call; failure names a reason that no binding can get around. */
  method MatchKeywords(c: Callee, nPos: nat, kws: seq<Name>) returns (r: Result<KwMatch, KwMatchError>)
    requires |c.hasDefault| == |c.params| && Distinct(c.params)
    ensures r.Ok? ==> c.allowExtra || r.value.leftover == []
    ensures r.Ok? ==> Binds(c, nPos, kws, r.value)
    ensures r.Err? ==> Explains(c, nPos, kws, r.error)
  {
    if nPos > |c.params| {
      return Err(TooManyPositional(|c.params|, nPos));
    }
    var used := seq(|kws|, _ => false);
    var slots: seq<SlotSource> := [];
    for i := 0 to |c.params|
      invariant |slots| == i
      invariant LoopInv(c, nPos, kws, slots, used)
    {
      var p := c.params[i];
      var found := FindKeyword(kws, p);
      if i < nPos {
        if found.Some? {
          return Err(Duplicate(p));
        }
        slots := slots + [Pos(i)];
      } else if found.Some? {
        used := used[found.value := true];
        slots := slots + [Kw(found.value)];
      } else if c.hasDefault[i] {
        slots := slots + [Default];
      } else {
        return Err(Missing(p));
      }
    }
    var leftover := UnusedKeywords(used);
    if !c.allowExtra && leftover != [] {
      assert leftover[0] in leftover;
      LeftoverIsUnexpected(c, nPos, kws, slots, used, leftover[0]);
      return Err(Unexpected(kws[leftover[0]]));
    }
    r := Ok(KwMatch(slots, if c.allowExtra then leftover else []));
  }

  /** A keyword no slot used is either unknown or a repetition. */
  lemma LeftoverIsUnexpected(c: Callee, nPos: nat, kws: seq<Name>, slots: seq<SlotSource>, used: seq<bool>, k: nat)
    requires |c.hasDefault| == |c.params| && |slots| == |c.params| && nPos <= |c.params|
    requires LoopInv(c, nPos, kws, slots, used) && k < |kws| && !used[k]
    ensures kws[k] !in c.params || exists j :: 0 <= j < k && kws[j] == kws[k]
  {
    if i :| 0 <= i < |c.params| && c.params[i] == kws[k] {
      assert SlotOk(c, nPos, kws, i, slots[i]);
      assert slots[i].Kw?;
      var j := slots[i].k;
      assert Kw(j) in slots && used[j];
      assert kws[j] == kws[k] && j != k;
      forall x | 0 <= x < j
        ensures kws[x] != kws[j]
      {
        assert kws[..j][x] == kws[x];
      }
    }
  }

  /** A call that can be bound has no reason to fail, so success and failure are exact. */
  lemma BoundIsUnexplained(c: Callee, nPos: nat, kws: seq<Name>, m: KwMatch, e: KwMatchError)
    requires |c.hasDefault| == |c.params| && Distinct(c.params)
    requires Binds(c, nPos, kws, m)
    ensures !Explains(c, nPos, kws, e)
  {
    forall i | 0 <= i < |c.params|
      ensures if i < nPos then c.params[i] !in kws else c.params[i] in kws || c.hasDefault[i]
    {
      assert SlotOk(c, nPos, kws, i, m.slots[i]);
    }
    if !c.allowExtra {
      forall k, j | 0 <= j < k < |kws|
        ensures kws[j] != kws[k]
      {
        UsedOnce(c, nPos, kws, m, j);
        UsedOnce(c, nPos, kws, m, k);
        OneSlotPerName(c, nPos, kws, m, j, k);
      }
      forall k | 0 <= k < |kws|
        ensures kws[k] in c.params
      {
        UsedOnce(c, nPos, kws, m, k);
      }
    }
  }

  /** Without room for extras every keyword fills a slot of its own name. */
  lemma UsedOnce(c: Callee, nPos: nat, kws: seq<Name>, m: KwMatch, k: nat)
    requires |c.hasDefault| == |c.params| && Binds(c, nPos, kws, m) && !c.allowExtra && k < |kws|
    ensures Kw(k) in m.slots && kws[k] in c.params
  {
    assert k !in m.leftover;
    var i :| 0 <= i < |m.slots| && m.slots[i] == Kw(k);
    assert SlotOk(c, nPos, kws, i, m.slots[i]);
  }

  lemma OneSlotPerName(c: Callee, nPos: nat, kws: seq<Name>, m: KwMatch, j: nat, k: nat)
    requires |c.hasDefault| == |c.params| && Distinct(c.params) && Binds(c, nPos, kws, m)
    requires j < |kws| && k < |kws| && j != k && Kw(j) in m.slots && Kw(k) in m.slots
    ensures kws[j] != kws[k]
  {
    var a :| 0 <= a < |m.slots| && m.slots[a] == Kw(j);
    var b :| 0 <= b < |m.slots| && m.slots[b] == Kw(k);
    assert SlotOk(c, nPos, kws, a, m.slots[a]) && SlotOk(c, nPos, kws, b, m.slots[b]);
  }

  /** How often `x` occurs. */
  ghost function Count<T>(s: seq<T>, x: T): nat {
    multiset(s)[x]
  }

  lemma CountsOne<T>(s: seq<T>, x: T, at: nat)
    requires at < |s| && s[at] == x && forall i :: 0 <= i < |s| && s[i] == x ==> i == at
    ensures Count(s, x) == 1
  {
    assert s == s[..at] + [x] + s[at + 1..];
    assert x !in s[..at] && x !in s[at + 1..];
  }

  /** Every positional and every keyword index lands in exactly one place. */
  lemma BindingIsPartition(c: Callee, nPos: nat, kws: seq<Name>, m: KwMatch)
    requires |c.hasDefault| == |c.params| && Distinct(c.params) && Binds(c, nPos, kws, m)
    ensures forall i: nat :: i < nPos ==> Count(m.slots, Pos(i)) == 1
    ensures forall k: nat :: k < |kws| ==> Count(m.slots, Kw(k)) + Count(m.leftover, k) == 1
  {
    forall i: nat | i < nPos
      ensures Count(m.slots, Pos(i)) == 1
    {
      forall j | 0 <= j < |m.slots| && m.slots[j] == Pos(i)
        ensures j == i
      {
        assert SlotOk(c, nPos, kws, j, m.slots[j]);
      }
      assert SlotOk(c, nPos, kws, i, m.slots[i]);
      CountsOne(m.slots, Pos(i), i);
    }
    forall k: nat | k < |kws|
      ensures Count(m.slots, Kw(k)) + Count(m.leftover, k) == 1
    {
      if k in m.leftover {
        var at :| 0 <= at < |m.leftover| && m.leftover[at] == k;
        CountsOne(m.leftover, k, at);
      } else {
        var at :| 0 <= at < |m.slots| && m.slots[at] == Kw(k);
        forall j | 0 <= j < |m.slots| && m.slots[j] == Kw(k)
          ensures j == at
        {
          assert SlotOk(c, nPos, kws, j, m.slots[j]) && SlotOk(c, nPos, kws, at, m.slots[at]);
        }
        CountsOne(m.slots, Kw(k), at);
      }
    }
  }

  lemma NonEmptyHasMember(s: seq<nat>)
    ensures s != [] ==> exists k :: k in s
  {
    if |s| > 0 {
      assert s[0] in s;
    }
  }

  lemma AscendingIsSet(a: seq<nat>, b: seq<nat>)
    requires Ascending(a) && Ascending(b) && forall k :: k in a <==> k in b
    ensures a == b
    decreases |a|
  {
    if a != [] && b != [] {
      var x, y := a[|a| - 1], b[|b| - 1];
      assert x in b && y in a;
      assert x == y;
      var a', b' := a[..|a| - 1], b[..|b| - 1];
      forall k
        ensures k in a' <==> k in b'
      {
        assert k in a' ==> k in a && k < x;
        assert k in b' ==> k in b && k < y;
        assert k in a && k != x ==> k in a';
        assert k in b && k != y ==> k in b';
      }
      AscendingIsSet(a', b');
    } else {
      NonEmptyHasMember(a);
      NonEmptyHasMember(b);
    }
  }

  /** With distinct keywords there is only one way to bind a call. */
  lemma BindingIsUnique(c: Callee, nPos: nat, kws: seq<Name>, m: KwMatch, m': KwMatch)
    requires |c.hasDefault| == |c.params| && Distinct(kws)
    requires Binds(c, nPos, kws, m) && Binds(c, nPos, kws, m')
    ensures m == m'
  {
    forall i | 0 <= i < |m.slots|
      ensures m.slots[i] == m'.slots[i]
    {
      assert SlotOk(c, nPos, kws, i, m.slots[i]) && SlotOk(c, nPos, kws, i, m'.slots[i]);
    }
    assert m.slots == m'.slots;
    AscendingIsSet(m.leftover, m'.leftover);
  }
}
