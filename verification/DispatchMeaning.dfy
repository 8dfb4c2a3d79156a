/**
 What a planned dispatcher replies, told from the member tables alone: which entry of which list each kind of member
 denotes in a class, and that every receiver is answered with its own class's entry.
 */
module DispatchMeaning {
  import opened Wrappers
  import opened Mir
  import opened Classes
  import opened Dispatch

  // ---- entries of the member tables ----

  /** The first of that name. */
  ghost predicate FirstFunc(ms: seq<(Name, FuncId)>, n: Name, i: nat) {
    i < |ms| && ms[i].0 == n && forall j: nat :: j < i ==> ms[j].0 != n
  }

  ghost predicate FirstProperty(ps: seq<Property>, n: Name, i: nat) {
    i < |ps| && ps[i].name == n && forall j: nat :: j < i ==> ps[j].name != n
  }

  ghost predicate FirstAttr(attrs: seq<ClassAttr>, n: Name, i: nat) {
    i < |attrs| && attrs[i].name == n && forall j: nat :: j < i ==> attrs[j].name != n
  }

  ghost predicate ListsFunc(ms: seq<(Name, FuncId)>, n: Name, fid: FuncId) {
    exists i: nat :: FirstFunc(ms, n, i) && ms[i].1 == fid
  }

  predicate Unlisted(ms: seq<(Name, FuncId)>, n: Name) {
    forall m <- ms :: m.0 != n
  }

  ghost predicate IsGetter(ps: seq<Property>, n: Name, fid: FuncId) {
    exists i: nat :: FirstProperty(ps, n, i) && ps[i].getter == fid
  }

  ghost predicate IsSetter(ps: seq<Property>, n: Name, fid: FuncId) {
    exists i: nat :: FirstProperty(ps, n, i) && ps[i].setter == Some(fid)
  }

  ghost predicate IsAttr(attrs: seq<ClassAttr>, n: Name, owner: ClassId, idx: nat) {
    exists i: nat :: FirstAttr(attrs, n, i) && attrs[i].owner == owner && attrs[i].idx == idx
  }

  /** The body of the class at this place defines the method as this function, and no class before it defines it. */
  ghost predicate DefinedAt(table: ClassTable, cs: seq<ClassId>, n: Name, fid: FuncId, at: nat) {
    at < |cs| && cs[at] in table && ListsFunc(table[cs[at]].ownMethods, n, fid) &&
    forall j: nat :: j < at && cs[j] in table ==> Unlisted(table[cs[j]].ownMethods, n)
  }

  ghost predicate NextDefinition(table: ClassTable, cs: seq<ClassId>, n: Name, fid: FuncId) {
    exists at: nat :: DefinedAt(table, cs, n, fid, at)
  }

  /** The member of this kind the class has under this name. */
  ghost predicate IsEntry(table: ClassTable, k: ClassId, n: Name, kind: MemberKind, t: Target) {
    k in table &&
    match t
    case Attr(owner, idx) => kind == ClassAttrRead && IsAttr(table[k].classAttrs, n, owner, idx)
    case Func(fid) =>
      match kind
      case Method => ListsFunc(table[k].methods, n, fid)
      case PropGet => IsGetter(table[k].properties, n, fid)
      case PropSet => IsSetter(table[k].properties, n, fid)
      case StaticViaInst =>
        ListsFunc(table[k].staticMethods, n, fid) ||
        (Unlisted(table[k].staticMethods, n) && ListsFunc(table[k].classMethods, n, fid))
      case SuperMethod => table[k].mro != [] && NextDefinition(table, table[k].mro[1..], n, fid)
      case ClassAttrRead => false
  }

  /** What a receiver of class `k` must be answered with through a reference of the key's class. */
  ghost predicate Reaches(table: ClassTable, key: Key, k: ClassId, t: Target) {
    if key.2 != SuperMethod then IsEntry(table, k, key.1, key.2, t)
    else k in table && t.Func? && DefinedAfter(table, table[k].mro, key.0, key.1, t.fid)
  }

  /** The next definition after the anchor's first place in the linearization. */
  ghost predicate DefinedAfter(table: ClassTable, mro: seq<ClassId>, anchor: ClassId, n: Name, fid: FuncId) {
    exists at: nat ::
      at < |mro| && mro[at] == anchor && anchor !in mro[..at] && NextDefinition(table, mro[at + 1..], n, fid)
  }

  // ---- lookups find the first entry ----

  lemma {:induction false} FindsFirstFunc(ms: seq<(Name, FuncId)>, n: Name, fid: FuncId)
    ensures FindFunc(ms, n) == Some(fid) <==> ListsFunc(ms, n, fid)
    ensures FindFunc(ms, n) == None <==> Unlisted(ms, n)
  {
    if ms == [] {
    } else if ms[0].0 == n {
      assert FirstFunc(ms, n, 0);
    } else {
      FindsFirstFunc(ms[1..], n, fid);
      forall i: nat ensures FirstFunc(ms[1..], n, i) <==> FirstFunc(ms, n, i + 1) {
        assert FirstFunc(ms, n, i + 1) ==> forall j: nat :: j < i ==> ms[1..][j] == ms[j + 1];
      }
      if i: nat :| FirstFunc(ms, n, i) && ms[i].1 == fid {
        assert FirstFunc(ms[1..], n, i - 1);
      }
      if i: nat :| FirstFunc(ms[1..], n, i) && ms[1..][i].1 == fid {
        assert FirstFunc(ms, n, i + 1);
      }
    }
  }

  lemma {:induction false} FindsFirstProperty(ps: seq<Property>, n: Name) returns (i: nat)
    ensures FindProperty(ps, n).Some? ==> FirstProperty(ps, n, i) && FindProperty(ps, n) == Some(ps[i])
    ensures FindProperty(ps, n) == None ==> forall j: nat :: !FirstProperty(ps, n, j)
    ensures forall j: nat, j': nat :: FirstProperty(ps, n, j) && FirstProperty(ps, n, j') ==> j == j'
  {
    if ps == [] || ps[0].name == n {
      i := 0;
    } else {
      i := FindsFirstProperty(ps[1..], n);
      assert forall j: nat :: 0 < j < |ps| ==> ps[j] == ps[1..][j - 1];
      i := i + 1;
    }
  }

  lemma {:induction false} FindsFirstAttr(attrs: seq<ClassAttr>, n: Name) returns (i: nat)
    ensures FindAttr(attrs, n).Some? ==> FirstAttr(attrs, n, i) && FindAttr(attrs, n) == Some(attrs[i])
    ensures FindAttr(attrs, n) == None ==> forall j: nat :: !FirstAttr(attrs, n, j)
    ensures forall j: nat, j': nat :: FirstAttr(attrs, n, j) && FirstAttr(attrs, n, j') ==> j == j'
  {
    if attrs == [] || attrs[0].name == n {
      i := 0;
    } else {
      i := FindsFirstAttr(attrs[1..], n);
      assert forall j: nat :: 0 < j < |attrs| ==> attrs[j] == attrs[1..][j - 1];
      i := i + 1;
    }
  }

  lemma {:induction false} FindsNextDefinition(table: ClassTable, cs: seq<ClassId>, n: Name, fid: FuncId)
    ensures FirstOwn(table, cs, n) == Some(fid) <==> NextDefinition(table, cs, n, fid)
  {
    hide ListsFunc, Unlisted, FindFunc;
    if cs == [] {
    } else {
      if cs[0] in table {
        FindsFirstFunc(table[cs[0]].ownMethods, n, fid);
      }
      if Defines(table, cs[0], n) {
        if NextDefinition(table, cs, n, fid) {
          var at: nat :| DefinedAt(table, cs, n, fid, at);
          assert at == 0;
        } else {
          assert !DefinedAt(table, cs, n, fid, 0);
        }
      } else {
        FindsNextDefinition(table, cs[1..], n, fid);
        NextDefinitionSkips(table, cs, n, fid);
      }
    }
  }

  lemma NextDefinitionSkips(table: ClassTable, cs: seq<ClassId>, n: Name, fid: FuncId)
    requires cs != [] && !Defines(table, cs[0], n)
    ensures NextDefinition(table, cs, n, fid) <==> NextDefinition(table, cs[1..], n, fid)
  {
    hide ListsFunc, Unlisted, FindFunc;
    if cs[0] in table {
      FindsFirstFunc(table[cs[0]].ownMethods, n, fid);
    }
    if at: nat :| DefinedAt(table, cs, n, fid, at) {
      assert at > 0 && cs[1..][at - 1] == cs[at];
      assert forall j: nat :: j < at - 1 ==> cs[1..][j] == cs[j + 1];
      assert DefinedAt(table, cs[1..], n, fid, at - 1);
    }
    if at: nat :| DefinedAt(table, cs[1..], n, fid, at) {
      assert cs[at + 1] == cs[1..][at];
      assert forall j: nat :: 0 < j < at + 1 ==> cs[j] == cs[1..][j - 1];
      assert DefinedAt(table, cs, n, fid, at + 1);
    }
  }

  // ---- resolution ----

  lemma PropertyIsEntry(table: ClassTable, k: ClassId, n: Name, kind: MemberKind, t: Target)
    requires k in table && (kind == PropGet || kind == PropSet)
    ensures Resolve(table, k, n, kind) == Some(t) <==> IsEntry(table, k, n, kind, t)
  {
    hide FindProperty, FirstProperty;
    var i := FindsFirstProperty(table[k].properties, n);
  }

  lemma AttrIsEntry(table: ClassTable, k: ClassId, n: Name, t: Target)
    requires k in table
    ensures Resolve(table, k, n, ClassAttrRead) == Some(t) <==> IsEntry(table, k, n, ClassAttrRead, t)
  {
    hide FindAttr, FirstAttr;
    var i := FindsFirstAttr(table[k].classAttrs, n);
  }

  lemma FuncIsEntry(table: ClassTable, k: ClassId, n: Name, kind: MemberKind, fid: FuncId)
    requires k in table && (kind == Method || kind == StaticViaInst || kind == SuperMethod)
    ensures Resolve(table, k, n, kind) == Some(Func(fid)) <==> IsEntry(table, k, n, kind, Func(fid))
  {
    hide FindFunc, ListsFunc, Unlisted, NextDefinition;
    FindsFirstFunc(table[k].methods, n, fid);
    FindsFirstFunc(table[k].staticMethods, n, fid);
    FindsFirstFunc(table[k].classMethods, n, fid);
    if table[k].mro != [] {
      FindsNextDefinition(table, table[k].mro[1..], n, fid);
    }
  }

  /**
   A lookup by kind gives exactly the entry of that kind: the setter of the first property of the name and nothing when
   it has none, its getter, the first static method and only then the class method, the owner and index of the first
   attribute, the first method, the first own definition further along the linearization.
   */
  lemma ResolveIsEntry(table: ClassTable, k: ClassId, n: Name, kind: MemberKind, t: Target)
    ensures Resolve(table, k, n, kind) == Some(t) <==> IsEntry(table, k, n, kind, t)
  {
    hide IsEntry;
    if k in table {
      match kind
      case PropGet => PropertyIsEntry(table, k, n, kind, t);
      case PropSet => PropertyIsEntry(table, k, n, kind, t);
      case ClassAttrRead => AttrIsEntry(table, k, n, t);
      case _ =>
        if t.Func? {
          FuncIsEntry(table, k, n, kind, t.fid);
        } else {
          NoAttr(table, k, n, kind, t);
        }
    } else {
      NoClass(table, k, n, kind, t);
    }
  }

  lemma NoClass(table: ClassTable, k: ClassId, n: Name, kind: MemberKind, t: Target)
    requires k !in table
    ensures !IsEntry(table, k, n, kind, t)
  {
  }

  lemma NoAttr(table: ClassTable, k: ClassId, n: Name, kind: MemberKind, t: Target)
    requires k in table && t.Attr? && kind != ClassAttrRead
    ensures !IsEntry(table, k, n, kind, t) && Resolve(table, k, n, kind) != Some(t)
  {
  }

  lemma {:induction false} PositionIsFirst(mro: seq<ClassId>, c: ClassId, at: nat)
    ensures Position(mro, c) == Some(at) <==> at < |mro| && mro[at] == c && c !in mro[..at]
  {
    if mro == [] {
    } else if mro[0] == c {
      assert at > 0 ==> |mro| < at || mro[0] in mro[..at];
    } else if at > 0 {
      PositionIsFirst(mro[1..], c, at - 1);
      assert at <= |mro| ==> mro[..at] == [mro[0]] + mro[1..][..at - 1];
    }
  }

  lemma SuperIsAfter(table: ClassTable, k: ClassId, anchor: ClassId, n: Name, fid: FuncId)
    requires k in table
    ensures SuperTarget(table, k, anchor, n) == Some(Func(fid)) <==> DefinedAfter(table, table[k].mro, anchor, n, fid)
  {
    hide FirstOwn, NextDefinition, Position;
    var mro := table[k].mro;
    if SuperTarget(table, k, anchor, n) == Some(Func(fid)) {
      var at := Position(mro, anchor).value;
      PositionIsFirst(mro, anchor, at);
      FindsNextDefinition(table, mro[at + 1..], n, fid);
    }
    if at: nat :| at < |mro| && mro[at] == anchor && anchor !in mro[..at] &&
                  NextDefinition(table, mro[at + 1..], n, fid) {
      PositionIsFirst(mro, anchor, at);
      FindsNextDefinition(table, mro[at + 1..], n, fid);
    }
  }

  /** The answer for a class is the entry it reaches, and the static one where it reaches none. */
  lemma OwnIsReached(table: ClassTable, key: Key, k: ClassId, base: Target, t: Target)
    ensures Reaches(table, key, k, t) ==> OwnTarget(table, key.0, k, key.1, key.2, base) == t
    ensures (forall u :: !Reaches(table, key, k, u)) ==> OwnTarget(table, key.0, k, key.1, key.2, base) == base
  {
    hide Resolve, IsEntry, DefinedAfter, SuperTarget;
    var own := if key.2 == SuperMethod then SuperTarget(table, k, key.0, key.1) else Resolve(table, k, key.1, key.2);
    ReachedIsOwn(table, key, k, t);
    if own.Some? {
      ReachedIsOwn(table, key, k, own.value);
    }
  }

  lemma ReachedIsOwn(table: ClassTable, key: Key, k: ClassId, t: Target)
    ensures Reaches(table, key, k, t) <==>
      (if key.2 == SuperMethod then SuperTarget(table, k, key.0, key.1) else Resolve(table, k, key.1, key.2)) == Some(t)
  {
    hide Resolve, IsEntry, DefinedAfter;
    if key.2 != SuperMethod {
      ResolveIsEntry(table, k, key.1, key.2, t);
    } else if k in table && t.Func? {
      SuperIsAfter(table, k, key.0, key.1, t.fid);
    }
  }

  // ---- the plan ----

  function SpecOf(first: seq<FnSig>, specs: seq<DispatchSpec>, index: map<Key, FuncId>, key: Key): DispatchSpec
    requires key in index && |first| <= index[key] < |first| + |specs|
  {
    specs[index[key] - |first|]
  }

  lemma SpecFound(table: ClassTable, first: seq<FnSig>, specs: seq<DispatchSpec>, index: map<Key, FuncId>,
        sigs: seq<FnSig>, key: Key)
    requires PlanState(table, first, specs, index, sigs) && key in index
    ensures |first| <= index[key] < |first| + |specs| && Planned(table, first, key, SpecOf(first, specs, index, key))
  {
    hide Planned, SignaturesCover, OneKeyEach, Numbered, Signature;
    assert SpecFor(table, first, specs, sigs, key, index[key] - |first|);
  }

  /**
   Whatever class the receiver turns out to have, the planned dispatcher answers with the entry that class reaches,
   and with the static class's own entry where it reaches none.
   */
  lemma PlanAnswers(table: ClassTable, first: seq<FnSig>, specs: seq<DispatchSpec>, index: map<Key, FuncId>,
        sigs: seq<FnSig>, key: Key, k: ClassId, t: Target)
    requires PlanState(table, first, specs, index, sigs) && key in index && InFamily(table, key.0, k) && k != key.0
    ensures |first| <= index[key] < |first| + |specs|
    ensures var spec := SpecOf(first, specs, index, key);
      IsEntry(table, key.0, key.1, key.2, spec.base) && Select(spec.arms, spec.base, key.0) == spec.base &&
      (Reaches(table, key, k, t) ==> Select(spec.arms, spec.base, k) == t) &&
      ((forall u :: !Reaches(table, key, k, u)) ==> Select(spec.arms, spec.base, k) == spec.base)
  {
    hide PlanState, SpecOf, Resolve, OwnTarget, IsEntry, Reaches, Select, InFamily, Signature;
    SpecFound(table, first, specs, index, sigs, key);
    var spec := SpecOf(first, specs, index, key);
    ResolveIsEntry(table, key.0, key.1, key.2, spec.base);
    OwnIsReached(table, key, k, spec.base, t);
  }

  /** A class of the family has a first property of this name whose setter it is. */
  ghost predicate SetsInFamily(table: ClassTable, key: Key, t: Target) {
    t.Func? && exists c: ClassId :: InFamily(table, key.0, c) && IsSetter(table[c].properties, key.1, t.fid)
  }

  /** Property writes go to setters: one is planned only where the static class has one, and none ever answers else. */
  lemma SettersOnly(table: ClassTable, first: seq<FnSig>, specs: seq<DispatchSpec>, index: map<Key, FuncId>,
        sigs: seq<FnSig>, key: Key, k: ClassId)
    requires PlanState(table, first, specs, index, sigs) && key in index && key.2 == PropSet
    requires InFamily(table, key.0, k) && k != key.0
    ensures key.0 in table && exists fid :: IsSetter(table[key.0].properties, key.1, fid)
    ensures |first| <= index[key] < |first| + |specs|
    ensures var spec := SpecOf(first, specs, index, key); SetsInFamily(table, key, Select(spec.arms, spec.base, k))
  {
    hide Resolve, Select, SignaturesCover, Signature, IsSetter, PlanState, SpecOf;
    PlanAnswers(table, first, specs, index, sigs, key, k, Func(0));
    var spec := SpecOf(first, specs, index, key);
    if t :| Reaches(table, key, k, t) {
      PlanAnswers(table, first, specs, index, sigs, key, k, t);
      assert IsSetter(table[k].properties, key.1, t.fid);
    } else {
      assert InFamily(table, key.0, key.0) && IsSetter(table[key.0].properties, key.1, spec.base.fid);
    }
  }

  // ---- which members are planned ----

  /** A subclass reaches another entry than the static one. */
  ghost predicate Overridden(table: ClassTable, key: Key, base: Target, k: ClassId, t: Target) {
    k in table && k != key.0 && key.0 in table[k].mro && Reaches(table, key, k, t) && t != base
  }

  /** The vtable serves: a method that is no dunder, all of whose overrides are called the way the base is. */
  ghost predicate VtableServes(table: ClassTable, sigs: seq<FnSig>, key: Key, base: Target) {
    key.2 == Method && !IsDunder(key.1) &&
    forall k, t :: Overridden(table, key, base, k, t) ==>
      InSigs(base, sigs) && InSigs(t, sigs) && Compatible(sigs, base, t)
  }

  /** A dunder is a name between two double underscores. */
  lemma DunderIsWrapped(n: Name)
    ensures IsDunder(n) <==> exists core: Name :: core != "" && n == "__" + core + "__"
  {
    if IsDunder(n) {
      var core := n[2..|n| - 2];
      assert n == "__" + core + "__";
    }
  }

  lemma DivergesIsOverridden(table: ClassTable, key: Key, base: Target, k: ClassId)
    ensures Diverges(table, key.0, k, key.1, key.2, base) <==>
      Overridden(table, key, base, k, OwnTarget(table, key.0, k, key.1, key.2, base))
    ensures forall t :: Overridden(table, key, base, k, t) ==> t == OwnTarget(table, key.0, k, key.1, key.2, base)
  {
    hide OwnTarget, Reaches;
    var own := OwnTarget(table, key.0, k, key.1, key.2, base);
    OwnIsReached(table, key, k, base, own);
    if u :| Reaches(table, key, k, u) {
      OwnIsReached(table, key, k, base, u);
    }
    forall t | Overridden(table, key, base, k, t) ensures t == own {
      OwnIsReached(table, key, k, base, t);
    }
  }

  /** A member needs a dispatcher exactly when a subclass overrides its static entry and the vtable does not serve. */
  lemma NeedsIsOverridden(table: ClassTable, sigs: seq<FnSig>, key: Key, base: Target)
    requires SignaturesCover(table, sigs) && IsEntry(table, key.0, key.1, key.2, base)
    ensures NeedsDispatcher(table, sigs, key) <==>
      (exists k, t :: Overridden(table, key, base, k, t)) && !VtableServes(table, sigs, key, base)
  {
    hide Resolve, OwnTarget, IsEntry, SignaturesCover, Diverges, Overridden, VtableServes, KeepsVtable;
    ResolveIsEntry(table, key.0, key.1, key.2, base);
    ResolveInRange(table, key.0, key.1, key.2, sigs);
    KeepsIsServes(table, sigs, key, base);
    if k: ClassId :| Diverges(table, key.0, k, key.1, key.2, base) {
      DivergesIsOverridden(table, key, base, k);
    }
    if k, t :| Overridden(table, key, base, k, t) {
      DivergesIsOverridden(table, key, base, k);
    }
  }

  lemma KeepsIsServes(table: ClassTable, sigs: seq<FnSig>, key: Key, base: Target)
    requires SignaturesCover(table, sigs) && InSigs(base, sigs)
    ensures KeepsVtable(table, sigs, key, base) <==> VtableServes(table, sigs, key, base)
  {
    hide Resolve, OwnTarget, SignaturesCover, Diverges, Overridden, Compatible;
    if KeepsVtable(table, sigs, key, base) {
      forall k, t | Overridden(table, key, base, k, t)
        ensures InSigs(t, sigs) && Compatible(sigs, base, t)
      {
        DivergesIsOverridden(table, key, base, k);
        OwnInRange(table, key.0, k, key.1, key.2, base, sigs);
      }
    }
    if VtableServes(table, sigs, key, base) {
      forall k: ClassId | Diverges(table, key.0, k, key.1, key.2, base)
        ensures var t := OwnTarget(table, key.0, k, key.1, key.2, base); InSigs(t, sigs) && Compatible(sigs, base, t)
      {
        DivergesIsOverridden(table, key, base, k);
      }
    }
  }

  /** A member the class does not have is not planned for. */
  lemma NoEntryNoDispatcher(table: ClassTable, sigs: seq<FnSig>, key: Key)
    requires SignaturesCover(table, sigs) && forall t :: !IsEntry(table, key.0, key.1, key.2, t)
    ensures !NeedsDispatcher(table, sigs, key)
  {
    hide Resolve, IsEntry, SignaturesCover, Diverges;
    var r := Resolve(table, key.0, key.1, key.2);
    if r.Some? {
      ResolveIsEntry(table, key.0, key.1, key.2, r.value);
    }
  }

  // ---- calling conventions ----

  /** One convention is another's when nothing but the receiver's representation differs. */
  lemma AbiIsAllButReceiver(sigs: seq<FnSig>, a: FuncId, b: FuncId)
    requires a < |sigs| && b < |sigs|
    ensures AbiCompatible(sigs, a, b) <==>
      |sigs[a].params| == |sigs[b].params| &&
      (sigs[b] == sigs[a] || (sigs[a].params != [] &&
       sigs[b] == sigs[a].(params := sigs[a].params[0 := sigs[b].params[0]])))
  {
    var x, y := sigs[a].params, sigs[b].params;
    if x != [] && |x| == |y| {
      assert y == [y[0]] + y[1..] && x[0 := y[0]] == [y[0]] + x[1..];
    }
  }

  /** Calls through a dispatcher are calls of the base, after a selecting receiver where the base takes none. */
  lemma SignatureIsBase(sigs: seq<FnSig>, n: Name, kind: MemberKind, base: Target)
    requires InSigs(base, sigs)
    ensures var own := Signature(sigs, n, kind, base);
      var selector := if base.Func? && kind != StaticViaInst then 0 else 1;
      var taken := if base.Func? then sigs[base.fid] else FnSig([], [], [], Tagged, false, false);
      |own.params| == selector + |taken.params| && (forall p <- own.params :: p == Tagged) && own.ret == Tagged &&
      own == own.(paramNames := [n][..selector] + taken.paramNames, defaults := [None][..selector] + taken.defaults,
                  varargs := taken.varargs, kwargs := taken.kwargs)
  {
  }
}
