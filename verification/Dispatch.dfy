/** Resolved classes and the lookups on them. */
module Classes {
  import opened Wrappers
  import opened Mir

  type Name = string

  datatype Property = Property(name: Name, getter: FuncId, setter: Option<FuncId>)
  datatype ClassAttr = ClassAttr(name: Name, owner: ClassId, idx: nat)

  /** Member lists hold own and inherited members; `ownMethods` only what the class body defines. */
  datatype ClassInfo = ClassInfo(
    mro: seq<ClassId>, methods: seq<(Name, FuncId)>, ownMethods: seq<(Name, FuncId)>,
    staticMethods: seq<(Name, FuncId)>, classMethods: seq<(Name, FuncId)>,
    properties: seq<Property>, classAttrs: seq<ClassAttr>)

  type ClassTable = map<ClassId, ClassInfo>

  function FindFunc(ms: seq<(Name, FuncId)>, n: Name): (r: Option<FuncId>)
    ensures r.Some? <==> exists m <- ms :: m.0 == n
    ensures r.Some? ==> (n, r.value) in ms
  {
    if ms == [] then None
    else if ms[0].0 == n then Some(ms[0].1)
    else FindFunc(ms[1..], n)
  }

  function FindProperty(ps: seq<Property>, n: Name): (r: Option<Property>)
    ensures r.Some? <==> exists p <- ps :: p.name == n
    ensures r.Some? ==> r.value in ps
  {
    if ps == [] then None else if ps[0].name == n then Some(ps[0]) else FindProperty(ps[1..], n)
  }

  function FindAttr(attrs: seq<ClassAttr>, n: Name): (r: Option<ClassAttr>)
    ensures r.Some? <==> exists a <- attrs :: a.name == n
    ensures r.Some? ==> r.value in attrs
  {
    if attrs == [] then None else if attrs[0].name == n then Some(attrs[0]) else FindAttr(attrs[1..], n)
  }

  function Position(mro: seq<ClassId>, c: ClassId): (r: Option<nat>)
    ensures r.Some? <==> c in mro
    ensures r.Some? ==> r.value < |mro| && mro[r.value] == c
  {
    if mro == [] then None
    else if mro[0] == c then Some(0)
    else match Position(mro[1..], c) { case None => None case Some(i) => Some(i + 1) }
  }

  /** The first class of a linearization whose own body defines the method. */
  function FirstOwn(table: ClassTable, cs: seq<ClassId>, n: Name): Option<FuncId> {
    if cs == [] then None
    else if cs[0] in table && FindFunc(table[cs[0]].ownMethods, n).Some? then FindFunc(table[cs[0]].ownMethods, n)
    else FirstOwn(table, cs[1..], n)
  }

  predicate Defines(table: ClassTable, c: ClassId, n: Name) {
    c in table && FindFunc(table[c].ownMethods, n).Some?
  }

  /** It is the nearest definition: nothing before it defines the method, and there is none only if no class does. */
  lemma {:induction false} FirstOwnIsNearest(table: ClassTable, cs: seq<ClassId>, n: Name) returns (at: nat)
    ensures at <= |cs| && forall i: nat :: i < at ==> !Defines(table, cs[i], n)
    ensures at < |cs| ==> Defines(table, cs[at], n) && FirstOwn(table, cs, n) == FindFunc(table[cs[at]].ownMethods, n)
    ensures at == |cs| ==> FirstOwn(table, cs, n) == None
  {
    if cs == [] || Defines(table, cs[0], n) {
      at := 0;
    } else {
      at := FirstOwnIsNearest(table, cs[1..], n);
      assert forall i: nat :: 0 < i < at + 1 ==> cs[i] == cs[1..][i - 1];
      at := at + 1;
    }
  }

  /** `super().n()` from class `c`, for a receiver of class `c` itself. */
  function ResolveSuper(table: ClassTable, c: ClassId, n: Name): Option<FuncId> {
    if c !in table || table[c].mro == [] then None else FirstOwn(table, table[c].mro[1..], n)
  }

  predicate IsSubclass(table: ClassTable, a: ClassId, b: ClassId) {
    a == b || (a in table && b in table[a].mro)
  }
}

/** Planning the functions that select a member by the receiver's runtime class. */
module Dispatch {
  import opened Wrappers
  import opened Mir
  import opened Classes

  datatype MemberKind = Method | PropGet | PropSet | StaticViaInst | ClassAttrRead | SuperMethod

  datatype Target = Func(fid: FuncId) | Attr(owner: ClassId, idx: nat)

  datatype FnSig = FnSig(
    params: seq<Repr>, paramNames: seq<Name>, defaults: seq<Option<int>>, ret: Repr, varargs: bool, kwargs: bool)

  type Key = (ClassId, Name, MemberKind)

  datatype Arm = Arm(classes: seq<ClassId>, target: Target)

  datatype DispatchSpec = DispatchSpec(fid: FuncId, kind: MemberKind, base: Target, arms: seq<Arm>, nParams: nat,
        name: Name)

  predicate IsDunder(n: Name) {
    |n| > 4 && n[..2] == "__" && n[|n| - 2..] == "__"
  }

  function AsTarget(f: Option<FuncId>): Option<Target> {
    match f case None => None case Some(fid) => Some(Func(fid))
  }

  function Resolve(table: ClassTable, k: ClassId, n: Name, kind: MemberKind): Option<Target> {
    if k !in table then None
    else
      var info := table[k];
      match kind
      case Method => AsTarget(FindFunc(info.methods, n))
      case PropGet =>
        (match FindProperty(info.properties, n) case None => None case Some(p) => Some(Func(p.getter)))
      case PropSet =>
        (match FindProperty(info.properties, n) case None => None case Some(p) => AsTarget(p.setter))
      case StaticViaInst =>
        var s := FindFunc(info.staticMethods, n);
        AsTarget(if s.Some? then s else FindFunc(info.classMethods, n))
      case SuperMethod => AsTarget(ResolveSuper(table, k, n))
      case ClassAttrRead =>
        (match FindAttr(info.classAttrs, n) case None => None case Some(a) => Some(Attr(a.owner, a.idx)))
  }

  /** What `super().n` in a method of `anchor` reaches when the receiver's class is `k`. */
  function SuperTarget(table: ClassTable, k: ClassId, anchor: ClassId, n: Name): Option<Target> {
    if k !in table then None
    else
      match Position(table[k].mro, anchor)
      case None => None
      case Some(at) => AsTarget(FirstOwn(table, table[k].mro[at + 1..], n))
  }

  /**
   * What a receiver of runtime class `k` must reach through a reference typed `cid`: its own resolution, or the
   * static one where `k` has no member of this kind.
   */
  function OwnTarget(table: ClassTable, cid: ClassId, k: ClassId, n: Name, kind: MemberKind, base: Target): Target {
    var own := if kind == SuperMethod then SuperTarget(table, k, cid, n) else Resolve(table, k, n, kind);
    if own.Some? then own.value else base
  }

  /** On the static class itself the static resolution is the right one. */
  lemma OwnOfStatic(table: ClassTable, cid: ClassId, n: Name, kind: MemberKind)
    requires cid in table && table[cid].mro != [] && table[cid].mro[0] == cid
    requires Resolve(table, cid, n, kind).Some?
    ensures var base := Resolve(table, cid, n, kind).value;
      OwnTarget(table, cid, cid, n, kind, base) == base
  {
    assert Position(table[cid].mro, cid) == Some(0);
  }

  // ---- calling conventions ----

  predicate SameTail(a: seq<Repr>, b: seq<Repr>) {
    |a| == |b| && (a != [] ==> a[1..] == b[1..])
  }

  /** Calling `b` with `a`'s convention is exact: all but the receiver's own representation agrees. */
  predicate AbiCompatible(sigs: seq<FnSig>, a: FuncId, b: FuncId)
    requires a < |sigs| && b < |sigs|
  {
    var sa, sb := sigs[a], sigs[b];
    SameTail(sa.params, sb.params) && sa.ret == sb.ret && sa.varargs == sb.varargs && sa.kwargs == sb.kwargs &&
    sa.defaults == sb.defaults && sa.paramNames == sb.paramNames
  }

  /** Overrides that all agree with the base agree with each other, so one vtable call fits every one of them. */
  lemma AbiIsShared(sigs: seq<FnSig>, base: FuncId, f: FuncId, g: FuncId)
    requires base < |sigs| && f < |sigs| && g < |sigs|
    requires AbiCompatible(sigs, base, f) && AbiCompatible(sigs, base, g)
    ensures AbiCompatible(sigs, f, g)
  {
    if sigs[f].params != [] {
      assert sigs[f].params[1..] == sigs[base].params[1..] == sigs[g].params[1..];
    }
  }

  predicate InSigs(t: Target, sigs: seq<FnSig>) {
    t.Func? ==> t.fid < |sigs|
  }

  predicate Compatible(sigs: seq<FnSig>, base: Target, t: Target)
    requires InSigs(base, sigs) && InSigs(t, sigs)
  {
    base.Func? && t.Func? && AbiCompatible(sigs, base.fid, t.fid)
  }

  predicate AllBelow(ms: seq<(Name, FuncId)>, n: nat) {
    forall m <- ms :: m.1 < n
  }

  predicate ClassInRange(info: ClassInfo, n: nat) {
    AllBelow(info.methods, n) && AllBelow(info.ownMethods, n) && AllBelow(info.staticMethods, n) &&
    AllBelow(info.classMethods, n) &&
    forall p <- info.properties :: p.getter < n && (p.setter.Some? ==> p.setter.value < n)
  }

  /** Every function a class names has a signature. */
  predicate SignaturesCover(table: ClassTable, sigs: seq<FnSig>) {
    forall k <- table :: ClassInRange(table[k], |sigs|)
  }

  lemma {:induction false} FirstOwnInRange(table: ClassTable, cs: seq<ClassId>, n: Name, sigs: seq<FnSig>)
    requires SignaturesCover(table, sigs)
    ensures FirstOwn(table, cs, n).Some? ==> FirstOwn(table, cs, n).value < |sigs|
  {
    if cs == [] {
    } else {
      FirstOwnInRange(table, cs[1..], n, sigs);
      assert cs[0] in table ==> ClassInRange(table[cs[0]], |sigs|);
    }
  }

  lemma ResolveInRange(table: ClassTable, k: ClassId, n: Name, kind: MemberKind, sigs: seq<FnSig>)
    requires SignaturesCover(table, sigs)
    ensures Resolve(table, k, n, kind).Some? ==> InSigs(Resolve(table, k, n, kind).value, sigs)
  {
    if k in table {
      assert ClassInRange(table[k], |sigs|);
      if table[k].mro != [] {
        FirstOwnInRange(table, table[k].mro[1..], n, sigs);
      }
    }
  }

  lemma OwnInRange(table: ClassTable, cid: ClassId, k: ClassId, n: Name, kind: MemberKind, base: Target,
        sigs: seq<FnSig>)
    requires SignaturesCover(table, sigs) && InSigs(base, sigs)
    ensures InSigs(OwnTarget(table, cid, k, n, kind, base), sigs)
  {
    ResolveInRange(table, k, n, kind, sigs);
    if k in table {
      match Position(table[k].mro, cid)
      case None =>
      case Some(at) =>
        FirstOwnInRange(table, table[k].mro[at + 1..], n, sigs);
    }
  }

  // ---- which members need a dispatcher ----

  predicate InFamily(table: ClassTable, cid: ClassId, k: ClassId) {
    k in table && IsSubclass(table, k, cid)
  }

  /** Some other class of the family resolves the member differently. */
  predicate Diverges(table: ClassTable, cid: ClassId, k: ClassId, n: Name, kind: MemberKind, base: Target) {
    InFamily(table, cid, k) && k != cid && OwnTarget(table, cid, k, n, kind, base) != base
  }

  /** A plain method whose diverging resolutions all share the base's convention keeps the vtable call. */
  ghost predicate KeepsVtable(table: ClassTable, sigs: seq<FnSig>, key: Key, base: Target)
    requires SignaturesCover(table, sigs) && InSigs(base, sigs)
  {
    key.2 == Method && !IsDunder(key.1) &&
    forall k: ClassId :: Diverges(table, key.0, k, key.1, key.2, base) ==>
      (OwnInRange(table, key.0, k, key.1, key.2, base, sigs);
       Compatible(sigs, base, OwnTarget(table, key.0, k, key.1, key.2, base)))
  }

  ghost predicate NeedsDispatcher(table: ClassTable, sigs: seq<FnSig>, key: Key)
    requires SignaturesCover(table, sigs)
  {
    var base := Resolve(table, key.0, key.1, key.2);
    ResolveInRange(table, key.0, key.1, key.2, sigs);
    base.Some? && (exists k: ClassId :: Diverges(table, key.0, k, key.1, key.2, base.value)) &&
    !KeepsVtable(table, sigs, key, base.value)
  }

  /** The members a class offers, in planning order. */
  function Members(info: ClassInfo): (ms: seq<(Name, MemberKind)>)
    ensures forall n, kind :: (n, kind) in ms <==> Offers(info, n, kind)
  {
    hide FindFunc, FindProperty, FindAttr, Tag, PropertyMembers, AttrMembers;
    Tag(info.methods, Method) + PropertyMembers(info.properties) + Tag(info.staticMethods, StaticViaInst) +
    Tag(info.classMethods, StaticViaInst) + AttrMembers(info.classAttrs) + Tag(info.methods, SuperMethod)
  }

  predicate Offers(info: ClassInfo, n: Name, kind: MemberKind) {
    match kind
    case Method => FindFunc(info.methods, n).Some?
    case SuperMethod => FindFunc(info.methods, n).Some?
    case PropGet => FindProperty(info.properties, n).Some?
    case PropSet => FindProperty(info.properties, n).Some?
    case StaticViaInst => FindFunc(info.staticMethods, n).Some? || FindFunc(info.classMethods, n).Some?
    case ClassAttrRead => FindAttr(info.classAttrs, n).Some?
  }

  function Tag(ms: seq<(Name, FuncId)>, kind: MemberKind): (r: seq<(Name, MemberKind)>)
    ensures forall x :: x in r <==> x.1 == kind && FindFunc(ms, x.0).Some?
  {
    if ms == [] then [] else [(ms[0].0, kind)] + Tag(ms[1..], kind)
  }

  function PropertyMembers(ps: seq<Property>): (r: seq<(Name, MemberKind)>)
    ensures forall x :: x in r <==> (x.1 == PropGet || x.1 == PropSet) && FindProperty(ps, x.0).Some?
  {
    if ps == [] then [] else [(ps[0].name, PropGet), (ps[0].name, PropSet)] + PropertyMembers(ps[1..])
  }

  function AttrMembers(attrs: seq<ClassAttr>): (r: seq<(Name, MemberKind)>)
    ensures forall x :: x in r <==> x.1 == ClassAttrRead && FindAttr(attrs, x.0).Some?
  {
    if attrs == [] then [] else [(attrs[0].name, ClassAttrRead)] + AttrMembers(attrs[1..])
  }

  /** Every member the class resolves is offered; for `super()` targets, provided inherited methods are listed. */
  lemma ResolvedIsOffered(table: ClassTable, cid: ClassId, n: Name, kind: MemberKind)
    requires Resolve(table, cid, n, kind).Some?
    requires kind == SuperMethod ==> FindFunc(table[cid].methods, n).Some?
    ensures cid in table && (n, kind) in Members(table[cid])
  {
  }

  // ---- arms ----

  /** The arm that lists the runtime class, or the static resolution. */
  function Select(arms: seq<Arm>, base: Target, k: ClassId): Target {
    if arms == [] then base
    else if k in arms[0].classes then arms[0].target
    else Select(arms[1..], base, k)
  }

  predicate ArmIsOwn(table: ClassTable, key: Key, base: Target, arm: Arm, done: seq<ClassId>) {
    arm.classes != [] && arm.target != base &&
    forall k <- arm.classes :: k in done && k != key.0 && OwnTarget(table, key.0, k, key.1, key.2, base) == arm.target
  }

  /** The arms sort the classes handled so far by what they resolve to. */
  predicate Arms(table: ClassTable, key: Key, base: Target, arms: seq<Arm>, done: seq<ClassId>) {
    (forall i: nat :: i < |arms| ==> ArmIsOwn(table, key, base, arms[i], done)) &&
    (forall i: nat, j: nat :: i < j < |arms| ==> arms[i].target != arms[j].target) &&
    forall k <- done :: k != key.0 && OwnTarget(table, key.0, k, key.1, key.2, base) != base ==>
      exists i: nat :: i < |arms| && k in arms[i].classes
  }

  /** No class is in two arms. */
  lemma ArmsAreDisjoint(table: ClassTable, key: Key, base: Target, arms: seq<Arm>, done: seq<ClassId>, i: nat, j: nat)
    requires Arms(table, key, base, arms, done) && i < j < |arms|
    ensures forall k <- arms[i].classes :: k !in arms[j].classes
  {
    assert ArmIsOwn(table, key, base, arms[i], done) && ArmIsOwn(table, key, base, arms[j], done);
  }

  lemma {:induction false} SelectMeaning(arms: seq<Arm>, base: Target, k: ClassId)
    ensures (exists i: nat :: i < |arms| && k in arms[i].classes && Select(arms, base, k) == arms[i].target) ||
            (Select(arms, base, k) == base && forall i: nat :: i < |arms| ==> k !in arms[i].classes)
  {
    if arms == [] || k in arms[0].classes {
    } else {
      SelectMeaning(arms[1..], base, k);
      if i: nat :| i < |arms[1..]| && k in arms[1..][i].classes && Select(arms[1..], base, k) == arms[1..][i].target {
        assert arms[i + 1] == arms[1..][i];
      } else {
        assert forall i: nat :: 0 < i < |arms| ==> arms[i] == arms[1..][i - 1];
      }
    }
  }

  /** Selection gives every class of the family its own resolution. */
  lemma SelectsOwn(table: ClassTable, key: Key, base: Target, arms: seq<Arm>, done: seq<ClassId>, k: ClassId)
    requires Arms(table, key, base, arms, done) && k in done && k != key.0
    ensures Select(arms, base, k) == OwnTarget(table, key.0, k, key.1, key.2, base)
  {
    SelectMeaning(arms, base, k);
    if i: nat :| i < |arms| && k in arms[i].classes && Select(arms, base, k) == arms[i].target {
      assert ArmIsOwn(table, key, base, arms[i], done);
    }
  }

  lemma ArmJoined(table: ClassTable, key: Key, base: Target, arms: seq<Arm>, done: seq<ClassId>, i: nat, k: ClassId)
    requires Arms(table, key, base, arms, done) && i < |arms| && k != key.0
    requires OwnTarget(table, key.0, k, key.1, key.2, base) == arms[i].target
    ensures Arms(table, key, base, arms[i := Arm(arms[i].classes + [k], arms[i].target)], done + [k])
  {
    hide OwnTarget;
    var r := arms[i := Arm(arms[i].classes + [k], arms[i].target)];
    forall j: nat | j < |r|
      ensures ArmIsOwn(table, key, base, r[j], done + [k])
    {
      assert ArmIsOwn(table, key, base, arms[j], done);
    }
    forall c <- done + [k] | c != key.0 && OwnTarget(table, key.0, c, key.1, key.2, base) != base
      ensures exists j: nat :: j < |r| && c in r[j].classes
    {
      var j: nat :| j < |arms| && (if c == k then j == i else c in arms[j].classes);
      assert c in r[j].classes;
    }
  }

  lemma ArmOpened(table: ClassTable, key: Key, base: Target, arms: seq<Arm>, done: seq<ClassId>, k: ClassId)
    requires Arms(table, key, base, arms, done) && k != key.0
    requires var t := OwnTarget(table, key.0, k, key.1, key.2, base);
      t != base && forall j: nat :: j < |arms| ==> arms[j].target != t
    ensures Arms(table, key, base, arms + [Arm([k], OwnTarget(table, key.0, k, key.1, key.2, base))], done + [k])
  {
    hide OwnTarget;
    var r := arms + [Arm([k], OwnTarget(table, key.0, k, key.1, key.2, base))];
    forall j: nat | j < |r|
      ensures ArmIsOwn(table, key, base, r[j], done + [k])
    {
      assert j < |arms| ==> ArmIsOwn(table, key, base, arms[j], done);
    }
    forall c <- done + [k] | c != key.0 && OwnTarget(table, key.0, c, key.1, key.2, base) != base
      ensures exists j: nat :: j < |r| && c in r[j].classes
    {
      if c == k {
        assert c in r[|arms|].classes;
      } else {
        var j: nat :| j < |arms| && c in arms[j].classes;
        assert c in r[j].classes;
      }
    }
  }

  // ---- planning ----

  /** A dispatcher's own signature: the static resolution's parameters, every slot tagged. */
  function Signature(sigs: seq<FnSig>, n: Name, kind: MemberKind, base: Target): FnSig
    requires InSigs(base, sigs)
  {
    if base.Attr? then FnSig([Tagged], [n], [None], Tagged, false, false)
    else
      var s := sigs[base.fid];
      if kind == StaticViaInst
      then FnSig(AllTagged(|s.params| + 1), [n] + s.paramNames, [None] + s.defaults, Tagged, s.varargs, s.kwargs)
      else FnSig(AllTagged(|s.params|), s.paramNames, s.defaults, Tagged, s.varargs, s.kwargs)
  }

  function AllTagged(n: nat): seq<Repr> {
    seq(n, _ => Tagged)
  }

  /** What a planned dispatcher must be. */
  ghost predicate Planned(table: ClassTable, sigs: seq<FnSig>, key: Key, spec: DispatchSpec) {
    spec.kind == key.2 && spec.name == key.1 && Some(spec.base) == Resolve(table, key.0, key.1, key.2) &&
    (forall k: ClassId :: InFamily(table, key.0, k) && k != key.0 ==>
      Select(spec.arms, spec.base, k) == OwnTarget(table, key.0, k, key.1, key.2, spec.base)) &&
    Select(spec.arms, spec.base, key.0) == spec.base &&
    (forall i: nat, j: nat :: i < j < |spec.arms| ==> forall k <- spec.arms[i].classes :: k !in spec.arms[j].classes) &&
    InSigs(spec.base, sigs) && spec.nParams == |Signature(sigs, key.1, key.2, spec.base).params|
  }

  /** The dispatcher number `i` is the one for `key`, and its signature is where its number says. */
  ghost predicate SpecFor(table: ClassTable, first: seq<FnSig>, specs: seq<DispatchSpec>, sigs: seq<FnSig>, key: Key,
        i: nat) {
    i < |specs| && Planned(table, first, key, specs[i]) &&
    |first| + i < |sigs| && sigs[|first| + i] == Signature(first, key.1, key.2, specs[i].base)
  }

  predicate Numbered(first: seq<FnSig>, specs: seq<DispatchSpec>) {
    forall i: nat :: i < |specs| ==> specs[i].fid == |first| + i
  }

  predicate OneKeyEach(specs: seq<DispatchSpec>, index: map<Key, FuncId>) {
    (forall spec <- specs :: exists key <- index :: index[key] == spec.fid) &&
    forall a, b :: a in index && b in index && index[a] == index[b] ==> a == b
  }

  /** The new functions are numbered densely after the old ones, one for each key. */
  ghost predicate PlanState(
    table: ClassTable, first: seq<FnSig>, specs: seq<DispatchSpec>, index: map<Key, FuncId>, sigs: seq<FnSig>)
  {
    SignaturesCover(table, first) && first <= sigs && |sigs| == |first| + |specs| &&
    Numbered(first, specs) && OneKeyEach(specs, index) &&
    forall key <- index :: |first| <= index[key] && SpecFor(table, first, specs, sigs, key, index[key] - |first|)
  }

  lemma KeyAdded(first: seq<FnSig>, specs: seq<DispatchSpec>, index: map<Key, FuncId>, key: Key, spec: DispatchSpec)
    requires OneKeyEach(specs, index) && key !in index
    requires spec.fid == |first| + |specs| && forall k <- index :: index[k] < spec.fid
    ensures OneKeyEach(specs + [spec], index[key := spec.fid])
  {
    var index' := index[key := spec.fid];
    forall s <- specs + [spec]
      ensures exists k <- index' :: index'[k] == s.fid
    {
      if s == spec {
        assert key in index' && index'[key] == s.fid;
      } else {
        var k :| k in index && index[k] == s.fid;
        assert k in index' && index'[k] == s.fid;
      }
    }
  }

  lemma SpecAdded(table: ClassTable, first: seq<FnSig>, specs: seq<DispatchSpec>, index: map<Key, FuncId>,
                  sigs: seq<FnSig>, key: Key, spec: DispatchSpec, sig: FnSig)
    requires PlanState(table, first, specs, index, sigs) && key !in index
    requires spec.fid == |sigs| && Planned(table, first, key, spec) && sig == Signature(first, key.1, key.2, spec.base)
    ensures PlanState(table, first, specs + [spec], index[key := spec.fid], sigs + [sig])
  {
    hide Planned, SignaturesCover, OneKeyEach, Signature;
    forall k <- index
      ensures index[k] < spec.fid
    {
      assert SpecFor(table, first, specs, sigs, k, index[k] - |first|);
    }
    KeyAdded(first, specs, index, key, spec);
  }

  class Planner {
    var specs: seq<DispatchSpec>
    var index: map<Key, FuncId>
    var sigs: seq<FnSig>

    const table: ClassTable
    /** The signatures before planning. */
    const first: seq<FnSig>

    constructor (table: ClassTable, sigs: seq<FnSig>)
      requires SignaturesCover(table, sigs)
      ensures Valid() && this.table == table && this.first == sigs && index == map[] && specs == []
    {
      this.specs, this.index, this.sigs := [], map[], sigs;
      this.table, this.first := table, sigs;
    }

    ghost predicate Valid()
      reads this
    {
      PlanState(table, first, specs, index, sigs)
    }

    method PlanArms(family: seq<ClassId>, key: Key, base: Target) returns (arms: seq<Arm>)
      ensures Arms(table, key, base, arms, family)
    {
      arms := [];
      for i := 0 to |family|
        invariant Arms(table, key, base, arms, family[..i])
      {
        var k := family[i];
        assert family[..i + 1] == family[..i] + [k];
        var t := OwnTarget(table, key.0, k, key.1, key.2, base);
        if k != key.0 && t != base {
          arms := AddToArm(arms, k, t, key, base, family[..i]);
        }
      }
      assert family[..|family|] == family;
    }

    /** Join the arm with this target, or open a new one. */
    method AddToArm(arms: seq<Arm>, k: ClassId, t: Target, ghost key: Key, ghost base: Target, ghost done: seq<ClassId>)
      returns (r: seq<Arm>)
      requires Arms(table, key, base, arms, done)
      requires k != key.0 && t != base && t == OwnTarget(table, key.0, k, key.1, key.2, base)
      ensures Arms(table, key, base, r, done + [k])
    {
      hide OwnTarget;
      var i := 0;
      while i < |arms| && arms[i].target != t
        invariant i <= |arms| && forall j: nat :: j < i ==> arms[j].target != t
      {
        i := i + 1;
      }
      if i < |arms| {
        r := arms[i := Arm(arms[i].classes + [k], t)];
        ArmJoined(table, key, base, arms, done, i, k);
      } else {
        r := arms + [Arm([k], t)];
        ArmOpened(table, key, base, arms, done, k);
      }
    }

    /** Every runtime class a reference typed `cid` can hold. */
    method Family(ids: seq<ClassId>, cid: ClassId) returns (family: seq<ClassId>)
      requires forall k :: k in ids <==> k in table
      ensures forall k :: k in family <==> InFamily(table, cid, k)
    {
      family := [];
      for i := 0 to |ids|
        invariant forall k :: k in family <==> k in ids[..i] && InFamily(table, cid, k)
      {
        assert ids[..i + 1] == ids[..i] + [ids[i]];
        if IsSubclass(table, ids[i], cid) {
          family := family + [ids[i]];
        }
      }
      assert ids[..|ids|] == ids;
    }

    /** Whether every arm can be called the way the base is. */
    method AllCompatible(arms: seq<Arm>, ghost key: Key, base: Target, ghost family: seq<ClassId>) returns (all: bool)
      requires Valid() && InSigs(base, first) && Arms(table, key, base, arms, family)
      requires forall k :: k in family <==> InFamily(table, key.0, k)
      ensures key.2 == Method && !IsDunder(key.1) ==> (all <==> KeepsVtable(table, first, key, base))
    {
      all := true;
      for i := 0 to |arms|
        invariant all
        invariant forall j: nat :: j < i ==> InSigs(arms[j].target, first) && Compatible(first, base, arms[j].target)
      {
        assert ArmIsOwn(table, key, base, arms[i], family);
        ghost var k := arms[i].classes[0];
        OwnInRange(table, key.0, k, key.1, key.2, base, first);
        assert Diverges(table, key.0, k, key.1, key.2, base);
        if !(base.Func? && arms[i].target.Func? && AbiCompatible(sigs, base.fid, arms[i].target.fid)) {
          all := false;
          return;
        }
      }
      forall k: ClassId | Diverges(table, key.0, k, key.1, key.2, base)
        ensures var t := OwnTarget(table, key.0, k, key.1, key.2, base); InSigs(t, first) && Compatible(first, base, t)
      {
        assert k in family;
        var i: nat :| i < |arms| && k in arms[i].classes;
        assert ArmIsOwn(table, key, base, arms[i], family);
      }
    }

    /** Number the new function, record its signature and its key. */
    method AddSpec(key: Key, base: Target, arms: seq<Arm>)
      requires Valid() && key !in index && InSigs(base, first)
      requires Planned(table, first, key,
        DispatchSpec(|sigs|, key.2, base, arms, |Signature(first, key.1, key.2, base).params|, key.1))
      modifies this
      ensures Valid() && index.Keys == old(index.Keys) + {key}
    {
      hide Planned, SignaturesCover, OneKeyEach, Numbered;
      var sig := Signature(sigs, key.1, key.2, base);
      SignatureStays(first, sigs, key, base);
      var spec := DispatchSpec(|sigs|, key.2, base, arms, |sig.params|, key.1);
      SpecAdded(table, first, specs, index, sigs, key, spec, sig);
      sigs := sigs + [sig];
      index := index[key := spec.fid];
      specs := specs + [spec];
    }

    /** One member of one class. */
    method PlanMember(family: seq<ClassId>, key: Key)
      requires Valid() && forall k :: k in family <==> InFamily(table, key.0, k)
      requires key in index ==> NeedsDispatcher(table, first, key)
      modifies this
      ensures Valid()
      ensures index.Keys == old(index.Keys) + if NeedsDispatcher(table, first, key) then {key} else {}
    {
      hide Valid, OwnTarget, Resolve, SignaturesCover;
      if key in index {
        return;
      }
      var resolved := Resolve(table, key.0, key.1, key.2);
      if resolved.None? {
        return;
      }
      var base := resolved.value;
      assert SignaturesCover(table, first) by { ValidCovers(); }
      ResolveInRange(table, key.0, key.1, key.2, first);
      var arms := PlanArms(family, key, base);
      if arms == [] {
        assert forall k: ClassId :: Diverges(table, key.0, k, key.1, key.2, base) ==> k in family;
        return;
      }
      ghost var some := arms[0].classes;
      assert ArmIsOwn(table, key, base, arms[0], family);
      assert Diverges(table, key.0, some[0], key.1, key.2, base);
      if key.2 == Method && !IsDunder(key.1) {
        var all := AllCompatible(arms, key, base, family);
        if all {
          return;
        }
      }
      assert NeedsDispatcher(table, first, key);
      ArmsArePlanned(table, first, key, base, arms, family, |sigs|);
      AddSpec(key, base, arms);
    }

    /** Every member one class offers, unless it has no subclass. */
    method PlanClass(ids: seq<ClassId>, cid: ClassId)
      requires Valid() && cid in table && forall k :: k in ids <==> k in table
      requires forall key <- index :: NeedsDispatcher(table, first, key)
      modifies this
      ensures Valid()
      ensures forall key :: key in index <==>
        key in old(index) || (key.0 == cid && Offers(table[cid], key.1, key.2) && NeedsDispatcher(table, first, key))
    {
      hide Valid, SignaturesCover, Offers, NeedsDispatcher, InFamily, Members;
      assert SignaturesCover(table, first) by { ValidCovers(); }
      var family := Family(ids, cid);
      if |family| < 2 {
        forall key: Key | key.0 == cid
          ensures !NeedsDispatcher(table, first, key)
        {
          AloneNeedsNone(table, first, key, family);
        }
        return;
      }
      var members := Members(table[cid]);
      for i := 0 to |members|
        invariant Valid() && Indexed(table, first, old(index.Keys), index.Keys, cid, members[..i])
      {
        assert members[..i + 1] == members[..i] + [members[i]];
        var key := (cid, members[i].0, members[i].1);
        IndexedStep(table, first, old(index.Keys), index.Keys, key, members[..i]);
        PlanMember(family, key);
      }
      assert members[..|members|] == members;
    }

    /** The whole plan: exactly the offered members that need a dispatcher get one. */
    method Plan()
      requires Valid() && index == map[]
      modifies this
      ensures Valid()
      ensures forall key :: key in index <==>
        key.0 in table && Offers(table[key.0], key.1, key.2) && NeedsDispatcher(table, first, key)
    {
      hide Valid, SignaturesCover, Offers, NeedsDispatcher;
      assert SignaturesCover(table, first) by { ValidCovers(); }
      var ids := Sorted(table.Keys);
      for i := 0 to |ids|
        invariant Valid() && forall key <- index :: NeedsDispatcher(table, first, key)
        invariant forall key :: key in index <==>
          key.0 in ids[..i] && Offers(table[key.0], key.1, key.2) && NeedsDispatcher(table, first, key)
      {
        assert ids[..i + 1] == ids[..i] + [ids[i]];
        PlanClass(ids, ids[i]);
      }
      assert ids[..|ids|] == ids;
    }

    lemma ValidCovers()
      requires Valid()
      ensures SignaturesCover(table, first)
    {
    }
  }

  /** Of the members listed, exactly those that need a dispatcher have been added. */
  ghost predicate Indexed(table: ClassTable, sigs: seq<FnSig>, before: set<Key>, now: set<Key>, cid: ClassId,
                          ms: seq<(Name, MemberKind)>)
    requires SignaturesCover(table, sigs)
  {
    (forall key <- before :: NeedsDispatcher(table, sigs, key)) &&
    forall key :: key in now <==>
      key in before || (key.0 == cid && (key.1, key.2) in ms && NeedsDispatcher(table, sigs, key))
  }

  lemma IndexedStep(table: ClassTable, sigs: seq<FnSig>, before: set<Key>, now: set<Key>, key: Key,
                    ms: seq<(Name, MemberKind)>)
    requires SignaturesCover(table, sigs) && Indexed(table, sigs, before, now, key.0, ms)
    ensures key in now ==> NeedsDispatcher(table, sigs, key)
    ensures Indexed(table, sigs, before, now + if NeedsDispatcher(table, sigs, key) then {key} else {}, key.0,
                    ms + [(key.1, key.2)])
  {
    hide NeedsDispatcher, SignaturesCover;
  }

  /** A class without subclasses needs no dispatcher. */
  lemma AloneNeedsNone(table: ClassTable, sigs: seq<FnSig>, key: Key, family: seq<ClassId>)
    requires SignaturesCover(table, sigs) && |family| < 2 && key.0 in table
    requires forall k :: k in family <==> InFamily(table, key.0, k)
    ensures !NeedsDispatcher(table, sigs, key)
  {
    assert key.0 in family;
    assert forall k :: k in family ==> k == key.0;
  }

  lemma {:induction false} LeastOf(s: set<ClassId>) returns (m: ClassId)
    requires s != {}
    ensures m in s && forall x <- s :: m <= x
  {
    var first :| first in s;
    var rest := s - {first};
    assert forall x <- s :: x == first || x in rest;
    if rest == {} {
      m := first;
    } else {
      var least := LeastOf(rest);
      m := if first < least then first else least;
    }
  }

  method Sorted(s: set<ClassId>) returns (ids: seq<ClassId>)
    ensures forall k :: k in ids <==> k in s
    ensures forall i: nat, j: nat :: i < j < |ids| ==> ids[i] < ids[j]
  {
    ids := [];
    var rest := s;
    while rest != {}
      invariant rest <= s && forall k :: k in ids <==> k in s - rest
      invariant forall i: nat, j: nat :: i < j < |ids| ==> ids[i] < ids[j]
      invariant forall i: nat, b :: i < |ids| && b in rest ==> ids[i] < b
      decreases |rest|
    {
      ghost var least := LeastOf(rest);
      var m :| m in rest && forall x <- rest :: m <= x;
      assert forall i: nat :: i < |ids| ==> ids[i] < m;
      ids := ids + [m];
      rest := rest - {m};
    }
  }

  lemma SignatureStays(first: seq<FnSig>, sigs: seq<FnSig>, key: Key, base: Target)
    requires first <= sigs && InSigs(base, first)
    ensures Signature(sigs, key.1, key.2, base) == Signature(first, key.1, key.2, base)
  {
  }

  lemma ArmsArePlanned(table: ClassTable, sigs: seq<FnSig>, key: Key, base: Target, arms: seq<Arm>,
                       family: seq<ClassId>, fid: FuncId)
    requires Some(base) == Resolve(table, key.0, key.1, key.2) && InSigs(base, sigs)
    requires Arms(table, key, base, arms, family) && forall k :: k in family <==> InFamily(table, key.0, k)
    ensures Planned(table, sigs, key,
      DispatchSpec(fid, key.2, base, arms, |Signature(sigs, key.1, key.2, base).params|, key.1))
  {
    hide OwnTarget, Resolve;
    forall k: ClassId | InFamily(table, key.0, k) && k != key.0
      ensures Select(arms, base, k) == OwnTarget(table, key.0, k, key.1, key.2, base)
    {
      SelectsOwn(table, key, base, arms, family, k);
    }
    forall i: nat, j: nat | i < j < |arms|
      ensures forall k <- arms[i].classes :: k !in arms[j].classes
    {
      ArmsAreDisjoint(table, key, base, arms, family, i, j);
    }
    SelectMeaning(arms, base, key.0);
    assert forall i: nat :: i < |arms| ==> ArmIsOwn(table, key, base, arms[i], family);
  }
}
