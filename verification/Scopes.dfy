/** Function-like scopes, what each one mentions, and how a name is resolved lexically. */
module Scopes {
  type Name = string

  /** What one scope's own code mentions, with the scopes nested directly in it. */
  datatype Scope = Scope(
    binds: set<Name>, mentions: seq<Name>, globals: set<Name>, nonlocals: set<Name>, children: seq<Scope>)

  const NO_USES := Scope({}, [], {}, {}, [])

  /** A nonlocal declaration counts as a use of the name. */
  predicate Tidy(sc: Scope) {
    (forall n <- sc.nonlocals :: n in sc.mentions) && forall c <- sc.children :: Tidy(c)
  }

  /** The names a scope owns: bound there and declared neither global nor nonlocal. */
  function Owned(sc: Scope): set<Name> {
    sc.binds - sc.globals - sc.nonlocals
  }

  // ---- nearest-binding resolution ----

  /** A path from a scope to a nested one: the child to enter at each level. */
  predicate IsPath(sc: Scope, path: seq<nat>) {
    path == [] || (path[0] < |sc.children| && IsPath(sc.children[path[0]], path[1..]))
  }

  function At(sc: Scope, path: seq<nat>): Scope
    requires IsPath(sc, path)
  {
    if path == [] then sc else At(sc.children[path[0]], path[1..])
  }

  datatype Resolution = Local(depth: nat) | Global | Escapes

  lemma {:induction false} ShorterPath(sc: Scope, path: seq<nat>, k: nat)
    requires IsPath(sc, path) && k <= |path|
    ensures IsPath(sc, path[..k]) && IsPath(At(sc, path[..k]), path[k..])
    ensures At(At(sc, path[..k]), path[k..]) == At(sc, path)
    decreases path
  {
    if k > 0 {
      ShorterPath(sc.children[path[0]], path[1..], k - 1);
      assert path[..k][1..] == path[1..][..k - 1] && path[k..] == path[1..][k - 1..];
    } else {
      assert path[..k] == [] && path[k..] == path;
    }
  }

  /** Outward from the scope at `path`: `global` stops the search, the nearest owner ends it. */
  function Resolve(root: Scope, path: seq<nat>, n: Name): Resolution
    requires IsPath(root, path)
    decreases |path|
  {
    var sc := At(root, path);
    if n in sc.globals then Global
    else if n in Owned(sc) then Local(|path|)
    else if path == [] then Escapes
    else
      ShorterPath(root, path, |path| - 1);
      Resolve(root, path[..|path| - 1], n)
  }

  /** Some code at `path` uses `n`. */
  predicate Uses(root: Scope, path: seq<nat>, n: Name) {
    IsPath(root, path) && n in At(root, path).mentions
  }

  // ---- the facts, scope by scope ----

  /** First occurrences, in order. */
  function Distinct(s: seq<Name>): (r: seq<Name>)
    ensures forall x :: x in r <==> x in s
    ensures forall i: nat, j: nat :: i < j < |r| ==> r[i] != r[j]
  {
    if s == [] then []
    else
      var before, last := s[..|s| - 1], s[|s| - 1];
      assert forall x :: x in s <==> x in before || x == last;
      Distinct(before) + if last in before then [] else [last]
  }

  /** The names of `s` that are neither owned nor declared global here. */
  function Unowned(sc: Scope, s: seq<Name>): (r: seq<Name>)
    ensures forall n :: n in r <==> n in s && n !in Owned(sc) && n !in sc.globals
  {
    if s == [] then []
    else
      var before, last := s[..|s| - 1], s[|s| - 1];
      assert forall x :: x in s <==> x in before || x == last;
      Unowned(sc, before) + if last !in Owned(sc) && last !in sc.globals then [last] else []
  }

  function ChildFree(children: seq<Scope>): seq<Name> {
    if children == [] then [] else ChildFree(children[..|children| - 1]) + Free(children[|children| - 1])
  }

  /** Used here or below and not settled on the way. */
  function Free(sc: Scope): seq<Name> {
    Unowned(sc, Distinct(sc.mentions + ChildFree(sc.children)))
  }

  function ChildShared(children: seq<Scope>): set<Name> {
    if children == [] then {}
    else
      var last := children[|children| - 1];
      ChildShared(children[..|children| - 1]) + last.nonlocals + ChildShared(last.children)
  }

  function ChildGlobals(children: seq<Scope>): set<Name> {
    if children == [] then {}
    else
      var last := children[|children| - 1];
      ChildGlobals(children[..|children| - 1]) + last.globals + ChildGlobals(last.children)
  }

  datatype ScopeFacts = ScopeFacts(
    bound: set<Name>, free: seq<Name>, celled: set<Name>, globals: set<Name>, nonlocals: set<Name>,
    sharedWrites: set<Name>, globalDecls: set<Name>)

  function Facts(sc: Scope): ScopeFacts {
    ScopeFacts(
      Owned(sc), Free(sc), (set n | n in ChildFree(sc.children) && n in Owned(sc)), sc.globals, sc.nonlocals,
      ChildShared(sc.children), sc.globals + ChildGlobals(sc.children))
  }

  // ---- the facts are lexical resolution ----

  lemma {:induction false} FreeInSomeChild(children: seq<Scope>, n: Name) returns (k: nat)
    requires n in ChildFree(children)
    ensures k < |children| && n in Free(children[k])
  {
    hide Free;
    k := |children| - 1;
    if n !in Free(children[k]) {
      k := FreeInSomeChild(children[..k], n);
    }
  }

  lemma {:induction false} FreeInChild(children: seq<Scope>, k: nat, n: Name)
    requires k < |children| && n in Free(children[k])
    ensures n in ChildFree(children)
  {
    hide Free;
    if k >= |children| - 1 {
    } else {
      FreeInChild(children[..|children| - 1], k, n);
    }
  }

  /** Resolving from inside a child first asks the child. */
  lemma {:induction false} ResolveThroughChild(sc: Scope, path: seq<nat>, n: Name)
    requires path != [] && IsPath(sc, path)
    ensures var inner := Resolve(sc.children[path[0]], path[1..], n);
      Resolve(sc, path, n) ==
        match inner { case Local(d) => Local(d + 1) case Global => Global case Escapes => Resolve(sc, [], n) }
    decreases |path|
  {
    if |path| == 1 {
      assert path[..0] == [] && path[1..] == [];
    } else {
      var shorter := path[..|path| - 1];
      ShorterPath(sc, path, |path| - 1);
      ResolveThroughChild(sc, shorter, n);
      assert shorter[1..] == path[1..][..|path| - 2];
    }
  }

  /** A name is free in a scope exactly when some use in it, or below it, escapes it. */
  lemma {:induction false} FreeIsEscaping(sc: Scope, n: Name)
    ensures n in Free(sc) <==> exists path :: Uses(sc, path, n) && Resolve(sc, path, n) == Escapes
    decreases sc
  {
    if n in Free(sc) {
      assert Resolve(sc, [], n) == Escapes;
      if n in sc.mentions {
        assert Uses(sc, [], n);
      } else {
        UseInChild(sc, n);
      }
    }
    if path :| Uses(sc, path, n) && Resolve(sc, path, n) == Escapes {
      if path != [] {
        ChildOfUse(sc, path, n);
      }
      EscapesOutermost(sc, path, n);
    }
  }

  lemma {:induction false} EscapesOutermost(sc: Scope, path: seq<nat>, n: Name)
    requires IsPath(sc, path) && Resolve(sc, path, n) == Escapes
    ensures Resolve(sc, [], n) == Escapes
    decreases |path|
  {
    if path == [] {
    } else {
      ShorterPath(sc, path, |path| - 1);
      EscapesOutermost(sc, path[..|path| - 1], n);
    }
  }

  /** A name free in a child has a use below that leaves the child. */
  lemma {:induction false} UseInChild(sc: Scope, n: Name)
    requires n in ChildFree(sc.children)
    ensures exists path :: path != [] && Uses(sc, path, n) && Resolve(sc, path, n) == Resolve(sc, [], n)
    decreases sc, 0
  {
    var k := FreeInSomeChild(sc.children, n);
    var c := sc.children[k];
    FreeIsEscaping(c, n);
    var inner :| Uses(c, inner, n) && Resolve(c, inner, n) == Escapes;
    var path := [k] + inner;
    assert path[1..] == inner;
    assert Uses(sc, path, n);
    ResolveThroughChild(sc, path, n);
  }

  /** A use below that leaves its child makes the name free in the child. */
  lemma {:induction false} ChildOfUse(sc: Scope, path: seq<nat>, n: Name)
    requires path != [] && Uses(sc, path, n) && Resolve(sc, path, n) in {Escapes, Local(0)}
    ensures n in ChildFree(sc.children)
    decreases sc, 0
  {
    hide Free, ChildFree, Owned;
    var c := sc.children[path[0]];
    ResolveThroughChild(sc, path, n);
    assert Uses(c, path[1..], n);
    FreeIsEscaping(c, n);
    FreeInChild(sc.children, path[0], n);
  }

  /** The scope at `path + below` resolves `n` to the scope at `path`. */
  predicate CapturedFrom(root: Scope, path: seq<nat>, below: seq<nat>, n: Name) {
    below != [] && Uses(root, path + below, n) && Resolve(root, path + below, n) == Local(|path|)
  }

  /** Resolution inside a nested scope is resolution in the tree, as long as it stays inside. */
  lemma {:induction false} ResolveInside(root: Scope, path: seq<nat>, below: seq<nat>, n: Name)
    requires IsPath(root, path) && IsPath(At(root, path), below)
    ensures IsPath(root, path + below) && At(root, path + below) == At(At(root, path), below)
    ensures Resolve(root, path + below, n) == Local(|path|) <==> Resolve(At(root, path), below, n) == Local(0)
    decreases path
  {
    if path == [] {
      assert path + below == below;
    } else {
      assert (path + below)[1..] == path[1..] + below;
      ResolveInside(root.children[path[0]], path[1..], below, n);
      ResolveThroughChild(root, path + below, n);
    }
  }

  /**
   * Capture analysis is lexical resolution: wherever a scope sits in the tree, a name is celled there exactly
   * when a use in a scope strictly inside it resolves to it.
   */
  lemma CelledIsCaptured(root: Scope, path: seq<nat>, n: Name)
    requires IsPath(root, path)
    ensures n in Facts(At(root, path)).celled <==> exists below :: CapturedFrom(root, path, below, n)
  {
    var sc := At(root, path);
    if n in Facts(sc).celled {
      UseInChild(sc, n);
      var below :| below != [] && Uses(sc, below, n) && Resolve(sc, below, n) == Resolve(sc, [], n);
      ResolveInside(root, path, below, n);
      assert CapturedFrom(root, path, below, n);
    }
    if below :| CapturedFrom(root, path, below, n) {
      ShorterPath(root, path + below, |path|);
      assert (path + below)[..|path|] == path && (path + below)[|path|..] == below;
      ResolveInside(root, path, below, n);
      ChildOfUse(sc, below, n);
      LocalIsOwned(sc, below, n);
    }
  }

  lemma {:induction false} LocalIsOwned(sc: Scope, path: seq<nat>, n: Name)
    requires IsPath(sc, path) && Resolve(sc, path, n) == Local(0)
    ensures n in Owned(sc)
    decreases |path|
  {
    if path == [] || n in Owned(At(sc, path)) {
    } else {
      ShorterPath(sc, path, |path| - 1);
      LocalIsOwned(sc, path[..|path| - 1], n);
    }
  }

  predicate DeclaredBelow(sc: Scope, path: seq<nat>, n: Name) {
    path != [] && IsPath(sc, path) && n in At(sc, path).nonlocals
  }

  /** A name is in `sharedWrites` exactly when a scope strictly inside declares it nonlocal. */
  lemma {:induction false} SharedIsDeclaredBelow(sc: Scope, n: Name)
    ensures n in ChildShared(sc.children) <==> exists path :: DeclaredBelow(sc, path, n)
    decreases sc
  {
    if n in ChildShared(sc.children) {
      var k := SharedInSomeChild(sc.children, n);
      var c := sc.children[k];
      SharedIsDeclaredBelow(c, n);
      var inner :| (n in c.nonlocals && inner == []) || DeclaredBelow(c, inner, n);
      assert ([k] + inner)[1..] == inner;
      assert IsPath(c, inner) && n in At(c, inner).nonlocals;
      assert At(sc, [k] + inner) == At(c, inner);
      assert DeclaredBelow(sc, [k] + inner, n);
    }
    if path :| DeclaredBelow(sc, path, n) {
      var c := sc.children[path[0]];
      SharedIsDeclaredBelow(c, n);
      assert n in At(c, path[1..]).nonlocals;
      if path[1..] == [] {
        assert At(c, path[1..]) == c;
      } else {
        assert DeclaredBelow(c, path[1..], n);
      }
      SharedInChild(sc.children, path[0], n);
    }
  }

  lemma {:induction false} SharedInSomeChild(children: seq<Scope>, n: Name) returns (k: nat)
    requires n in ChildShared(children)
    ensures k < |children| && n in children[k].nonlocals + ChildShared(children[k].children)
  {
    k := |children| - 1;
    if n !in children[k].nonlocals + ChildShared(children[k].children) {
      k := SharedInSomeChild(children[..k], n);
    }
  }

  lemma {:induction false} SharedInChild(children: seq<Scope>, k: nat, n: Name)
    requires k < |children| && n in children[k].nonlocals + ChildShared(children[k].children)
    ensures n in ChildShared(children)
  {
    if k >= |children| - 1 {
    } else {
      SharedInChild(children[..|children| - 1], k, n);
    }
  }

  lemma {:induction false} GlobalInSomeChild(children: seq<Scope>, n: Name) returns (k: nat)
    requires n in ChildGlobals(children)
    ensures k < |children| && n in children[k].globals + ChildGlobals(children[k].children)
  {
    k := |children| - 1;
    if n !in children[k].globals + ChildGlobals(children[k].children) {
      k := GlobalInSomeChild(children[..k], n);
    }
  }

  lemma {:induction false} GlobalInChild(children: seq<Scope>, k: nat, n: Name)
    requires k < |children| && n in children[k].globals + ChildGlobals(children[k].children)
    ensures n in ChildGlobals(children)
  {
    if k == |children| - 1 {
    } else {
      GlobalInChild(children[..|children| - 1], k, n);
    }
  }

  /**
   * Whenever a scope declares a name nonlocal and an enclosing scope owns it, the owner keeps the name in a cell and
   * knows it is written from another function.
   */
  lemma {:induction false} NonlocalOwnerKnows(root: Scope, path: seq<nat>, n: Name)
    requires Tidy(root) && IsPath(root, path) && n in At(root, path).nonlocals
    requires Resolve(root, path, n).Local?
    ensures var k := Resolve(root, path, n).depth;
      k < |path| && IsPath(root, path[..k]) &&
      n in Facts(At(root, path[..k])).celled && n in Facts(At(root, path[..k])).sharedWrites
  {
    var k := Resolve(root, path, n).depth;
    DepthIsInside(root, path, n);
    ShorterPath(root, path, k);
    assert path == path[..k] + path[k..];
    TidyBelow(root, path);
    assert CapturedFrom(root, path[..k], path[k..], n);
    CelledIsCaptured(root, path[..k], n);
    assert DeclaredBelow(At(root, path[..k]), path[k..], n);
    SharedIsDeclaredBelow(At(root, path[..k]), n);
  }

  lemma {:induction false} DepthIsInside(root: Scope, path: seq<nat>, n: Name)
    requires IsPath(root, path) && Resolve(root, path, n).Local?
    ensures Resolve(root, path, n).depth <= |path|
    ensures n !in Owned(At(root, path)) ==> Resolve(root, path, n).depth < |path|
    decreases |path|
  {
    if path == [] || n in Owned(At(root, path)) {
    } else {
      ShorterPath(root, path, |path| - 1);
      DepthIsInside(root, path[..|path| - 1], n);
    }
  }

  lemma {:induction false} TidyBelow(root: Scope, path: seq<nat>)
    requires Tidy(root) && IsPath(root, path)
    ensures Tidy(At(root, path))
    decreases path
  {
    if path == [] {
    } else {
      TidyBelow(root.children[path[0]], path[1..]);
    }
  }
}
