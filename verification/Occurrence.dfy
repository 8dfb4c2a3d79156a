/**
 What a scope's facts say about its syntax: which names occur where, without regard to the order in which they
 are collected.
 */
module Occurrence {
  import opened Wrappers
  import opened Scopes
  import opened Syntax

  /** `part` is `node`, or runs as part of it in the same scope. */
  ghost predicate Occurs(node: Node, part: Node)
    decreases Size(node)
  {
    part == node || exists c <- Parts(node) :: Occurs(c, part)
  }

  /** `part` runs in the scope itself, not in one nested in it. */
  ghost predicate RunsIn(sx: ScopeSyntax, part: Node) {
    exists c <- Inside(sx) :: Occurs(c, part)
  }

  /** `inner` is nested directly in `sx`. */
  ghost predicate Nested(sx: ScopeSyntax, inner: ScopeSyntax) {
    exists part :: RunsIn(sx, part) && Opens(part) == Some(inner)
  }

  // ---- one fact at a time ----

  datatype Fact = Mentions(n: Name) | Binds(n: Name) | Globals(n: Name) | Nonlocals(n: Name) | Nests(child: Scope)

  predicate Holds(sc: Scope, x: Fact) {
    match x
    case Mentions(n) => n in sc.mentions
    case Binds(n) => n in sc.binds
    case Globals(n) => n in sc.globals
    case Nonlocals(n) => n in sc.nonlocals
    case Nests(child) => child in sc.children
  }

  /** A single node is a reason for a fact. */
  predicate Itself(node: Node, x: Fact) {
    match x
    case Mentions(n) => node == Eval(Ident(n)) || (node.Exec? && node.s.Nonlocal? && n in node.s.names)
    case Binds(n) =>
      node == Store(Ident(n)) || (node.Eval? && node.e.NamedExpr? && node.e.name == n) ||
      (node.Exec? && (node.s.FunctionDef? || node.s.ClassDef?) && node.s.name == n)
    case Globals(n) => node.Exec? && node.s.Global? && n in node.s.names
    case Nonlocals(n) => node.Exec? && node.s.Nonlocal? && n in node.s.names
    case Nests(child) => Opens(node).Some? && ScopeOf(Opens(node).value) == child
  }

  /** Something that occurs in the node is a reason. */
  ghost predicate Says(node: Node, x: Fact) {
    exists part :: Occurs(node, part) && Itself(part, x)
  }

  ghost predicate SaysAny(nodes: seq<Node>, x: Fact) {
    exists c <- nodes :: Says(c, x)
  }

  /** Something that runs in the scope is a reason. */
  ghost predicate SaysIn(sx: ScopeSyntax, x: Fact) {
    exists part :: RunsIn(sx, part) && Itself(part, x)
  }

  lemma SaysByParts(node: Node, x: Fact)
    ensures Says(node, x) <==> Itself(node, x) || SaysAny(Parts(node), x)
  {
    hide Parts, Itself;
    if Itself(node, x) {
      assert Occurs(node, node);
    }
    if SaysAny(Parts(node), x) {
      var c :| c in Parts(node) && Says(c, x);
      var part :| Occurs(c, part) && Itself(part, x);
      assert Occurs(node, part);
    }
    if Says(node, x) && !Itself(node, x) {
      var part :| Occurs(node, part) && Itself(part, x);
      var c :| c in Parts(node) && Occurs(c, part);
      assert Says(c, x);
    }
  }

  lemma SaysInsideOut(sx: ScopeSyntax, x: Fact)
    ensures SaysIn(sx, x) <==> SaysAny(Inside(sx), x)
  {
    hide Inside, Itself, Occurs;
    if SaysIn(sx, x) {
      var part :| RunsIn(sx, part) && Itself(part, x);
      var c :| c in Inside(sx) && Occurs(c, part);
      assert Says(c, x);
    }
    if SaysAny(Inside(sx), x) {
      var c :| c in Inside(sx) && Says(c, x);
      var part :| Occurs(c, part) && Itself(part, x);
      assert RunsIn(sx, part);
    }
  }

  lemma {:induction false} NonlocalsHold(acc: Acc, names: seq<Name>, x: Fact)
    ensures Holds(DeclareNonlocals(acc, names), x) <==>
      Holds(acc, x) || ((x.Mentions? || x.Nonlocals?) && x.n in names)
  {
    if names == [] {
    } else {
      NonlocalsHold(acc, names[..|names| - 1], x);
    }
  }

  lemma DoesItself(acc: Acc, node: Node, x: Fact)
    requires !x.Nests?
    ensures Holds(Does(acc, node), x) <==> Holds(acc, x) || Itself(node, x)
  {
    hide Tidy;
    if node.Exec? && node.s.Nonlocal? {
      NonlocalsHold(acc, node.s.names, x);
    }
  }

  lemma DoesNoNesting(acc: Acc, node: Node, x: Fact)
    requires x.Nests?
    ensures Holds(Does(acc, node), x) <==> Holds(acc, x)
  {
    hide Tidy;
    if node.Exec? && node.s.Nonlocal? {
      NonlocalsHold(acc, node.s.names, x);
    }
  }

  /** A fact holds after a node ran if it held before or something that occurs in the node is a reason. */
  lemma {:induction false} RunSays(acc: Acc, node: Node, x: Fact)
    ensures Holds(Run(acc, node), x) <==> Holds(acc, x) || Says(node, x)
    decreases Size(node), 0
  {
    hide Parts, Does, Tidy, Says, SaysAny, Occurs;
    SaysByParts(node, x);
    RunAllSays(acc, Parts(node), x);
    var before := RunAll(acc, Parts(node));
    if x.Nests? {
      DoesNoNesting(before, node, x);
    } else {
      DoesItself(before, node, x);
    }
  }

  lemma {:induction false} RunAllSays(acc: Acc, nodes: seq<Node>, x: Fact)
    ensures Holds(RunAll(acc, nodes), x) <==> Holds(acc, x) || SaysAny(nodes, x)
    decreases Total(nodes), 1, |nodes|
  {
    hide Says, Run, Holds;
    if nodes == [] {
    } else {
      var before, last := nodes[..|nodes| - 1], nodes[|nodes| - 1];
      RunAllSays(acc, before, x);
      RunSays(RunAll(acc, before), last, x);
      assert forall c :: c in nodes <==> c in before || c == last;
    }
  }

  /**
   * A fact holds in the tree built for a scope exactly when something running in that scope is a reason for it.
   */
  lemma ScopeSays(sx: ScopeSyntax, x: Fact)
    ensures Holds(ScopeOf(sx), x) <==> SaysIn(sx, x)
  {
    hide Says, RunAll, Inside;
    RunAllSays(NO_USES, Inside(sx), x);
    SaysInsideOut(sx, x);
  }

  // ---- nesting ----

  lemma {:induction false} OccursSize(node: Node, part: Node)
    requires Occurs(node, part)
    ensures Size(part) <= Size(node)
    decreases Size(node)
  {
    hide Parts, Size;
    if part == node {
    } else {
      var c :| c in Parts(node) && Occurs(c, part);
      OccursSize(c, part);
    }
  }

  lemma NestedIsSmaller(sx: ScopeSyntax, inner: ScopeSyntax)
    requires Nested(sx, inner)
    ensures ScopeSize(inner) < ScopeSize(sx)
  {
    hide Inside, Opens, Occurs, Size, ScopeSize, Total;
    var part :| RunsIn(sx, part) && Opens(part) == Some(inner);
    var c :| c in Inside(sx) && Occurs(c, part);
    OccursSize(c, part);
    MemberSize(Inside(sx), c);
  }

  lemma NestedIsChild(sx: ScopeSyntax, inner: ScopeSyntax)
    requires Nested(sx, inner)
    ensures ScopeOf(inner) in ScopeOf(sx).children
  {
    hide Inside, Opens, Occurs, ScopeOf;
    var part :| RunsIn(sx, part) && Opens(part) == Some(inner);
    assert Itself(part, Nests(ScopeOf(inner)));
    ScopeSays(sx, Nests(ScopeOf(inner)));
  }

  lemma ChildIsNested(sx: ScopeSyntax, child: Scope) returns (inner: ScopeSyntax)
    requires child in ScopeOf(sx).children
    ensures Nested(sx, inner) && ScopeOf(inner) == child
  {
    hide Inside, Opens, Occurs, ScopeOf;
    ScopeSays(sx, Nests(child));
    var part :| RunsIn(sx, part) && Itself(part, Nests(child));
    inner := Opens(part).value;
  }

  // ---- capture, read off the syntax ----

  /** Bound by something that runs in the scope, and declared neither global nor nonlocal by anything there. */
  ghost predicate Owns(sx: ScopeSyntax, n: Name) {
    SaysIn(sx, Binds(n)) && !SaysIn(sx, Globals(n)) && !SaysIn(sx, Nonlocals(n))
  }

  /** Resolution of the name does not go further out. */
  ghost predicate Settles(sx: ScopeSyntax, n: Name) {
    Owns(sx, n) || SaysIn(sx, Globals(n))
  }

  /** Scopes from `sx` inwards, each nested directly in the one before. */
  ghost predicate Chain(sx: ScopeSyntax, chain: seq<ScopeSyntax>) {
    chain != [] && chain[0] == sx && forall i: nat :: i + 1 < |chain| ==> Nested(chain[i], chain[i + 1])
  }

  /** The innermost scope mentions the name and none of the chain settles it. */
  ghost predicate Unsettled(chain: seq<ScopeSyntax>, n: Name)
    requires chain != []
  {
    SaysIn(chain[|chain| - 1], Mentions(n)) && forall sx <- chain :: !Settles(sx, n)
  }

  ghost predicate Escaping(sx: ScopeSyntax, n: Name) {
    exists chain :: Chain(sx, chain) && Unsettled(chain, n)
  }

  /** Owned here and used, through scopes that leave it unsettled, strictly inside. */
  ghost predicate Captured(sx: ScopeSyntax, n: Name) {
    Owns(sx, n) && exists inner :: Nested(sx, inner) && Escaping(inner, n)
  }

  /** Some scope strictly inside is a reason for the fact. */
  ghost predicate SaidBelow(sx: ScopeSyntax, x: Fact) {
    exists chain :: Chain(sx, chain) && |chain| >= 2 && SaysIn(chain[|chain| - 1], x)
  }

  lemma OwnedIsOwns(sx: ScopeSyntax, n: Name)
    ensures n in Owned(ScopeOf(sx)) <==> Owns(sx, n)
    ensures n in ScopeOf(sx).globals <==> SaysIn(sx, Globals(n))
    ensures n in ScopeOf(sx).mentions <==> SaysIn(sx, Mentions(n))
    ensures n in ScopeOf(sx).nonlocals <==> SaysIn(sx, Nonlocals(n))
  {
    hide SaysIn, ScopeOf, Tidy;
    ScopeSays(sx, Binds(n));
    ScopeSays(sx, Globals(n));
    ScopeSays(sx, Nonlocals(n));
    ScopeSays(sx, Mentions(n));
  }

  lemma ChainGrows(sx: ScopeSyntax, inner: ScopeSyntax, chain: seq<ScopeSyntax>)
    requires Nested(sx, inner) && Chain(inner, chain)
    ensures Chain(sx, [sx] + chain)
  {
    hide Nested;
    forall i: nat | i + 1 < |[sx] + chain| ensures Nested(([sx] + chain)[i], ([sx] + chain)[i + 1]) {
      if i > 0 {
        assert Nested(chain[i - 1], chain[i - 1 + 1]);
      }
    }
  }

  lemma ChainShrinks(sx: ScopeSyntax, chain: seq<ScopeSyntax>)
    requires Chain(sx, chain) && |chain| >= 2
    ensures Nested(sx, chain[1]) && Chain(chain[1], chain[1..])
  {
    hide Nested;
    assert Nested(chain[0], chain[0 + 1]);
    forall i: nat | i + 1 < |chain[1..]| ensures Nested(chain[1..][i], chain[1..][i + 1]) {
      assert Nested(chain[i + 1], chain[i + 1 + 1]);
    }
  }

  /** A name is free exactly when a use in the scope or below it reaches the outside unsettled. */
  lemma {:induction false} FreeIsEscapingUse(sx: ScopeSyntax, n: Name)
    ensures n in Free(ScopeOf(sx)) <==> Escaping(sx, n)
    decreases ScopeSize(sx), 1
  {
    hide SaysIn, ScopeOf, ScopeSize, Tidy, Nested, Owns, Distinct, Owned;
    var sc := ScopeOf(sx);
    OwnedIsOwns(sx, n);
    if n in Free(sc) {
      if n in sc.mentions {
        assert Chain(sx, [sx]) && Unsettled([sx], n);
      } else {
        var inner := FreeBelow(sx, n);
        var chain :| Chain(inner, chain) && Unsettled(chain, n);
        ChainGrows(sx, inner, chain);
        assert Unsettled([sx] + chain, n);
      }
    }
    if chain :| Chain(sx, chain) && Unsettled(chain, n) {
      assert sx in chain;
      if |chain| == 1 {
        assert n in sc.mentions;
      } else {
        ChainShrinks(sx, chain);
        assert Unsettled(chain[1..], n);
        EscapingBelow(sx, chain[1], n);
      }
    }
  }

  lemma {:induction false} FreeBelow(sx: ScopeSyntax, n: Name) returns (inner: ScopeSyntax)
    requires n in ChildFree(ScopeOf(sx).children)
    ensures Nested(sx, inner) && Escaping(inner, n)
    decreases ScopeSize(sx), 0
  {
    hide ScopeOf, ScopeSize, Tidy, Nested, Free, ChildFree, Escaping;
    var k := FreeInSomeChild(ScopeOf(sx).children, n);
    inner := ChildIsNested(sx, ScopeOf(sx).children[k]);
    NestedIsSmaller(sx, inner);
    FreeIsEscapingUse(inner, n);
  }

  lemma {:induction false} EscapingBelow(sx: ScopeSyntax, inner: ScopeSyntax, n: Name)
    requires Nested(sx, inner) && Escaping(inner, n)
    ensures n in ChildFree(ScopeOf(sx).children)
    decreases ScopeSize(sx), 0
  {
    hide ScopeOf, ScopeSize, Tidy, Nested, Free, ChildFree, Escaping;
    NestedIsSmaller(sx, inner);
    FreeIsEscapingUse(inner, n);
    NestedIsChild(sx, inner);
    var k :| 0 <= k < |ScopeOf(sx).children| && ScopeOf(sx).children[k] == ScopeOf(inner);
    FreeInChild(ScopeOf(sx).children, k, n);
  }

  /** A name is celled in a scope exactly when the syntax below it captures it. */
  lemma CelledIsCapturedUse(sx: ScopeSyntax, n: Name)
    ensures n in Facts(ScopeOf(sx)).celled <==> Captured(sx, n)
  {
    hide ScopeOf, Tidy, Nested, Free, ChildFree, Escaping, Owns;
    OwnedIsOwns(sx, n);
    if n in ChildFree(ScopeOf(sx).children) {
      var inner := FreeBelow(sx, n);
    }
    if inner :| Nested(sx, inner) && Escaping(inner, n) {
      EscapingBelow(sx, inner, n);
    }
  }

  // ---- declarations further in ----

  lemma SaidBelowStep(sx: ScopeSyntax, x: Fact)
    ensures SaidBelow(sx, x) <==> exists inner :: Nested(sx, inner) && (SaysIn(inner, x) || SaidBelow(inner, x))
  {
    hide SaysIn, Nested;
    if chain :| Chain(sx, chain) && |chain| >= 2 && SaysIn(chain[|chain| - 1], x) {
      ChainShrinks(sx, chain);
      var rest := chain[1..];
      assert SaysIn(rest[|rest| - 1], x);
    }
    if inner :| Nested(sx, inner) && (SaysIn(inner, x) || SaidBelow(inner, x)) {
      if SaysIn(inner, x) {
        assert Chain(inner, [inner]);
        ChainGrows(sx, inner, [inner]);
        assert SaysIn(([sx] + [inner])[1], x);
      } else {
        var chain :| Chain(inner, chain) && |chain| >= 2 && SaysIn(chain[|chain| - 1], x);
        ChainGrows(sx, inner, chain);
        assert ([sx] + chain)[|chain|] == chain[|chain| - 1];
      }
    }
  }

  /** Shared writes are the nonlocal declarations in scopes strictly inside. */
  lemma {:induction false} SharedIsSaidBelow(sx: ScopeSyntax, n: Name)
    ensures n in ChildShared(ScopeOf(sx).children) <==> SaidBelow(sx, Nonlocals(n))
    decreases ScopeSize(sx)
  {
    hide SaysIn, ScopeOf, ScopeSize, Tidy, Nested, ChildShared, SaidBelow;
    var children := ScopeOf(sx).children;
    SaidBelowStep(sx, Nonlocals(n));
    if n in ChildShared(children) {
      var k := SharedInSomeChild(children, n);
      var inner := ChildIsNested(sx, children[k]);
      NestedIsSmaller(sx, inner);
      OwnedIsOwns(inner, n);
      SharedIsSaidBelow(inner, n);
    }
    if inner :| Nested(sx, inner) && (SaysIn(inner, Nonlocals(n)) || SaidBelow(inner, Nonlocals(n))) {
      NestedIsSmaller(sx, inner);
      OwnedIsOwns(inner, n);
      SharedIsSaidBelow(inner, n);
      NestedIsChild(sx, inner);
      var k :| 0 <= k < |children| && children[k] == ScopeOf(inner);
      SharedInChild(children, k, n);
    }
  }

  /** Promoted globals are the global declarations in scopes strictly inside. */
  lemma {:induction false} GlobalsAreSaidBelow(sx: ScopeSyntax, n: Name)
    ensures n in ChildGlobals(ScopeOf(sx).children) <==> SaidBelow(sx, Globals(n))
    decreases ScopeSize(sx)
  {
    hide SaysIn, ScopeOf, ScopeSize, Tidy, Nested, ChildGlobals, SaidBelow;
    var children := ScopeOf(sx).children;
    SaidBelowStep(sx, Globals(n));
    if n in ChildGlobals(children) {
      var k := GlobalInSomeChild(children, n);
      var inner := ChildIsNested(sx, children[k]);
      NestedIsSmaller(sx, inner);
      OwnedIsOwns(inner, n);
      GlobalsAreSaidBelow(inner, n);
    }
    if inner :| Nested(sx, inner) && (SaysIn(inner, Globals(n)) || SaidBelow(inner, Globals(n))) {
      NestedIsSmaller(sx, inner);
      OwnedIsOwns(inner, n);
      GlobalsAreSaidBelow(inner, n);
      NestedIsChild(sx, inner);
      var k :| 0 <= k < |children| && children[k] == ScopeOf(inner);
      GlobalInChild(children, k, n);
    }
  }

  // ---- all the facts of a scope ----

  /** Every field is what occurrence in the syntax makes it. */
  ghost predicate Describes(facts: ScopeFacts, sx: ScopeSyntax) {
    forall n: Name :: DescribesName(facts, sx, n)
  }

  ghost predicate DescribesName(facts: ScopeFacts, sx: ScopeSyntax, n: Name) {
    && (n in facts.bound <==> Owns(sx, n))
    && (n in facts.free <==> Escaping(sx, n))
    && (n in facts.celled <==> Captured(sx, n))
    && (n in facts.globals <==> SaysIn(sx, Globals(n)))
    && (n in facts.nonlocals <==> SaysIn(sx, Nonlocals(n)))
    && (n in facts.sharedWrites <==> SaidBelow(sx, Nonlocals(n)))
    && (n in facts.globalDecls <==> SaysIn(sx, Globals(n)) || SaidBelow(sx, Globals(n)))
  }

  /** The facts of the tree built for a scope describe its syntax. */
  lemma FactsDescribe(sx: ScopeSyntax)
    ensures Describes(Facts(ScopeOf(sx)), sx)
  {
    hide ScopeOf, Tidy, Free, ChildFree, ChildShared, ChildGlobals, Escaping, Owns, Captured, SaysIn, SaidBelow;
    forall n: Name ensures DescribesName(Facts(ScopeOf(sx)), sx, n) {
      OwnedIsOwns(sx, n);
      FreeIsEscapingUse(sx, n);
      CelledIsCapturedUse(sx, n);
      SharedIsSaidBelow(sx, n);
      GlobalsAreSaidBelow(sx, n);
    }
  }

  // ---- what the comment on the shared writes promises ----

  /** Declared nonlocal by a scope inside, or by the scope itself. */
  ghost predicate PromisedShared(sx: ScopeSyntax, n: Name) {
    SaidBelow(sx, Nonlocals(n)) || SaysIn(sx, Nonlocals(n))
  }

  ghost predicate SharedAsPromised(sx: ScopeSyntax) {
    forall n: Name :: n in Facts(ScopeOf(sx)).sharedWrites <==> PromisedShared(sx, n)
  }

  /** Every name the scope itself declares nonlocal is declared so again further in. */
  ghost predicate NonlocalsRepeatInside(sx: ScopeSyntax) {
    forall n: Name :: SaysIn(sx, Nonlocals(n)) ==> SaidBelow(sx, Nonlocals(n))
  }

  lemma SharedIsPromised(sx: ScopeSyntax)
    ensures SharedAsPromised(sx) <==> NonlocalsRepeatInside(sx)
  {
    hide SaysIn, SaidBelow, ScopeOf, ChildShared;
    forall n: Name ensures n in Facts(ScopeOf(sx)).sharedWrites <==> SaidBelow(sx, Nonlocals(n)) {
      SharedIsSaidBelow(sx, n);
    }
    if SharedAsPromised(sx) {
      forall n: Name | SaysIn(sx, Nonlocals(n)) ensures SaidBelow(sx, Nonlocals(n)) {
        assert PromisedShared(sx, n);
      }
    }
  }

  /** `def f(): nonlocal x` */
  const DECLARATION := Nonlocal(["x"])

  const DECLARER := DefOf(Args([], []), [DECLARATION])

  lemma RunDeclaration()
    ensures ScopeOf(DECLARER) == DeclareNonlocal(NO_USES, "x")
  {
    hide Run, Parts;
    RunOne(NO_USES, Exec(DECLARATION));
    assert Params([]) == [] && Execs(DECLARER.stmts[..0]) == [];
    assert Inside(DECLARER) == One(Exec(DECLARATION));
    DeclarationAlone();
  }

  lemma DeclarationAlone()
    ensures Run(NO_USES, Exec(DECLARATION)) == DeclareNonlocal(NO_USES, "x")
  {
    hide Tidy;
    assert Parts(Exec(DECLARATION)) == [];
    assert DECLARATION.names[..0] == [];
  }

  /** It has `x` promised and not among its shared writes. */
  lemma OwnNonlocalIsNotShared()
    ensures PromisedShared(DECLARER, "x") && "x" !in Facts(ScopeOf(DECLARER)).sharedWrites
  {
    hide SaysIn, SaidBelow, ScopeOf;
    RunDeclaration();
    OwnedIsOwns(DECLARER, "x");
  }
}
