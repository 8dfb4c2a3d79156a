/**
 Where PEP 572 binds the target of an assignment expression inside a generator expression: in the nearest
 enclosing scope that is none. The walk binds it in the generator expression itself.
 */
module Hoisting {
  import opened Scopes
  import opened Syntax

  predicate IsWalrus(node: Node) {
    node.Eval? && node.e.NamedExpr?
  }

  /** The names assigned by `:=` here, and in generator expressions nested here. */
  function Leaks(node: Node): set<Name>
    decreases Size(node), 0
  {
    LeaksAll(Parts(node)) + (if IsWalrus(node) then {node.e.name} else {}) +
    match Opens(node) {
      case Some(GenExpOf(gens, elt)) => LeaksAll(Inside(GenExpOf(gens, elt)))
      case _ => {}
    }
  }

  function LeaksAll(nodes: seq<Node>): set<Name>
    decreases Total(nodes), 1, |nodes|
  {
    if nodes == [] then {} else LeaksAll(nodes[..|nodes| - 1]) + Leaks(nodes[|nodes| - 1])
  }

  /** In a generator expression a walrus only refers to its name; the scope around binds it. */
  function HoistDoes(acc: Acc, node: Node, inGen: bool): Acc {
    if inGen && IsWalrus(node) then DeclareNonlocal(acc, node.e.name) else Does(acc, node)
  }

  function HoistNest(acc: Acc, inner: ScopeSyntax, child: Acc, inGen: bool): Acc {
    var leaked := if inner.GenExpOf? && !inGen then LeaksAll(Inside(inner)) else {};
    Nest(acc.(binds := acc.binds + leaked), child)
  }

  /** The tree with walrus targets bound as PEP 572 has it. */
  function Hoist(acc: Acc, node: Node, inGen: bool): Acc
    decreases Size(node), 0
  {
    var after := HoistDoes(HoistAll(acc, Parts(node), inGen), node, inGen);
    match Opens(node)
    case None => after
    case Some(inner) => HoistNest(after, inner, HoistAll(NO_USES, Inside(inner), inner.GenExpOf?), inGen)
  }

  function HoistAll(acc: Acc, nodes: seq<Node>, inGen: bool): Acc
    decreases Total(nodes), 1, |nodes|
  {
    if nodes == [] then acc else Hoist(HoistAll(acc, nodes[..|nodes| - 1], inGen), nodes[|nodes| - 1], inGen)
  }

  function HoistedScopeOf(sx: ScopeSyntax): Acc {
    HoistAll(NO_USES, Inside(sx), sx.GenExpOf?)
  }

  /** No walrus belongs to a generator expression, here or further in. */
  predicate Settled(node: Node, inGen: bool)
    decreases Size(node), 0
  {
    && SettledAll(Parts(node), inGen)
    && !(inGen && IsWalrus(node))
    && match Opens(node) {
      case None => true
      case Some(inner) => SettledAll(Inside(inner), inner.GenExpOf?)
    }
  }

  predicate SettledAll(nodes: seq<Node>, inGen: bool)
    decreases Total(nodes), 1, |nodes|
  {
    nodes == [] || (SettledAll(nodes[..|nodes| - 1], inGen) && Settled(nodes[|nodes| - 1], inGen))
  }

  /** No generator expression of the scope, the scope included, has a walrus at its own level. */
  predicate KeepsWalrusesOut(sx: ScopeSyntax) {
    SettledAll(Inside(sx), sx.GenExpOf?)
  }

  // ---- without such a walrus the two trees are one ----

  lemma {:induction false} SettledAgrees(acc: Acc, node: Node, inGen: bool)
    requires Settled(node, inGen)
    ensures Hoist(acc, node, inGen) == Run(acc, node)
    ensures inGen ==> Leaks(node) == {}
    decreases Size(node), 0
  {
    hide Parts, Inside, Opens, Does, Tidy;
    SettledAllAgree(acc, Parts(node), inGen);
    if Opens(node).Some? {
      var inner := Opens(node).value;
      InnerAgrees(inner);
    }
  }

  lemma {:induction false} SettledAllAgree(acc: Acc, nodes: seq<Node>, inGen: bool)
    requires SettledAll(nodes, inGen)
    ensures HoistAll(acc, nodes, inGen) == RunAll(acc, nodes)
    ensures inGen ==> LeaksAll(nodes) == {}
    decreases Total(nodes), 1, |nodes|
  {
    hide Settled, Hoist, Run, Leaks, Tidy;
    if nodes == [] {
    } else {
      var before, last := nodes[..|nodes| - 1], nodes[|nodes| - 1];
      SettledAllAgree(acc, before, inGen);
      SettledAgrees(RunAll(acc, before), last, inGen);
    }
  }

  lemma {:induction false} InnerAgrees(sx: ScopeSyntax)
    requires KeepsWalrusesOut(sx)
    ensures HoistedScopeOf(sx) == ScopeOf(sx)
    ensures sx.GenExpOf? ==> LeaksAll(Inside(sx)) == {}
    decreases Total(Inside(sx)), 2
  {
    hide Inside, RunAll, HoistAll, SettledAll, LeaksAll;
    SettledAllAgree(NO_USES, Inside(sx), sx.GenExpOf?);
  }

  // ---- with one they differ ----

  lemma DoesKeepsChildren(acc: Acc, node: Node)
    ensures Does(acc, node).children == acc.children
  {
    if node.Exec? && node.s.Nonlocal? {
      NonlocalsKeepChildren(acc, node.s.names);
    }
  }

  lemma {:induction false} NonlocalsKeepChildren(acc: Acc, names: seq<Name>)
    ensures DeclareNonlocals(acc, names).children == acc.children
  {
    if names == [] {
    } else {
      NonlocalsKeepChildren(acc, names[..|names| - 1]);
    }
  }

  /** A generator expression runs expressions and assignments only. */
  predicate NoStatements(nodes: seq<Node>) {
    forall c <- nodes :: !c.Exec?
  }

  /** Two accumulators that have come equally far. */
  predicate InStep(a: Acc, b: Acc, inGen: bool) {
    |a.children| == |b.children| && (inGen ==> b.nonlocals == {})
  }

  /** A difference that nothing run later takes back. */
  predicate Apart(a: Acc, b: Acc, inGen: bool) {
    a.children != b.children || (inGen && a.nonlocals != {})
  }

  lemma {:induction false} PartsOfExpr(node: Node)
    requires !node.Exec?
    ensures NoStatements(Parts(node))
  {
    hide Evals, Stores, GenParts, InnerGenParts, Total, ExprSize, ExprsSize, GensSize, Size;
    match node {
      case Eval(ListComp(gens, elts)) => ClausesAreExprs(gens);
      case _ =>
    }
  }

  lemma {:induction false} ClausesAreExprs(gens: seq<Gen>)
    ensures NoStatements(GenParts(gens)) && NoStatements(InnerGenParts(gens))
  {
    hide Evals, Total, ExprSize, ExprsSize, GensSize, Size;
    if gens == [] {
    } else {
      ClausesAreExprs(gens[..|gens| - 1]);
    }
  }

  lemma LastOrBefore(xs: seq<Scope>, c: Scope, ys: seq<Scope>, d: Scope)
    requires |xs| == |ys| && (xs != ys || c != d)
    ensures xs + [c] != ys + [d]
  {
    assert (xs + [c])[..|xs|] == xs && (ys + [d])[..|ys|] == ys;
    assert (xs + [c])[|xs|] == c && (ys + [d])[|ys|] == d;
  }

  /** Both builders stay in step, and once apart they stay apart. */
  lemma {:induction false} StayApart(a: Acc, b: Acc, node: Node, inGen: bool)
    requires InStep(a, b, inGen) && (inGen ==> !node.Exec?)
    ensures InStep(Hoist(a, node, inGen), Run(b, node), inGen)
    ensures Apart(a, b, inGen) ==> Apart(Hoist(a, node, inGen), Run(b, node), inGen)
    ensures !Settled(node, inGen) ==> Apart(Hoist(a, node, inGen), Run(b, node), inGen)
    decreases Size(node), 0
  {
    hide Parts, Inside, Opens, Tidy;
    if inGen {
      PartsOfExpr(node);
    }
    AllStayApart(a, b, Parts(node), inGen);
    var x, y := HoistAll(a, Parts(node), inGen), RunAll(b, Parts(node));
    DoesKeepsChildren(x, node);
    DoesKeepsChildren(y, node);
    if Opens(node).Some? {
      var inner := Opens(node).value;
      InnerDiffers(inner);
      if x.children != y.children || HoistedScopeOf(inner) != ScopeOf(inner) {
        LastOrBefore(x.children, HoistedScopeOf(inner), y.children, ScopeOf(inner));
      }
    }
  }

  lemma {:induction false} AllStayApart(a: Acc, b: Acc, nodes: seq<Node>, inGen: bool)
    requires InStep(a, b, inGen) && (inGen ==> NoStatements(nodes))
    ensures InStep(HoistAll(a, nodes, inGen), RunAll(b, nodes), inGen)
    ensures Apart(a, b, inGen) ==> Apart(HoistAll(a, nodes, inGen), RunAll(b, nodes), inGen)
    ensures !SettledAll(nodes, inGen) ==> Apart(HoistAll(a, nodes, inGen), RunAll(b, nodes), inGen)
    decreases Total(nodes), 1, |nodes|
  {
    hide Settled, Hoist, Run, Tidy, InStep, Apart;
    if nodes == [] {
    } else {
      var before, last := nodes[..|nodes| - 1], nodes[|nodes| - 1];
      AllStayApart(a, b, before, inGen);
      StayApart(HoistAll(a, before, inGen), RunAll(b, before), last, inGen);
    }
  }

  lemma {:induction false} InnerDiffers(sx: ScopeSyntax)
    ensures !KeepsWalrusesOut(sx) ==> HoistedScopeOf(sx) != ScopeOf(sx)
    decreases Total(Inside(sx)), 2
  {
    hide RunAll, HoistAll, SettledAll, GenParts, InnerGenParts;
    if sx.GenExpOf? {
      ClausesAreExprs(sx.gens);
    }
    AllStayApart(NO_USES, NO_USES, Inside(sx), sx.GenExpOf?);
  }

  /** The walk builds the tree PEP 572 asks for exactly when no generator expression has a walrus of its own. */
  lemma WalkedAsHoisted(sx: ScopeSyntax)
    ensures HoistedScopeOf(sx) == ScopeOf(sx) <==> KeepsWalrusesOut(sx)
  {
    if KeepsWalrusesOut(sx) {
      InnerAgrees(sx);
    } else {
      InnerDiffers(sx);
    }
  }

  // ---- an input ----

  const CONSTANT := Compound([])

  /** `(x := 0 for i in y)` */
  const WALRUS := GenExp([Gen(Ident("i"), Ident("y"), [])], NamedExpr("x", CONSTANT))

  const GENERATOR := GenExpOf(WALRUS.gens, WALRUS.elt)

  /** A function that consists of it. */
  const FUNCTION := DefOf(Args([], []), [Plain([WALRUS])])

  lemma HoistOne(acc: Acc, node: Node, inGen: bool)
    ensures HoistAll(acc, [node], inGen) == Hoist(acc, node, inGen)
    ensures LeaksAll([node]) == Leaks(node)
    ensures SettledAll([node], inGen) <==> Settled(node, inGen)
  {
    hide Hoist, Leaks, Settled, Tidy;
    assert [node][..0] == [];
  }

  lemma InsideGenerator()
    ensures Inside(GENERATOR) == [Store(Ident("i")), Eval(WALRUS.elt)]
  {
    assert InnerGenParts([WALRUS.gens[0]][..0]) == [];
  }

  lemma RunConstant(acc: Acc, inGen: bool)
    ensures Run(acc, Eval(CONSTANT)) == acc == Hoist(acc, Eval(CONSTANT), inGen)
    ensures Leaks(Eval(CONSTANT)) == {}
  {
    assert Parts(Eval(CONSTANT)) == [];
  }

  /** What the two builders make of the element expression. */
  lemma RunWalrus(acc: Acc)
    ensures Run(acc, Eval(WALRUS.elt)) == Bind(acc, "x")
    ensures Hoist(acc, Eval(WALRUS.elt), true) == DeclareNonlocal(acc, "x")
    ensures Leaks(Eval(WALRUS.elt)) == {"x"} && !Settled(Eval(WALRUS.elt), true)
  {
    hide RunAll, HoistAll, LeaksAll, Tidy;
    assert Parts(Eval(WALRUS.elt)) == One(Eval(CONSTANT));
    RunOne(acc, Eval(CONSTANT));
    HoistOne(acc, Eval(CONSTANT), true);
    RunConstant(acc, true);
  }

  lemma RunTarget(acc: Acc)
    ensures Run(acc, Store(Ident("i"))) == Bind(acc, "i") == Hoist(acc, Store(Ident("i")), true)
    ensures Leaks(Store(Ident("i"))) == {}
  {
    assert Parts(Store(Ident("i"))) == [];
  }

  /** The generator expression ends up owning `x`; by PEP 572 it does not. */
  lemma WalrusBindsInside()
    ensures "x" in Owned(ScopeOf(GENERATOR)) && "x" !in Owned(HoistedScopeOf(GENERATOR))
    ensures LeaksAll(Inside(GENERATOR)) == {"x"}
  {
    hide Run, Hoist, Leaks, Parts, Inside;
    InsideGenerator();
    var target, walrus := Store(Ident("i")), Eval(WALRUS.elt);
    assert [target, walrus][..1] == [target];
    RunOne(NO_USES, target);
    HoistOne(NO_USES, target, true);
    RunTarget(NO_USES);
    RunWalrus(Bind(NO_USES, "i"));
  }

  /** The function around it does not own `x`; by PEP 572 it does. */
  lemma WalrusLeavesOuterUnbound()
    ensures "x" !in Owned(ScopeOf(FUNCTION)) && "x" in Owned(HoistedScopeOf(FUNCTION))
  {
    hide RunAll, HoistAll, LeaksAll, Run, Hoist;
    RunAround(NO_USES);
    HoistOne(NO_USES, Exec(FUNCTION.stmts[0]), false);
    RunOne(NO_USES, Exec(FUNCTION.stmts[0]));
    assert Params([]) == [] && Execs(FUNCTION.stmts[..0]) == [];
    assert Inside(FUNCTION) == [Exec(FUNCTION.stmts[0])];
  }

  lemma RunAround(acc: Acc)
    ensures Run(acc, Exec(Plain([WALRUS]))) == Nest(Mention(acc, "y"), ScopeOf(GENERATOR))
    ensures Hoist(acc, Exec(Plain([WALRUS])), false) == Nest(Bind(Mention(acc, "y"), "x"), HoistedScopeOf(GENERATOR))
  {
    hide RunAll, HoistAll, LeaksAll, Tidy, ScopeOf, HoistedScopeOf;
    RunOuter(acc);
    assert Evals([WALRUS][..0]) == [];
    assert Parts(Exec(Plain([WALRUS]))) == One(Eval(WALRUS));
    RunOne(acc, Eval(WALRUS));
    HoistOne(acc, Eval(WALRUS), false);
  }

  lemma RunOuter(acc: Acc)
    ensures Run(acc, Eval(WALRUS)) == Nest(Mention(acc, "y"), ScopeOf(GENERATOR))
    ensures Hoist(acc, Eval(WALRUS), false) == Nest(Bind(Mention(acc, "y"), "x"), HoistedScopeOf(GENERATOR))
  {
    hide RunAll, HoistAll, LeaksAll, Inside, Tidy;
    WalrusBindsInside();
    RunOne(acc, Eval(Ident("y")));
    HoistOne(acc, Eval(Ident("y")), false);
    RunIterable(acc);
  }

  lemma RunIterable(acc: Acc)
    ensures Run(acc, Eval(Ident("y"))) == Mention(acc, "y") == Hoist(acc, Eval(Ident("y")), false)
  {
    assert Parts(Eval(Ident("y"))) == [];
  }
}
