/**
 No name is lost and none is made up: the names written anywhere in a scope, whatever they are there for and however
 deep, are exactly those that it or a scope nested in it uses, binds or declares.
 */
module NameConservation {
  import opened Wrappers
  import opened Scopes
  import opened Syntax
  import opened Occurrence
  import opened Positions

  // ---- every name written, blind to scopes, targets and order ----

  predicate NamesExpr(e: Expr, n: Name) {
    match e
    case Ident(m) => m == n
    case Compound(subs) => exists s <- subs :: NamesExpr(s, n)
    case Pattern(elts) => exists s <- elts :: NamesExpr(s, n)
    case ListComp(gens, elts) => (exists g <- gens :: NamesGen(g, n)) || exists s <- elts :: NamesExpr(s, n)
    case GenExp(gens, elt) => (exists g <- gens :: NamesGen(g, n)) || NamesExpr(elt, n)
    case Lambda(args, body) => NamesArgs(args, n) || NamesExpr(body, n)
    case NamedExpr(m, value) => m == n || NamesExpr(value, n)
  }

  predicate NamesGen(g: Gen, n: Name) {
    NamesExpr(g.target, n) || NamesExpr(g.iter, n) || exists c <- g.ifs :: NamesExpr(c, n)
  }

  predicate NamesArgs(args: Args, n: Name) {
    n in args.names || exists d <- args.defaults :: NamesExpr(d, n)
  }

  predicate NamesPattern(p: CasePattern, n: Name) {
    (exists v <- p.values :: NamesExpr(v, n)) || (exists s <- p.subs :: NamesPattern(s, n)) || p.captured == Some(n)
  }

  predicate NamesOption(e: Option<Expr>, n: Name) {
    e.Some? && NamesExpr(e.value, n)
  }

  predicate NamesHandler(h: Handler, n: Name) {
    NamesOption(h.kind, n) || h.name == Some(n) || exists s <- h.body :: NamesStmt(s, n)
  }

  predicate NamesItem(i: WithItem, n: Name) {
    NamesExpr(i.context, n) || NamesOption(i.target, n)
  }

  predicate NamesCase(c: MatchCase, n: Name) {
    NamesPattern(c.pattern, n) || NamesOption(c.guard, n) || exists s <- c.body :: NamesStmt(s, n)
  }

  /** Annotations are not in the syntax and class bodies are not read. */
  predicate NamesStmt(s: Stmt, n: Name) {
    match s
    case Plain(exprs) => exists e <- exprs :: NamesExpr(e, n)
    case Assign(targets, value) => (exists t <- targets :: NamesExpr(t, n)) || NamesExpr(value, n)
    case AugAssign(target, value) => NamesExpr(target, n) || NamesExpr(value, n)
    case AnnAssign(target, annotated) => NamesExpr(target, n) || NamesOption(annotated, n)
    case Branch(test, body, orelse) => NamesExpr(test, n) || exists b <- body + orelse :: NamesStmt(b, n)
    case For(target, iter, body, orelse) =>
      NamesExpr(target, n) || NamesExpr(iter, n) || exists b <- body + orelse :: NamesStmt(b, n)
    case FunctionDef(name, decorators, args, body) =>
      name == n || (exists d <- decorators :: NamesExpr(d, n)) || NamesArgs(args, n) ||
      exists b <- body :: NamesStmt(b, n)
    case ClassDef(name, decorators, bases, _) => name == n || exists e <- decorators + bases :: NamesExpr(e, n)
    case Global(names) => n in names
    case Nonlocal(names) => n in names
    case Try(body, handlers, orelse, finalbody) =>
      (exists b <- body + orelse + finalbody :: NamesStmt(b, n)) || exists h <- handlers :: NamesHandler(h, n)
    case With(items, body) => (exists i <- items :: NamesItem(i, n)) || exists b <- body :: NamesStmt(b, n)
    case Match(subject, cases) => NamesExpr(subject, n) || exists c <- cases :: NamesCase(c, n)
  }

  /** A generator expression's outermost iterable is written in the scope around it. */
  predicate NamesOwnGen(gens: seq<Gen>, i: nat, n: Name)
    requires i < |gens|
  {
    NamesExpr(gens[i].target, n) || (i > 0 && NamesExpr(gens[i].iter, n)) || exists c <- gens[i].ifs :: NamesExpr(c, n)
  }

  predicate NamesScope(sx: ScopeSyntax, n: Name) {
    match sx
    case DefOf(args, stmts) => n in args.names || exists s <- stmts :: NamesStmt(s, n)
    case LambdaOf(args, result) => n in args.names || NamesExpr(result, n)
    case GenExpOf(gens, elt) =>
      NamesExpr(elt, n) || exists i: nat :: i < |gens| && NamesOwnGen(gens, i, n)
  }

  // ---- every name written stands somewhere ----

  /** The place is one of the name, or opens a scope in which it is written. */
  predicate Carries(x: Place, n: Name) {
    match x
    case Opening(inner) => NamesScope(inner, n)
    case _ => x.n == n
  }

  ghost predicate ShowsExpr(e: Expr, n: Name) {
    exists x :: InExpr(e, x) && Carries(x, n)
  }

  ghost predicate ShowsTarget(t: Expr, n: Name) {
    exists x :: InTarget(t, x) && Carries(x, n)
  }

  ghost predicate ShowsGen(g: Gen, n: Name) {
    exists x :: InGen(g, x) && Carries(x, n)
  }

  ghost predicate ShowsPattern(p: CasePattern, n: Name) {
    exists x :: InPattern(p, x) && Carries(x, n)
  }

  ghost predicate ShowsHandler(h: Handler, n: Name) {
    exists x :: InHandler(h, x) && Carries(x, n)
  }

  ghost predicate ShowsItem(i: WithItem, n: Name) {
    exists x :: InItem(i, x) && Carries(x, n)
  }

  ghost predicate ShowsCase(c: MatchCase, n: Name) {
    exists x :: InCase(c, x) && Carries(x, n)
  }

  ghost predicate ShowsStmt(s: Stmt, n: Name) {
    exists x :: InStmt(s, x) && Carries(x, n)
  }

  /** A generator expression's names, split between its own scope and the one around it. */
  lemma GenExpNames(gens: seq<Gen>, elt: Expr, n: Name)
    ensures NamesExpr(GenExp(gens, elt), n) <==>
      NamesScope(GenExpOf(gens, elt), n) || (gens != [] && NamesExpr(gens[0].iter, n))
  {
    assert NamesExpr(GenExp(gens, elt), n) <==> (exists g <- gens :: NamesGen(g, n)) || NamesExpr(elt, n);
    forall i: nat | i < |gens|
      ensures NamesGen(gens[i], n) <==> NamesOwnGen(gens, i, n) || (i == 0 && NamesExpr(gens[i].iter, n))
    {
    }
    if g :| g in gens && NamesGen(g, n) {
      var i: nat :| i < |gens| && gens[i] == g;
    }
    if i: nat :| i < |gens| && NamesOwnGen(gens, i, n) {
      assert gens[i] in gens;
    }
    if gens != [] && NamesExpr(gens[0].iter, n) {
      assert gens[0] in gens;
    }
  }

  lemma {:induction false} ExprShows(e: Expr, n: Name)
    ensures NamesExpr(e, n) <==> ShowsExpr(e, n)
    decreases e, 0
  {
    match e
    case Ident(_) => assert InExpr(e, Mention(e.id));
    case Compound(subs) => ExprsShow(subs, n);
    case Pattern(elts) => ExprsShow(elts, n);
    case ListComp(gens, elts) =>
      ExprsShow(elts, n);
      forall g <- gens ensures NamesGen(g, n) <==> ShowsGen(g, n) { GenShows(g, n); }
      hide InGen, NamesGen, Carries;
    case GenExp(gens, elt) =>
      if gens != [] {
        ExprShows(gens[0].iter, n);
      }
      GenExpNames(gens, elt, n);
      assert InExpr(e, Opening(GenExpOf(gens, elt)));
      hide NamesScope;
    case Lambda(args, body) =>
      ExprsShow(args.defaults, n);
      assert InExpr(e, Opening(LambdaOf(args, body)));
    case NamedExpr(m, value) =>
      ExprShows(value, n);
      assert InExpr(e, Binding(m));
  }

  lemma {:induction false} ExprsShow(es: seq<Expr>, n: Name)
    ensures forall e <- es :: NamesExpr(e, n) <==> ShowsExpr(e, n)
    decreases es, 1
  {
    forall e <- es ensures NamesExpr(e, n) <==> ShowsExpr(e, n) { ExprShows(e, n); }
  }

  lemma {:induction false} TargetShows(t: Expr, n: Name)
    ensures NamesExpr(t, n) <==> ShowsTarget(t, n)
    decreases t, 2
  {
    match t
    case Ident(m) => assert InTarget(t, Binding(m));
    case Pattern(elts) => TargetsShow(elts, n);
    case _ =>
      ExprShows(t, n);
      hide InExpr, NamesExpr, Carries;
      assert forall x :: InTarget(t, x) <==> InExpr(t, x);
  }

  lemma {:induction false} TargetsShow(ts: seq<Expr>, n: Name)
    ensures forall t <- ts :: NamesExpr(t, n) <==> ShowsTarget(t, n)
    decreases ts, 3
  {
    forall t <- ts ensures NamesExpr(t, n) <==> ShowsTarget(t, n) { TargetShows(t, n); }
  }

  lemma {:induction false} GenShows(g: Gen, n: Name)
    ensures NamesGen(g, n) <==> ShowsGen(g, n)
    decreases g, 4
  {
    ExprShows(g.iter, n);
    TargetShows(g.target, n);
    ExprsShow(g.ifs, n);
    hide InExpr, InTarget, NamesExpr, Carries;
  }

  lemma {:induction false} PatternShows(p: CasePattern, n: Name)
    ensures NamesPattern(p, n) <==> ShowsPattern(p, n)
  {
    ExprsShow(p.values, n);
    forall q <- p.subs ensures NamesPattern(q, n) <==> ShowsPattern(q, n) { PatternShows(q, n); }
    if p.captured.Some? {
      assert InPattern(p, Binding(p.captured.value));
    }
  }

  lemma OptionShows(e: Option<Expr>, n: Name)
    ensures NamesOption(e, n) <==> exists x :: InOption(e, x) && Carries(x, n)
  {
    if e.Some? {
      ExprShows(e.value, n);
      hide InExpr, NamesExpr, Carries;
      assert forall x :: InOption(e, x) <==> InExpr(e.value, x);
    }
  }

  lemma ItemShows(i: WithItem, n: Name)
    ensures NamesItem(i, n) <==> ShowsItem(i, n)
  {
    ExprShows(i.context, n);
    if i.target.Some? {
      TargetShows(i.target.value, n);
    }
    hide InExpr, InTarget, NamesExpr, Carries;
  }

  lemma {:induction false} HandlerShows(h: Handler, n: Name)
    ensures NamesHandler(h, n) <==> ShowsHandler(h, n)
    decreases h, 3
  {
    OptionShows(h.kind, n);
    StmtsShow(h.body, n);
    if h.name.Some? {
      assert InHandler(h, Binding(h.name.value));
    }
    hide InOption, NamesOption, InStmt, NamesStmt;
  }

  lemma {:induction false} CaseShows(c: MatchCase, n: Name)
    ensures NamesCase(c, n) <==> ShowsCase(c, n)
    decreases c, 3
  {
    PatternShows(c.pattern, n);
    OptionShows(c.guard, n);
    StmtsShow(c.body, n);
    hide InOption, NamesOption, InStmt, NamesStmt, InPattern, NamesPattern, Carries;
  }

  lemma {:induction false} StmtsShow(body: seq<Stmt>, n: Name)
    ensures forall s <- body :: NamesStmt(s, n) <==> ShowsStmt(s, n)
    decreases body, 2
  {
    forall s <- body ensures NamesStmt(s, n) <==> ShowsStmt(s, n) { StmtShows(s, n); }
  }

  lemma {:induction false} StmtShows(s: Stmt, n: Name)
    ensures NamesStmt(s, n) <==> ShowsStmt(s, n)
    decreases s, 1
  {
    if s.Branch? || s.For? || s.Try? || s.With? || s.Match? {
      BlockShows(s, n);
    } else if s.Global? || s.Nonlocal? {
      assert InStmt(s, if s.Global? then GlobalDecl(n) else NonlocalDecl(n)) <==> n in s.names;
    } else if s.FunctionDef? || s.ClassDef? {
      DefinitionShows(s, n);
    } else {
      SimpleShows(s, n);
    }
  }

  lemma SimpleShows(s: Stmt, n: Name)
    requires s.Plain? || s.Assign? || s.AugAssign? || s.AnnAssign?
    ensures NamesStmt(s, n) <==> ShowsStmt(s, n)
  {
    match s
    case Plain(exprs) => ExprsShow(exprs, n);
    case Assign(targets, value) =>
      TargetsShow(targets, n);
      ExprShows(value, n);
    case AugAssign(target, value) =>
      TargetShows(target, n);
      ExprShows(value, n);
    case AnnAssign(target, annotated) =>
      TargetShows(target, n);
      OptionShows(annotated, n);
  }

  lemma DefinitionShows(s: Stmt, n: Name)
    requires s.FunctionDef? || s.ClassDef?
    ensures NamesStmt(s, n) <==> ShowsStmt(s, n)
  {
    ExprsShow(s.decorators, n);
    assert InStmt(s, Binding(s.name));
    match s
    case FunctionDef(_, _, args, body) =>
      ExprsShow(args.defaults, n);
      assert InStmt(s, Opening(DefOf(args, body)));
    case ClassDef(_, _, bases, _) => ExprsShow(bases, n);
  }

  lemma {:induction false} BlockShows(s: Stmt, n: Name)
    requires s.Branch? || s.For? || s.Try? || s.With? || s.Match?
    ensures NamesStmt(s, n) <==> ShowsStmt(s, n)
    decreases s, 0
  {
    hide InExpr, NamesExpr, InTarget, Carries, InHandler, NamesHandler, InItem, NamesItem, InCase, NamesCase;
    match s
    case Branch(test, body, orelse) =>
      ExprShows(test, n);
      StmtsShow(body, n);
      StmtsShow(orelse, n);
    case For(target, iter, body, orelse) =>
      TargetShows(target, n);
      ExprShows(iter, n);
      StmtsShow(body, n);
      StmtsShow(orelse, n);
    case Try(body, handlers, orelse, finalbody) =>
      StmtsShow(body, n);
      StmtsShow(orelse, n);
      StmtsShow(finalbody, n);
      forall h <- handlers ensures NamesHandler(h, n) <==> ShowsHandler(h, n) { HandlerShows(h, n); }
    case With(items, body) =>
      StmtsShow(body, n);
      forall i <- items ensures NamesItem(i, n) <==> ShowsItem(i, n) { ItemShows(i, n); }
    case Match(subject, cases) =>
      ExprShows(subject, n);
      forall c <- cases ensures NamesCase(c, n) <==> ShowsCase(c, n) { CaseShows(c, n); }
  }

  // ---- the law ----

  ghost predicate ShowsScope(sx: ScopeSyntax, n: Name) {
    exists x :: InScope(sx, x) && Carries(x, n)
  }

  ghost predicate ShowsOwnGen(gens: seq<Gen>, i: nat, n: Name)
    requires i < |gens|
  {
    exists x :: InOwnGen(gens, i, x) && Carries(x, n)
  }

  lemma OwnGenShows(gens: seq<Gen>, i: nat, n: Name)
    requires i < |gens|
    ensures NamesOwnGen(gens, i, n) <==> ShowsOwnGen(gens, i, n)
  {
    ExprShows(gens[i].iter, n);
    TargetShows(gens[i].target, n);
    ExprsShow(gens[i].ifs, n);
    hide InExpr, InTarget, NamesExpr, Carries;
  }

  lemma ScopeShows(sx: ScopeSyntax, n: Name)
    ensures NamesScope(sx, n) <==> ShowsScope(sx, n)
  {
    match sx
    case DefOf(args, stmts) =>
      StmtsShow(stmts, n);
      assert n in args.names ==> InScope(sx, Binding(n));
      hide InStmt, NamesStmt;
    case LambdaOf(args, result) =>
      ExprShows(result, n);
      assert n in args.names ==> InScope(sx, Binding(n));
      hide InExpr, NamesExpr;
    case GenExpOf(gens, elt) =>
      ExprShows(elt, n);
      forall i: nat | i < |gens| ensures NamesOwnGen(gens, i, n) <==> ShowsOwnGen(gens, i, n) {
        OwnGenShows(gens, i, n);
      }
      hide InExpr, NamesExpr, InOwnGen, NamesOwnGen, Carries;
      if i: nat :| i < |gens| && NamesOwnGen(gens, i, n) {
        var x :| InOwnGen(gens, i, x) && Carries(x, n);
        assert InScope(sx, x);
      }
      if x :| InScope(sx, x) && Carries(x, n) && !InExpr(elt, x) {
        var i: nat :| i < |gens| && InOwnGen(gens, i, x);
        assert ShowsOwnGen(gens, i, n);
      }
  }

  /** Used, bound or declared by the scope itself. */
  ghost predicate Handles(sx: ScopeSyntax, n: Name) {
    SaysIn(sx, Mentions(n)) || SaysIn(sx, Binds(n)) || SaysIn(sx, Globals(n)) || SaysIn(sx, Nonlocals(n))
  }

  /** Handled by the scope or by one some levels further in. */
  ghost predicate HandledWithin(sx: ScopeSyntax, n: Name) {
    exists chain :: Chain(sx, chain) && Handles(chain[|chain| - 1], n)
  }

  lemma HandledStep(sx: ScopeSyntax, n: Name)
    ensures HandledWithin(sx, n) <==> Handles(sx, n) || exists inner :: Nested(sx, inner) && HandledWithin(inner, n)
  {
    hide Handles, Nested;
    if chain :| Chain(sx, chain) && Handles(chain[|chain| - 1], n) {
      if |chain| > 1 {
        ChainShrinks(sx, chain);
        assert Handles(chain[1..][|chain[1..]| - 1], n);
      }
    }
    if Handles(sx, n) {
      assert Chain(sx, [sx]);
    }
    if inner :| Nested(sx, inner) && HandledWithin(inner, n) {
      var chain :| Chain(inner, chain) && Handles(chain[|chain| - 1], n);
      ChainGrows(sx, inner, chain);
      assert ([sx] + chain)[|chain|] == chain[|chain| - 1];
    }
  }

  lemma ShownByLevels(sx: ScopeSyntax, n: Name)
    ensures NamesScope(sx, n) <==> Handles(sx, n) || exists inner :: Nested(sx, inner) && NamesScope(inner, n)
  {
    hide InScope, NamesScope, SaysIn, Nested;
    ScopeShows(sx, n);
    forall inner ensures Nested(sx, inner) <==> InScope(sx, Opening(inner)) { PlacesDecideFacts(sx, n, inner); }
    PlacesDecideFacts(sx, n, sx);
    if Handles(sx, n) {
      assert Carries(Mention(n), n) && Carries(Binding(n), n);
      assert Carries(GlobalDecl(n), n) && Carries(NonlocalDecl(n), n);
    }
    if inner :| Nested(sx, inner) && NamesScope(inner, n) {
      assert Carries(Opening(inner), n);
    }
  }

  /** The names written in a scope are the ones it or a scope nested in it handles: none lost, none made up. */
  lemma {:induction false} NamesAreConserved(sx: ScopeSyntax, n: Name)
    ensures NamesScope(sx, n) <==> HandledWithin(sx, n)
    decreases ScopeSize(sx)
  {
    hide NamesScope, HandledWithin, Handles, Nested, ScopeSize;
    ShownByLevels(sx, n);
    HandledStep(sx, n);
    forall inner | Nested(sx, inner) ensures NamesScope(inner, n) <==> HandledWithin(inner, n) {
      NestedIsSmaller(sx, inner);
      NamesAreConserved(inner, n);
    }
  }
}
