/**
 Where names stand in the syntax, by recursion over its constructors alone: which expressions and statements belong to
 a scope, which of their names are used, bound or declared there, and which scopes are opened there. The scope tree
 and the walk never look at this; that they agree with it is proved.
 */
module Positions {
  import opened Wrappers
  import opened Scopes
  import opened Syntax
  import opened Occurrence

  datatype Place =
    | Mention(n: Name) | Binding(n: Name) | GlobalDecl(n: Name) | NonlocalDecl(n: Name) | Opening(inner: ScopeSyntax)

  // ---- by constructor ----

  predicate InExpr(e: Expr, x: Place)
    decreases e, 0
  {
    match e
    case Ident(n) => x == Mention(n)
    case Compound(subs) => exists s <- subs :: InExpr(s, x)
    case Pattern(elts) => exists s <- elts :: InExpr(s, x)
    case ListComp(gens, elts) => (exists g <- gens :: InGen(g, x)) || exists s <- elts :: InExpr(s, x)
    case GenExp(gens, elt) => x == Opening(GenExpOf(gens, elt)) || (gens != [] && InExpr(gens[0].iter, x))
    case Lambda(args, body) => x == Opening(LambdaOf(args, body)) || exists s <- args.defaults :: InExpr(s, x)
    case NamedExpr(n, value) => x == Binding(n) || InExpr(value, x)
  }

  predicate InTarget(t: Expr, x: Place)
    decreases t, 1
  {
    match t
    case Ident(n) => x == Binding(n)
    case Pattern(elts) => exists s <- elts :: InTarget(s, x)
    case _ => InExpr(t, x)
  }

  predicate InGen(g: Gen, x: Place) {
    InExpr(g.iter, x) || InTarget(g.target, x) || exists c <- g.ifs :: InExpr(c, x)
  }

  predicate InOption(e: Option<Expr>, x: Place) {
    e.Some? && InExpr(e.value, x)
  }

  predicate InHandler(h: Handler, x: Place) {
    InOption(h.kind, x) || (h.name.Some? && x == Binding(h.name.value)) || exists s <- h.body :: InStmt(s, x)
  }

  predicate InItem(i: WithItem, x: Place) {
    InExpr(i.context, x) || (i.target.Some? && InTarget(i.target.value, x))
  }

  predicate InPattern(p: CasePattern, x: Place) {
    (exists v <- p.values :: InExpr(v, x)) || (exists s <- p.subs :: InPattern(s, x)) ||
    (p.captured.Some? && x == Binding(p.captured.value))
  }

  predicate InCase(c: MatchCase, x: Place) {
    InPattern(c.pattern, x) || InOption(c.guard, x) || exists s <- c.body :: InStmt(s, x)
  }

  /** Annotations and class bodies aside, every part of a statement is in it. */
  predicate InStmt(s: Stmt, x: Place) {
    match s
    case Plain(exprs) => exists e <- exprs :: InExpr(e, x)
    case Assign(targets, value) => InExpr(value, x) || exists t <- targets :: InTarget(t, x)
    case AugAssign(target, value) =>
      InExpr(value, x) || InTarget(target, x) || (target.Ident? && x == Mention(target.id))
    case AnnAssign(target, annotated) => InOption(annotated, x) || InTarget(target, x)
    case Branch(test, body, orelse) =>
      InExpr(test, x) || (exists b <- body :: InStmt(b, x)) || exists b <- orelse :: InStmt(b, x)
    case For(target, iter, body, orelse) =>
      InExpr(iter, x) || InTarget(target, x) || (exists b <- body :: InStmt(b, x)) || exists b <- orelse :: InStmt(b, x)
    case FunctionDef(name, decorators, args, body) =>
      x == Binding(name) || x == Opening(DefOf(args, body)) ||
      (exists d <- decorators :: InExpr(d, x)) || exists d <- args.defaults :: InExpr(d, x)
    case ClassDef(name, decorators, bases, _) =>
      x == Binding(name) || (exists d <- decorators :: InExpr(d, x)) || exists b <- bases :: InExpr(b, x)
    case Global(names) => x.GlobalDecl? && x.n in names
    case Nonlocal(names) => (x.NonlocalDecl? || x.Mention?) && x.n in names
    case Try(body, handlers, orelse, finalbody) =>
      (exists b <- body :: InStmt(b, x)) || (exists h <- handlers :: InHandler(h, x)) ||
      (exists b <- orelse :: InStmt(b, x)) || exists b <- finalbody :: InStmt(b, x)
    case With(items, body) => (exists i <- items :: InItem(i, x)) || exists b <- body :: InStmt(b, x)
    case Match(subject, cases) => InExpr(subject, x) || exists c <- cases :: InCase(c, x)
  }

  predicate IsParam(args: Args, x: Place) {
    x.Binding? && x.n in args.names
  }

  /** A generator expression's own clauses: all but the outermost iterable. */
  predicate InOwnGen(gens: seq<Gen>, i: nat, x: Place)
    requires i < |gens|
  {
    (i > 0 && InExpr(gens[i].iter, x)) || InTarget(gens[i].target, x) || exists c <- gens[i].ifs :: InExpr(c, x)
  }

  predicate InScope(sx: ScopeSyntax, x: Place) {
    match sx
    case DefOf(args, stmts) => IsParam(args, x) || exists s <- stmts :: InStmt(s, x)
    case LambdaOf(args, result) => IsParam(args, x) || InExpr(result, x)
    case GenExpOf(gens, elt) => InExpr(elt, x) || exists i: nat :: i < |gens| && InOwnGen(gens, i, x)
  }

  // ---- by occurrence ----

  predicate Reason(node: Node, x: Place) {
    match x
    case Mention(n) => Itself(node, Mentions(n))
    case Binding(n) => Itself(node, Binds(n))
    case GlobalDecl(n) => Itself(node, Globals(n))
    case NonlocalDecl(n) => Itself(node, Nonlocals(n))
    case Opening(inner) => Opens(node) == Some(inner)
  }

  ghost predicate Gives(node: Node, x: Place) {
    exists part :: Occurs(node, part) && Reason(part, x)
  }

  ghost predicate GivesAny(nodes: seq<Node>, x: Place) {
    exists c <- nodes :: Gives(c, x)
  }

  lemma GivesByParts(node: Node, x: Place)
    ensures Gives(node, x) <==> Reason(node, x) || GivesAny(Parts(node), x)
  {
    hide Parts, Reason;
    if Reason(node, x) {
      assert Occurs(node, node);
    }
    if GivesAny(Parts(node), x) {
      var c :| c in Parts(node) && Gives(c, x);
      var part :| Occurs(c, part) && Reason(part, x);
      assert Occurs(node, part);
    }
    if Gives(node, x) && !Reason(node, x) {
      var part :| Occurs(node, part) && Reason(part, x);
      var c :| c in Parts(node) && Occurs(c, part);
      assert Gives(c, x);
    }
  }

  lemma GivesEither(a: seq<Node>, b: seq<Node>, x: Place)
    ensures GivesAny(Then(a, b), x) <==> GivesAny(a, x) || GivesAny(b, x)
  {
    hide Gives, Then;
    if GivesAny(a, x) || GivesAny(b, x) {
      var c :| (c in a || c in b) && Gives(c, x);
      assert c in Then(a, b);
    }
  }

  lemma GivesInOrder(a: seq<Node>, b: seq<Node>, c: seq<Node>, d: seq<Node>, x: Place)
    ensures GivesAny(Then(Then(Then(a, b), c), d), x) <==>
      GivesAny(a, x) || GivesAny(b, x) || GivesAny(c, x) || GivesAny(d, x)
  {
    hide GivesAny, Then;
    GivesEither(Then(Then(a, b), c), d, x);
    GivesEither(Then(a, b), c, x);
    GivesEither(a, b, x);
  }

  lemma GivesOne(node: Node, x: Place)
    ensures GivesAny(One(node), x) <==> Gives(node, x)
  {
    hide Gives;
    assert node in One(node);
  }

  // ---- the two agree ----

  lemma GivesNone(x: Place)
    ensures !GivesAny([], x) && !GivesAny(Nothing(), x)
  {
  }

  lemma {:induction false} OfExpr(e: Expr, x: Place)
    ensures Gives(Eval(e), x) <==> InExpr(e, x)
    decreases e, 0
  {
    hide Gives, GivesAny, Then, One, Nothing, Evals, GenParts, Total, ExprSize, ExprsSize, GensSize;
    GivesByParts(Eval(e), x);
    GivesNone(x);
    match e
    case Ident(_) =>
    case Compound(subs) => OfExprs(subs, x);
    case Pattern(elts) => OfExprs(elts, x);
    case ListComp(gens, elts) =>
      GivesEither(GenParts(gens), Evals(elts), x);
      OfGens(gens, x);
      OfExprs(elts, x);
    case GenExp(gens, _) =>
      if gens != [] {
        GivesOne(Eval(gens[0].iter), x);
        OfExpr(gens[0].iter, x);
      }
    case Lambda(args, _) => OfExprs(args.defaults, x);
    case NamedExpr(_, value) =>
      GivesOne(Eval(value), x);
      OfExpr(value, x);
  }

  lemma {:induction false} OfExprs(es: seq<Expr>, x: Place)
    ensures GivesAny(Evals(es), x) <==> exists s <- es :: InExpr(s, x)
    decreases es, 1
  {
    hide Gives, InExpr;
    forall s <- es ensures Gives(Eval(s), x) <==> InExpr(s, x) { OfExpr(s, x); }
    if s :| s in es && InExpr(s, x) {
      assert Eval(s) in Evals(es);
    }
  }

  lemma {:induction false} OfTarget(t: Expr, x: Place)
    ensures Gives(Store(t), x) <==> InTarget(t, x)
    decreases t, 2
  {
    hide Gives, GivesAny, One, Stores, InExpr;
    GivesByParts(Store(t), x);
    GivesNone(x);
    match t
    case Ident(_) =>
    case Pattern(elts) => OfTargets(elts, x);
    case _ =>
      GivesOne(Eval(t), x);
      OfExpr(t, x);
  }

  lemma {:induction false} OfTargets(ts: seq<Expr>, x: Place)
    ensures GivesAny(Stores(ts), x) <==> exists t <- ts :: InTarget(t, x)
    decreases ts, 3
  {
    hide Gives, InTarget;
    forall t <- ts ensures Gives(Store(t), x) <==> InTarget(t, x) { OfTarget(t, x); }
    if t :| t in ts && InTarget(t, x) {
      assert Store(t) in Stores(ts);
    }
  }

  lemma {:induction false} OfGens(gens: seq<Gen>, x: Place)
    ensures GivesAny(GenParts(gens), x) <==> exists g <- gens :: InGen(g, x)
    decreases gens, 1
  {
    hide GivesAny, Then, One, Evals, InExpr, InTarget;
    GivesNone(x);
    if gens == [] {
    } else {
      var before, g := gens[..|gens| - 1], gens[|gens| - 1];
      OfGens(before, x);
      OfGen(g, x);
      GivesInOrder(GenParts(before), One(Eval(g.iter)), One(Store(g.target)), Evals(g.ifs), x);
      assert GivesAny(GenParts(gens), x) <==> GivesAny(GenParts(before), x) || InGen(g, x);
      assert forall h :: h in gens <==> h in before || h == g;
      assert (exists h <- gens :: InGen(h, x)) <==> (exists h <- before :: InGen(h, x)) || InGen(g, x);
    }
  }

  lemma {:induction false} OfGen(g: Gen, x: Place)
    ensures GivesAny(One(Eval(g.iter)), x) <==> InExpr(g.iter, x)
    ensures GivesAny(One(Store(g.target)), x) <==> InTarget(g.target, x)
    ensures GivesAny(Evals(g.ifs), x) <==> exists c <- g.ifs :: InExpr(c, x)
    decreases g, 4
  {
    hide GivesAny, InExpr, InTarget, One;
    GivesOne(Eval(g.iter), x);
    GivesOne(Store(g.target), x);
    OfExpr(g.iter, x);
    OfTarget(g.target, x);
    OfExprs(g.ifs, x);
  }

  lemma OfOption(e: Option<Expr>, x: Place)
    ensures GivesAny(OptEval(e), x) <==> InOption(e, x)
  {
    hide Gives, InExpr, One;
    GivesNone(x);
    if e.Some? {
      GivesOne(Eval(e.value), x);
      OfExpr(e.value, x);
    }
  }

  lemma OfOptTarget(t: Option<Expr>, x: Place)
    ensures GivesAny(OptStore(t), x) <==> t.Some? && InTarget(t.value, x)
  {
    hide Gives, InTarget, One;
    GivesNone(x);
    if t.Some? {
      GivesOne(Store(t.value), x);
      OfTarget(t.value, x);
    }
  }

  lemma OfOptName(n: Option<Name>, x: Place)
    ensures GivesAny(OptBind(n), x) <==> n.Some? && x == Binding(n.value)
  {
    hide Gives, One;
    GivesNone(x);
    if n.Some? {
      GivesOne(Store(Ident(n.value)), x);
      OfTarget(Ident(n.value), x);
    }
  }

  lemma OfParams(args: Args, x: Place)
    ensures GivesAny(Params(args.names), x) <==> IsParam(args, x)
  {
    hide Gives;
    forall n <- args.names ensures Gives(Store(Ident(n)), x) <==> x == Binding(n) { OfTarget(Ident(n), x); }
    if IsParam(args, x) {
      assert Store(Ident(x.n)) in Params(args.names);
    }
  }

  lemma {:induction false} OfItems(items: seq<WithItem>, x: Place)
    ensures GivesAny(ItemParts(items), x) <==> exists i <- items :: InItem(i, x)
  {
    hide GivesAny, Then, One, OptStore, InExpr, InTarget;
    GivesNone(x);
    if items == [] {
    } else {
      var before, i := items[..|items| - 1], items[|items| - 1];
      OfItems(before, x);
      GivesOne(Eval(i.context), x);
      OfExpr(i.context, x);
      OfOptTarget(i.target, x);
      GivesEither(Then(ItemParts(before), One(Eval(i.context))), OptStore(i.target), x);
      GivesEither(ItemParts(before), One(Eval(i.context)), x);
      assert forall h :: h in items <==> h in before || h == i;
      assert (exists h <- items :: InItem(h, x)) <==> (exists h <- before :: InItem(h, x)) || InItem(i, x);
    }
  }

  lemma {:induction false} OfPattern(p: CasePattern, x: Place)
    ensures GivesAny(PatternParts(p), x) <==> InPattern(p, x)
    decreases p, 0
  {
    hide GivesAny, Then, Evals, PatternsParts, OptBind, InExpr;
    OfExprs(p.values, x);
    OfPatterns(p.subs, x);
    OfOptName(p.captured, x);
    GivesEither(Then(Evals(p.values), PatternsParts(p.subs)), OptBind(p.captured), x);
    GivesEither(Evals(p.values), PatternsParts(p.subs), x);
  }

  lemma {:induction false} OfPatterns(ps: seq<CasePattern>, x: Place)
    ensures GivesAny(PatternsParts(ps), x) <==> exists s <- ps :: InPattern(s, x)
    decreases ps, 1
  {
    hide GivesAny, Then, PatternParts, InPattern;
    GivesNone(x);
    if ps == [] {
    } else {
      var before, p := ps[..|ps| - 1], ps[|ps| - 1];
      OfPatterns(before, x);
      OfPattern(p, x);
      GivesEither(PatternsParts(before), PatternParts(p), x);
      assert forall h :: h in ps <==> h in before || h == p;
      assert (exists h <- ps :: InPattern(h, x)) <==> (exists h <- before :: InPattern(h, x)) || InPattern(p, x);
    }
  }

  lemma {:induction false} OfHandlers(handlers: seq<Handler>, x: Place)
    ensures GivesAny(HandlerParts(handlers), x) <==> exists h <- handlers :: InHandler(h, x)
    decreases handlers, 2
  {
    hide GivesAny, Then, OptEval, OptBind, Execs, InOption, InStmt;
    GivesNone(x);
    if handlers == [] {
    } else {
      var before, h := handlers[..|handlers| - 1], handlers[|handlers| - 1];
      OfHandlers(before, x);
      OfOption(h.kind, x);
      OfOptName(h.name, x);
      OfBody(h.body, x);
      GivesInOrder(HandlerParts(before), OptEval(h.kind), OptBind(h.name), Execs(h.body), x);
      assert forall k :: k in handlers <==> k in before || k == h;
      assert (exists k <- handlers :: InHandler(k, x)) <==> (exists k <- before :: InHandler(k, x)) || InHandler(h, x);
    }
  }

  lemma {:induction false} OfCases(cases: seq<MatchCase>, x: Place)
    ensures GivesAny(CaseParts(cases), x) <==> exists c <- cases :: InCase(c, x)
    decreases cases, 2
  {
    hide GivesAny, Then, OptEval, PatternParts, Execs, InOption, InStmt, InPattern;
    GivesNone(x);
    if cases == [] {
    } else {
      var before, c := cases[..|cases| - 1], cases[|cases| - 1];
      OfCases(before, x);
      OfPattern(c.pattern, x);
      OfOption(c.guard, x);
      OfBody(c.body, x);
      GivesInOrder(CaseParts(before), PatternParts(c.pattern), OptEval(c.guard), Execs(c.body), x);
      assert forall k :: k in cases <==> k in before || k == c;
      assert (exists k <- cases :: InCase(k, x)) <==> (exists k <- before :: InCase(k, x)) || InCase(c, x);
    }
  }

  lemma {:induction false} OfBody(body: seq<Stmt>, x: Place)
    ensures GivesAny(Execs(body), x) <==> exists s <- body :: InStmt(s, x)
    decreases body, 1
  {
    hide Gives, InStmt;
    forall s <- body ensures Gives(Exec(s), x) <==> InStmt(s, x) { OfStmt(s, x); }
    if s :| s in body && InStmt(s, x) {
      assert Exec(s) in Execs(body);
    }
  }

  lemma {:induction false} OfAssignment(s: Stmt, x: Place)
    requires s.Plain? || s.Assign? || s.AugAssign? || s.AnnAssign?
    ensures GivesAny(StmtParts(s), x) <==> InStmt(s, x)
    decreases s, 0
  {
    hide Gives, GivesAny, Then, One, Nothing, Evals, Stores, Execs, OptEval, HandlerParts, ItemParts, CaseParts, Reread;
    hide Total, StmtSize, ExprSize, ExprsSize, StmtsSize, OptSize, HandlersSize, ItemsSize, CasesSize;
    hide InExpr, InTarget, InOption;
    GivesNone(x);
    match s
    case Plain(exprs) => OfExprs(exprs, x);
    case Assign(targets, value) =>
      OfValue(value, x);
      OfTargets(targets, x);
      GivesEither(One(Eval(value)), Stores(targets), x);
    case AugAssign(target, value) =>
      OfValue(value, x);
      OfStored(target, x);
      OfReread(target, x);
      GivesEither(Then(One(Eval(value)), Reread(target)), One(Store(target)), x);
      GivesEither(One(Eval(value)), Reread(target), x);
    case AnnAssign(target, annotated) =>
      OfOption(annotated, x);
      OfStored(target, x);
      GivesEither(OptEval(annotated), One(Store(target)), x);
  }

  lemma {:induction false} OfDefinition(s: Stmt, x: Place)
    requires s.FunctionDef? || s.ClassDef?
    ensures GivesAny(StmtParts(s), x) || Reason(Exec(s), x) <==> InStmt(s, x)
    decreases s, 0
  {
    hide Gives, GivesAny, Then, One, Nothing, Evals, Stores, Execs, OptEval, HandlerParts, ItemParts, CaseParts, Reread;
    hide Total, StmtSize, ExprSize, ExprsSize, StmtsSize, OptSize, HandlersSize, ItemsSize, CasesSize;
    hide InExpr, InTarget, InOption;
    GivesNone(x);
    match s
    case FunctionDef(_, decorators, args, _) =>
      OfExprs(decorators, x);
      OfExprs(args.defaults, x);
      GivesEither(Evals(decorators), Evals(args.defaults), x);
    case ClassDef(_, decorators, bases, _) =>
      OfExprs(decorators, x);
      OfExprs(bases, x);
      GivesEither(Evals(decorators), Evals(bases), x);
  }

  lemma OfDeclaration(s: Stmt, x: Place)
    requires s.Global? || s.Nonlocal?
    ensures GivesAny(StmtParts(s), x) || Reason(Exec(s), x) <==> InStmt(s, x)
  {
    GivesNone(x);
  }

  lemma {:induction false} OfBranches(s: Stmt, x: Place)
    requires s.Branch? || s.For?
    ensures GivesAny(StmtParts(s), x) <==> InStmt(s, x)
    decreases s, 0
  {
    hide Gives, GivesAny, Then, One, Nothing, Evals, Stores, Execs, OptEval, HandlerParts, ItemParts, CaseParts, Reread;
    hide Total, StmtSize, ExprSize, ExprsSize, StmtsSize, OptSize, HandlersSize, ItemsSize, CasesSize;
    hide InExpr, InTarget, InOption;
    GivesNone(x);
    match s
    case Branch(test, body, orelse) =>
      OfValue(test, x);
      OfBody(body, x);
      OfBody(orelse, x);
      GivesEither(Then(One(Eval(test)), Execs(body)), Execs(orelse), x);
      GivesEither(One(Eval(test)), Execs(body), x);
    case For(target, iter, body, orelse) =>
      OfValue(iter, x);
      OfStored(target, x);
      OfBody(body, x);
      OfBody(orelse, x);
      GivesInOrder(One(Eval(iter)), One(Store(target)), Execs(body), Execs(orelse), x);
  }

  lemma {:induction false} OfTry(s: Stmt, x: Place)
    requires s.Try?
    ensures GivesAny(StmtParts(s), x) <==> InStmt(s, x)
    decreases s, 0
  {
    hide Gives, GivesAny, Then, One, Nothing, Evals, Stores, Execs, OptEval, HandlerParts, ItemParts, CaseParts, Reread;
    hide Total, StmtSize, ExprSize, ExprsSize, StmtsSize, OptSize, HandlersSize, ItemsSize, CasesSize;
    hide InExpr, InTarget, InOption, InHandler, InItem, InCase;
    GivesNone(x);
    match s
    case Try(body, handlers, orelse, finalbody) =>
      OfBody(body, x);
      OfHandlers(handlers, x);
      OfBody(orelse, x);
      OfBody(finalbody, x);
      GivesInOrder(Execs(body), HandlerParts(handlers), Execs(orelse), Execs(finalbody), x);
  }

  lemma {:induction false} OfBlocks(s: Stmt, x: Place)
    requires s.With? || s.Match?
    ensures GivesAny(StmtParts(s), x) <==> InStmt(s, x)
    decreases s, 0
  {
    hide Gives, GivesAny, Then, One, Nothing, Evals, Stores, Execs, OptEval, HandlerParts, ItemParts, CaseParts, Reread;
    hide Total, StmtSize, ExprSize, ExprsSize, StmtsSize, OptSize, HandlersSize, ItemsSize, CasesSize;
    hide InExpr, InTarget, InOption, InHandler, InItem, InCase;
    GivesNone(x);
    match s
    case With(items, body) =>
      OfItems(items, x);
      OfBody(body, x);
      GivesEither(ItemParts(items), Execs(body), x);
    case Match(subject, cases) =>
      OfValue(subject, x);
      OfCases(cases, x);
      GivesEither(One(Eval(subject)), CaseParts(cases), x);
  }

  lemma OfValue(e: Expr, x: Place)
    ensures GivesAny(One(Eval(e)), x) <==> InExpr(e, x)
  {
    GivesOne(Eval(e), x);
    OfExpr(e, x);
  }

  lemma OfStored(t: Expr, x: Place)
    ensures GivesAny(One(Store(t)), x) <==> InTarget(t, x)
  {
    GivesOne(Store(t), x);
    OfTarget(t, x);
  }

  lemma OfReread(target: Expr, x: Place)
    ensures GivesAny(Reread(target), x) <==> target.Ident? && x == Mention(target.id)
  {
    hide GivesAny, One, Nothing;
    GivesNone(x);
    if target.Ident? {
      OfValue(target, x);
    }
  }

  lemma OnlyDeclarationsDo(s: Stmt, x: Place)
    ensures Reason(Exec(s), x) ==> s.FunctionDef? || s.ClassDef? || s.Global? || s.Nonlocal?
  {
  }

  lemma {:induction false} OfStmt(s: Stmt, x: Place)
    ensures Gives(Exec(s), x) <==> InStmt(s, x)
    decreases s, 1
  {
    hide Gives, GivesAny, StmtParts, InStmt, Reason;
    GivesByParts(Exec(s), x);
    OnlyDeclarationsDo(s, x);
    if s.Branch? || s.For? {
      OfBranches(s, x);
    } else if s.Try? {
      OfTry(s, x);
    } else if s.With? || s.Match? {
      OfBlocks(s, x);
    } else if s.FunctionDef? || s.ClassDef? {
      OfDefinition(s, x);
    } else if s.Global? || s.Nonlocal? {
      OfDeclaration(s, x);
    } else {
      OfAssignment(s, x);
    }
  }

  lemma InnerGenStep(gens: seq<Gen>)
    requires gens != []
    ensures var g := gens[|gens| - 1];
      var own := Then(InnerGenParts(gens[..|gens| - 1]), if |gens| == 1 then [] else One(Eval(g.iter)));
      InnerGenParts(gens) == Then(Then(own, One(Store(g.target))), Evals(g.ifs))
  {
    hide Then, One, Evals, Total, GensSize;
  }

  /** The last clause, whose iterable is the scope's own unless it is also the first. */
  lemma OfLastGen(gens: seq<Gen>, x: Place)
    requires gens != []
    ensures var before := InnerGenParts(gens[..|gens| - 1]);
      GivesAny(InnerGenParts(gens), x) <==> GivesAny(before, x) || InOwnGen(gens, |gens| - 1, x)
  {
    var before, g := InnerGenParts(gens[..|gens| - 1]), gens[|gens| - 1];
    var iter := if |gens| == 1 then [] else One(Eval(g.iter));
    hide GivesAny, Then, One, Evals, InExpr, InTarget, InnerGenParts;
    InnerGenStep(gens);
    GivesNone(x);
    OfGen(g, x);
    GivesInOrder(before, iter, One(Store(g.target)), Evals(g.ifs), x);
  }

  lemma {:induction false} OfInnerGens(gens: seq<Gen>, x: Place)
    ensures GivesAny(InnerGenParts(gens), x) <==> exists i: nat :: i < |gens| && InOwnGen(gens, i, x)
  {
    hide GivesAny, InnerGenParts, InExpr, InTarget;
    if gens == [] {
      GivesNone(x);
      assert InnerGenParts([]) == [] by { NoGens(); }
    } else {
      var before, last := gens[..|gens| - 1], |gens| - 1;
      OfInnerGens(before, x);
      OfLastGen(gens, x);
      assert forall i: nat :: i < last ==> (InOwnGen(gens, i, x) <==> InOwnGen(before, i, x));
    }
  }

  lemma NoGens()
    ensures InnerGenParts([]) == []
  {
  }

  lemma OfInside(sx: ScopeSyntax, x: Place)
    ensures GivesAny(Inside(sx), x) <==> InScope(sx, x)
  {
    hide GivesAny, Then, One, Params, Execs, InnerGenParts, InStmt, InExpr, InOwnGen, IsParam;
    match sx
    case DefOf(args, stmts) =>
      GivesEither(Params(args.names), Execs(stmts), x);
      OfParams(args, x);
      OfBody(stmts, x);
    case LambdaOf(args, result) =>
      GivesEither(Params(args.names), One(Eval(result)), x);
      OfParams(args, x);
      OfValue(result, x);
    case GenExpOf(gens, elt) =>
      GivesEither(InnerGenParts(gens), One(Eval(elt)), x);
      OfInnerGens(gens, x);
      OfValue(elt, x);
  }

  /** A name stands in a scope, or a scope is opened in it, exactly where the constructors of its syntax say so. */
  lemma PlacesAreOccurrences(sx: ScopeSyntax, x: Place)
    ensures InScope(sx, x) <==> exists part :: RunsIn(sx, part) && Reason(part, x)
  {
    hide Inside, InScope, Reason, Occurs;
    OfInside(sx, x);
    if GivesAny(Inside(sx), x) {
      var c :| c in Inside(sx) && Gives(c, x);
      var part :| Occurs(c, part) && Reason(part, x);
      assert RunsIn(sx, part);
    }
    if part :| RunsIn(sx, part) && Reason(part, x) {
      var c :| c in Inside(sx) && Occurs(c, part);
      assert Gives(c, x);
    }
  }

  /** The reasons and the nesting all the facts are described by, as positions. */
  lemma PlacesDecideFacts(sx: ScopeSyntax, n: Name, inner: ScopeSyntax)
    ensures SaysIn(sx, Mentions(n)) <==> InScope(sx, Mention(n))
    ensures SaysIn(sx, Binds(n)) <==> InScope(sx, Binding(n))
    ensures SaysIn(sx, Globals(n)) <==> InScope(sx, GlobalDecl(n))
    ensures SaysIn(sx, Nonlocals(n)) <==> InScope(sx, NonlocalDecl(n))
    ensures Nested(sx, inner) <==> InScope(sx, Opening(inner))
  {
    hide RunsIn, InScope, Itself, Opens;
    PlacesAreOccurrences(sx, Mention(n));
    PlacesAreOccurrences(sx, Binding(n));
    PlacesAreOccurrences(sx, GlobalDecl(n));
    PlacesAreOccurrences(sx, NonlocalDecl(n));
    PlacesAreOccurrences(sx, Opening(inner));
    assert forall part :: Reason(part, Mention(n)) <==> Itself(part, Mentions(n));
    assert forall part :: Reason(part, Binding(n)) <==> Itself(part, Binds(n));
    assert forall part :: Reason(part, GlobalDecl(n)) <==> Itself(part, Globals(n));
    assert forall part :: Reason(part, NonlocalDecl(n)) <==> Itself(part, Nonlocals(n));
    assert forall part :: Reason(part, Opening(inner)) <==> Opens(part) == Some(inner);
  }
}
