/**
 In what order names are met. The events of a scope are listed by recursion over the constructors of its syntax, each
 part where the walk comes to it, and the scope tree is what those events, replayed one by one, build; so free names
 come out in the order of their first occurrence.
 */
module EvaluationOrder {
  import opened Wrappers
  import opened Scopes
  import opened Syntax
  import P = Positions

  type Event = P.Place

  // ---- the events, by constructor ----

  function OfExpr(e: Expr): seq<Event>
    decreases e, 0
  {
    match e
    case Ident(n) => [P.Mention(n)]
    case Compound(subs) => OfExprs(subs)
    case Pattern(elts) => OfExprs(elts)
    case ListComp(gens, elts) => OfGens(gens) + OfExprs(elts)
    case GenExp(gens, elt) => (if gens == [] then [] else OfExpr(gens[0].iter)) + [P.Opening(GenExpOf(gens, elt))]
    case Lambda(args, body) => OfExprs(args.defaults) + [P.Opening(LambdaOf(args, body))]
    case NamedExpr(n, value) => OfExpr(value) + [P.Binding(n)]
  }

  function OfExprs(es: seq<Expr>): seq<Event>
    decreases es, 0
  {
    if es == [] then [] else OfExprs(es[..|es| - 1]) + OfExpr(es[|es| - 1])
  }

  function OfTarget(t: Expr): seq<Event>
    decreases t, 1
  {
    match t
    case Ident(n) => [P.Binding(n)]
    case Pattern(elts) => OfTargets(elts)
    case _ => OfExpr(t)
  }

  function OfTargets(ts: seq<Expr>): seq<Event>
    decreases ts, 1
  {
    if ts == [] then [] else OfTargets(ts[..|ts| - 1]) + OfTarget(ts[|ts| - 1])
  }

  /** The iterable is evaluated before its target is bound, and the conditions after. */
  function OfGens(gens: seq<Gen>): seq<Event>
    decreases gens, 0
  {
    if gens == [] then []
    else
      var g := gens[|gens| - 1];
      OfGens(gens[..|gens| - 1]) + OfExpr(g.iter) + OfTarget(g.target) + OfExprs(g.ifs)
  }

  function OfOption(e: Option<Expr>): seq<Event> {
    if e.Some? then OfExpr(e.value) else []
  }

  function OfName(n: Option<Name>): seq<Event> {
    if n.Some? then [P.Binding(n.value)] else []
  }

  function OfNames(names: seq<Name>, event: Name -> Event): seq<Event> {
    seq(|names|, i requires 0 <= i < |names| => event(names[i]))
  }

  function OfHandlers(handlers: seq<Handler>): seq<Event>
    decreases handlers, 1
  {
    if handlers == [] then []
    else
      var h := handlers[|handlers| - 1];
      OfHandlers(handlers[..|handlers| - 1]) + OfOption(h.kind) + OfName(h.name) + OfBody(h.body)
  }

  function OfItems(items: seq<WithItem>): seq<Event> {
    if items == [] then []
    else
      var i := items[|items| - 1];
      OfItems(items[..|items| - 1]) + OfExpr(i.context) + if i.target.Some? then OfTarget(i.target.value) else []
  }

  function OfPattern(p: CasePattern): seq<Event> {
    OfExprs(p.values) + OfPatterns(p.subs) + OfName(p.captured)
  }

  function OfPatterns(ps: seq<CasePattern>): seq<Event> {
    if ps == [] then [] else OfPatterns(ps[..|ps| - 1]) + OfPattern(ps[|ps| - 1])
  }

  function OfCases(cases: seq<MatchCase>): seq<Event>
    decreases cases, 1
  {
    if cases == [] then []
    else
      var c := cases[|cases| - 1];
      OfCases(cases[..|cases| - 1]) + OfPattern(c.pattern) + OfOption(c.guard) + OfBody(c.body)
  }

  function OfBody(body: seq<Stmt>): seq<Event>
    decreases body, 0
  {
    if body == [] then [] else OfBody(body[..|body| - 1]) + OfStmt(body[|body| - 1])
  }

  /** Values before what they are assigned to, bodies in the order written, a name after what defines it. */
  function OfStmt(s: Stmt): seq<Event>
    decreases s, 0
  {
    match s
    case Plain(exprs) => OfExprs(exprs)
    case Assign(targets, value) => OfExpr(value) + OfTargets(targets)
    case AugAssign(target, value) =>
      OfExpr(value) + (if target.Ident? then [P.Mention(target.id)] else []) + OfTarget(target)
    case AnnAssign(target, annotated) => OfOption(annotated) + OfTarget(target)
    case Branch(test, body, orelse) => OfExpr(test) + OfBody(body) + OfBody(orelse)
    case For(target, iter, body, orelse) => OfExpr(iter) + OfTarget(target) + OfBody(body) + OfBody(orelse)
    case FunctionDef(name, decorators, args, body) =>
      OfExprs(decorators) + OfExprs(args.defaults) + [P.Binding(name), P.Opening(DefOf(args, body))]
    case ClassDef(name, decorators, bases, _) => OfExprs(decorators) + OfExprs(bases) + [P.Binding(name)]
    case Global(names) => OfNames(names, n => P.GlobalDecl(n))
    case Nonlocal(names) => OfNames(names, n => P.NonlocalDecl(n))
    case Try(body, handlers, orelse, finalbody) =>
      OfBody(body) + OfHandlers(handlers) + OfBody(orelse) + OfBody(finalbody)
    case With(items, body) => OfItems(items) + OfBody(body)
    case Match(subject, cases) => OfExpr(subject) + OfCases(cases)
  }

  function OfOwnGens(gens: seq<Gen>): seq<Event> {
    if gens == [] then []
    else
      var g := gens[|gens| - 1];
      OfOwnGens(gens[..|gens| - 1]) + (if |gens| == 1 then [] else OfExpr(g.iter)) + OfTarget(g.target) + OfExprs(g.ifs)
  }

  function OfScope(sx: ScopeSyntax): seq<Event> {
    match sx
    case DefOf(args, stmts) => OfNames(args.names, n => P.Binding(n)) + OfBody(stmts)
    case LambdaOf(args, result) => OfNames(args.names, n => P.Binding(n)) + OfExpr(result)
    case GenExpOf(gens, elt) => OfOwnGens(gens) + OfExpr(elt)
  }

  // ---- replaying them ----

  /** A nonlocal declaration is also a use. */
  function Step(acc: Acc, x: Event): Acc {
    match x
    case Mention(n) => Mention(acc, n)
    case Binding(n) => Bind(acc, n)
    case GlobalDecl(n) => DeclareGlobals(acc, [n])
    case NonlocalDecl(n) => DeclareNonlocal(acc, n)
    case Opening(inner) => Nest(acc, ScopeOf(inner))
  }

  function Replay(acc: Acc, events: seq<Event>): Acc {
    if events == [] then acc else Step(Replay(acc, events[..|events| - 1]), events[|events| - 1])
  }

  lemma {:induction false} ReplayAppend(acc: Acc, a: seq<Event>, b: seq<Event>)
    ensures Replay(acc, a + b) == Replay(Replay(acc, a), b)
  {
    hide Step, Tidy;
    if b == [] {
      assert a + b == a;
    } else {
      ReplayAppend(acc, a, b[..|b| - 1]);
      assert (a + b)[..|a + b| - 1] == a + b[..|b| - 1];
    }
  }

  lemma ReplayOne(acc: Acc, x: Event)
    ensures Replay(acc, [x]) == Step(acc, x)
  {
    hide Step, Tidy;
    assert [x][..0] == [];
  }

  /** Lists of events one after the other, the last ones possibly empty. */
  lemma ReplayInOrder(acc: Acc, a: seq<Event>, b: seq<Event>, c: seq<Event>, d: seq<Event>)
    ensures Replay(acc, a + b) == Replay(Replay(acc, a), b)
    ensures Replay(acc, a + b + c) == Replay(Replay(Replay(acc, a), b), c)
    ensures Replay(acc, a + b + c + d) == Replay(Replay(Replay(Replay(acc, a), b), c), d)
  {
    hide Replay;
    ReplayAppend(acc, a, b);
    ReplayAppend(acc, a + b, c);
    ReplayAppend(acc, a + b + c, d);
  }

  // ---- the scope tree is the replay ----

  /** An expression runs its parts, and then mentions, binds or opens a scope if it is of that kind. */
  function AfterExpr(acc: Acc, e: Expr): Acc {
    match e
    case Ident(n) => Mention(acc, n)
    case NamedExpr(n, _) => Bind(acc, n)
    case GenExp(gens, elt) => Nest(acc, ScopeOf(GenExpOf(gens, elt)))
    case Lambda(args, body) => Nest(acc, ScopeOf(LambdaOf(args, body)))
    case _ => acc
  }

  lemma RunExpr(acc: Acc, e: Expr)
    ensures Run(acc, Eval(e)) == AfterExpr(RunAll(acc, ExprParts(e)), e)
  {
    hide Tidy, ExprParts;
  }

  lemma {:induction false} ExprReplays(acc: Acc, e: Expr)
    ensures Run(acc, Eval(e)) == Replay(acc, OfExpr(e))
    decreases e, 0
  {
    hide Tidy, Run, RunAll, Replay, Then, One, Nothing, Evals, GenParts, OfExprs, OfGens, ScopeOf, Nest, Bind;
    hide Syntax.Mention;
    RunExpr(acc, e);
    NoneReplays(acc);
    match e
    case Ident(n) => ReplayOne(acc, P.Mention(n));
    case Compound(subs) => ExprsReplay(acc, subs);
    case Pattern(elts) => ExprsReplay(acc, elts);
    case ListComp(gens, elts) =>
      RunInOrder(acc, GenParts(gens), Evals(elts), [], []);
      GensReplay(acc, gens);
      ExprsReplay(RunAll(acc, GenParts(gens)), elts);
      ReplayInOrder(acc, OfGens(gens), OfExprs(elts), [], []);
    case GenExp(gens, elt) =>
      if gens != [] {
        RunOne(acc, Eval(gens[0].iter));
        ExprReplays(acc, gens[0].iter);
        ThenReplays(acc, OfExpr(gens[0].iter), P.Opening(GenExpOf(gens, elt)));
      } else {
        ThenReplays(acc, [], P.Opening(GenExpOf(gens, elt)));
      }
    case Lambda(args, body) =>
      ExprsReplay(acc, args.defaults);
      ThenReplays(acc, OfExprs(args.defaults), P.Opening(LambdaOf(args, body)));
    case NamedExpr(n, value) =>
      RunOne(acc, Eval(value));
      ExprReplays(acc, value);
      ThenReplays(acc, OfExpr(value), P.Binding(n));
  }

  lemma NoneReplays(acc: Acc)
    ensures Replay(acc, []) == acc && RunAll(acc, Nothing()) == acc && RunAll(acc, []) == acc
  {
  }

  lemma ThenReplays(acc: Acc, events: seq<Event>, x: Event)
    ensures Replay(acc, events + [x]) == Step(Replay(acc, events), x)
  {
    hide Step;
    ReplayAppend(acc, events, [x]);
    ReplayOne(Replay(acc, events), x);
  }

  lemma {:induction false} ExprsReplay(acc: Acc, es: seq<Expr>)
    ensures RunAll(acc, Evals(es)) == Replay(acc, OfExprs(es))
    decreases es, 0
  {
    hide Tidy, Run, RunAll, Replay, Then, One, OfExpr;
    NoneReplays(acc);
    if es == [] {
    } else {
      var before, e := es[..|es| - 1], es[|es| - 1];
      var mid := RunAll(acc, Evals(before));
      ExprsReplay(acc, before);
      ExprReplays(mid, e);
      RunOne(mid, Eval(e));
      RunInOrder(acc, Evals(before), One(Eval(e)), [], []);
      ReplayInOrder(acc, OfExprs(before), OfExpr(e), [], []);
    }
  }

  lemma {:induction false} TargetReplays(acc: Acc, t: Expr)
    ensures Run(acc, Store(t)) == Replay(acc, OfTarget(t))
    decreases t, 1
  {
    hide Tidy, RunAll, Replay, Then, One, Stores, OfTargets, OfExpr, Bind;
    NoneReplays(acc);
    match t
    case Ident(n) => ReplayOne(acc, P.Binding(n));
    case Pattern(elts) => TargetsReplay(acc, elts);
    case _ =>
      RunOne(acc, Eval(t));
      ExprReplays(acc, t);
  }

  lemma {:induction false} TargetsReplay(acc: Acc, ts: seq<Expr>)
    ensures RunAll(acc, Stores(ts)) == Replay(acc, OfTargets(ts))
    decreases ts, 1
  {
    hide Tidy, Run, RunAll, Replay, Then, One, OfTarget;
    NoneReplays(acc);
    if ts == [] {
    } else {
      var before, t := ts[..|ts| - 1], ts[|ts| - 1];
      var mid := RunAll(acc, Stores(before));
      TargetsReplay(acc, before);
      TargetReplays(mid, t);
      RunOne(mid, Store(t));
      RunInOrder(acc, Stores(before), One(Store(t)), [], []);
      ReplayInOrder(acc, OfTargets(before), OfTarget(t), [], []);
    }
  }

  lemma {:induction false} GensReplay(acc: Acc, gens: seq<Gen>)
    ensures RunAll(acc, GenParts(gens)) == Replay(acc, OfGens(gens))
    decreases gens, 0
  {
    hide Tidy, Run, RunAll, Replay, Then, One, Evals, OfTarget, OfExpr, OfExprs;
    NoneReplays(acc);
    if gens == [] {
    } else {
      var before, g := gens[..|gens| - 1], gens[|gens| - 1];
      GensReplay(acc, before);
      RunInOrder(acc, GenParts(before), One(Eval(g.iter)), One(Store(g.target)), Evals(g.ifs));
      GenReplays(RunAll(acc, GenParts(before)), g);
      ReplayInOrder(acc, OfGens(before), OfExpr(g.iter), OfTarget(g.target), OfExprs(g.ifs));
    }
  }

  lemma {:induction false} GenReplays(acc: Acc, g: Gen)
    ensures RunAll(RunAll(RunAll(acc, One(Eval(g.iter))), One(Store(g.target))), Evals(g.ifs)) ==
      Replay(Replay(Replay(acc, OfExpr(g.iter)), OfTarget(g.target)), OfExprs(g.ifs))
    decreases g, 0
  {
    hide Tidy, Run, RunAll, Replay, Then, One, Evals, OfTarget, OfExpr, OfExprs;
    RunOne(acc, Eval(g.iter));
    ExprReplays(acc, g.iter);
    var bound := Replay(acc, OfExpr(g.iter));
    RunOne(bound, Store(g.target));
    TargetReplays(bound, g.target);
    ExprsReplay(Replay(bound, OfTarget(g.target)), g.ifs);
  }

  lemma OptionReplays(acc: Acc, e: Option<Expr>)
    ensures RunAll(acc, OptEval(e)) == Replay(acc, OfOption(e))
  {
    hide Tidy, Run, RunAll, Replay, One, OfExpr;
    NoneReplays(acc);
    if e.Some? {
      RunOne(acc, Eval(e.value));
      ExprReplays(acc, e.value);
    }
  }

  lemma NameReplays(acc: Acc, n: Option<Name>)
    ensures RunAll(acc, OptBind(n)) == Replay(acc, OfName(n))
  {
    hide Tidy, Run, RunAll, Replay, One, Bind;
    NoneReplays(acc);
    if n.Some? {
      RunBind(acc, n.value);
      ReplayOne(acc, P.Binding(n.value));
    }
  }

  lemma {:induction false} ItemsReplay(acc: Acc, items: seq<WithItem>)
    ensures RunAll(acc, ItemParts(items)) == Replay(acc, OfItems(items))
  {
    hide Tidy, Run, RunAll, Replay, Then, One, OptStore, OfTarget, OfExpr;
    NoneReplays(acc);
    if items == [] {
    } else {
      var before, i := items[..|items| - 1], items[|items| - 1];
      var mid := RunAll(acc, ItemParts(before));
      ItemsReplay(acc, before);
      RunInOrder(acc, ItemParts(before), One(Eval(i.context)), OptStore(i.target), []);
      RunOne(mid, Eval(i.context));
      ExprReplays(mid, i.context);
      var target := if i.target.Some? then OfTarget(i.target.value) else [];
      ReplayInOrder(acc, OfItems(before), OfExpr(i.context), target, []);
      OptTargetReplays(Replay(mid, OfExpr(i.context)), i.target);
    }
  }

  lemma OptTargetReplays(acc: Acc, t: Option<Expr>)
    ensures RunAll(acc, OptStore(t)) == Replay(acc, if t.Some? then OfTarget(t.value) else [])
  {
    hide Tidy, Run, RunAll, Replay, One, OfTarget;
    NoneReplays(acc);
    if t.Some? {
      RunOne(acc, Store(t.value));
      TargetReplays(acc, t.value);
    }
  }

  lemma {:induction false} PatternReplays(acc: Acc, p: CasePattern)
    ensures RunAll(acc, PatternParts(p)) == Replay(acc, OfPattern(p))
    decreases p, 0
  {
    hide Tidy, Run, RunAll, Replay, Then, Evals, PatternsParts, OptBind, OfExprs, OfPatterns, OfName;
    RunInOrder(acc, Evals(p.values), PatternsParts(p.subs), OptBind(p.captured), []);
    ExprsReplay(acc, p.values);
    var valued := Replay(acc, OfExprs(p.values));
    PatternsReplay(valued, p.subs);
    NameReplays(Replay(valued, OfPatterns(p.subs)), p.captured);
    ReplayInOrder(acc, OfExprs(p.values), OfPatterns(p.subs), OfName(p.captured), []);
  }

  lemma {:induction false} PatternsReplay(acc: Acc, ps: seq<CasePattern>)
    ensures RunAll(acc, PatternsParts(ps)) == Replay(acc, OfPatterns(ps))
    decreases ps, 0
  {
    hide Tidy, Run, RunAll, Replay, Then, PatternParts, OfPattern;
    NoneReplays(acc);
    if ps == [] {
    } else {
      var before, p := ps[..|ps| - 1], ps[|ps| - 1];
      PatternsReplay(acc, before);
      PatternReplays(RunAll(acc, PatternsParts(before)), p);
      RunInOrder(acc, PatternsParts(before), PatternParts(p), [], []);
      ReplayInOrder(acc, OfPatterns(before), OfPattern(p), [], []);
    }
  }

  lemma {:induction false} HandlersReplay(acc: Acc, handlers: seq<Handler>)
    ensures RunAll(acc, HandlerParts(handlers)) == Replay(acc, OfHandlers(handlers))
    decreases handlers, 1
  {
    hide Tidy, Run, RunAll, Replay, Then, OptEval, OptBind, Execs, OfOption, OfName, OfBody;
    NoneReplays(acc);
    if handlers == [] {
    } else {
      var before, h := handlers[..|handlers| - 1], handlers[|handlers| - 1];
      HandlersReplay(acc, before);
      RunInOrder(acc, HandlerParts(before), OptEval(h.kind), OptBind(h.name), Execs(h.body));
      ReplayInOrder(acc, OfHandlers(before), OfOption(h.kind), OfName(h.name), OfBody(h.body));
      var mid := Replay(acc, OfHandlers(before));
      OptionReplays(mid, h.kind);
      NameReplays(Replay(mid, OfOption(h.kind)), h.name);
      BodyReplays(Replay(Replay(mid, OfOption(h.kind)), OfName(h.name)), h.body);
    }
  }

  lemma {:induction false} CasesReplay(acc: Acc, cases: seq<MatchCase>)
    ensures RunAll(acc, CaseParts(cases)) == Replay(acc, OfCases(cases))
    decreases cases, 1
  {
    hide Tidy, Run, RunAll, Replay, Then, PatternParts, OptEval, Execs, OfPattern, OfOption, OfBody;
    NoneReplays(acc);
    if cases == [] {
    } else {
      var before, c := cases[..|cases| - 1], cases[|cases| - 1];
      CasesReplay(acc, before);
      RunInOrder(acc, CaseParts(before), PatternParts(c.pattern), OptEval(c.guard), Execs(c.body));
      ReplayInOrder(acc, OfCases(before), OfPattern(c.pattern), OfOption(c.guard), OfBody(c.body));
      var mid := Replay(acc, OfCases(before));
      PatternReplays(mid, c.pattern);
      OptionReplays(Replay(mid, OfPattern(c.pattern)), c.guard);
      BodyReplays(Replay(Replay(mid, OfPattern(c.pattern)), OfOption(c.guard)), c.body);
    }
  }

  lemma {:induction false} BodyReplays(acc: Acc, body: seq<Stmt>)
    ensures RunAll(acc, Execs(body)) == Replay(acc, OfBody(body))
    decreases body, 0
  {
    hide Tidy, Run, RunAll, Replay, Then, One, OfStmt;
    NoneReplays(acc);
    if body == [] {
    } else {
      var before, s := body[..|body| - 1], body[|body| - 1];
      var mid := RunAll(acc, Execs(before));
      BodyReplays(acc, before);
      StmtReplays(mid, s);
      RunOne(mid, Exec(s));
      RunInOrder(acc, Execs(before), One(Exec(s)), [], []);
      ReplayInOrder(acc, OfBody(before), OfStmt(s), [], []);
    }
  }

  lemma {:induction false} GlobalsReplay(acc: Acc, names: seq<Name>)
    ensures Replay(acc, OfNames(names, n => P.GlobalDecl(n))) == DeclareGlobals(acc, names)
  {
    hide Tidy;
    if names == [] {
      assert DeclareGlobals(acc, []).globals == acc.globals;
    } else {
      var before, n := names[..|names| - 1], names[|names| - 1];
      GlobalsReplay(acc, before);
      assert OfNames(names, n => P.GlobalDecl(n)) == OfNames(before, n => P.GlobalDecl(n)) + [P.GlobalDecl(n)];
      ThenReplays(acc, OfNames(before, n => P.GlobalDecl(n)), P.GlobalDecl(n));
      assert DeclareGlobals(DeclareGlobals(acc, before), [n]).globals == DeclareGlobals(acc, names).globals;
    }
  }

  lemma {:induction false} NonlocalsReplay(acc: Acc, names: seq<Name>)
    ensures Replay(acc, OfNames(names, n => P.NonlocalDecl(n))) == DeclareNonlocals(acc, names)
  {
    hide Tidy;
    if names == [] {
    } else {
      var before, n := names[..|names| - 1], names[|names| - 1];
      NonlocalsReplay(acc, before);
      assert OfNames(names, n => P.NonlocalDecl(n)) == OfNames(before, n => P.NonlocalDecl(n)) + [P.NonlocalDecl(n)];
      ThenReplays(acc, OfNames(before, n => P.NonlocalDecl(n)), P.NonlocalDecl(n));
    }
  }

  lemma {:induction false} StmtReplays(acc: Acc, s: Stmt)
    ensures Run(acc, Exec(s)) == Replay(acc, OfStmt(s))
    decreases s, 0
  {
    hide Tidy, Run, RunAll, Replay, Then, One, Nothing, Evals, Stores, Execs, OptEval, HandlerParts, ItemParts;
    hide CaseParts, Reread, OfExpr, OfExprs, OfTarget, OfTargets, OfBody, OfHandlers, OfItems, OfCases, OfOption;
    hide OfNames, Bind, Nest, ScopeOf, DeclareGlobals, DeclareNonlocals;
    RunStmt(acc, s);
    NoneReplays(acc);
    match s
    case Plain(exprs) => ExprsReplay(acc, exprs);
    case Assign(targets, value) =>
      RunInOrder(acc, One(Eval(value)), Stores(targets), [], []);
      ReplayInOrder(acc, OfExpr(value), OfTargets(targets), [], []);
      ValueReplays(acc, value);
      TargetsReplay(Replay(acc, OfExpr(value)), targets);
    case AugAssign(target, value) => AugReplays(acc, target, value);
    case AnnAssign(target, annotated) =>
      RunInOrder(acc, OptEval(annotated), One(Store(target)), [], []);
      ReplayInOrder(acc, OfOption(annotated), OfTarget(target), [], []);
      OptionReplays(acc, annotated);
      StoredReplays(Replay(acc, OfOption(annotated)), target);
    case Branch(test, body, orelse) =>
      RunInOrder(acc, One(Eval(test)), Execs(body), Execs(orelse), []);
      ReplayInOrder(acc, OfExpr(test), OfBody(body), OfBody(orelse), []);
      ValueReplays(acc, test);
      BodyReplays(Replay(acc, OfExpr(test)), body);
      BodyReplays(Replay(Replay(acc, OfExpr(test)), OfBody(body)), orelse);
    case For(target, iter, body, orelse) =>
      RunInOrder(acc, One(Eval(iter)), One(Store(target)), Execs(body), Execs(orelse));
      ReplayInOrder(acc, OfExpr(iter), OfTarget(target), OfBody(body), OfBody(orelse));
      ValueReplays(acc, iter);
      var bound := Replay(Replay(acc, OfExpr(iter)), OfTarget(target));
      StoredReplays(Replay(acc, OfExpr(iter)), target);
      BodyReplays(bound, body);
      BodyReplays(Replay(bound, OfBody(body)), orelse);
    case FunctionDef(name, decorators, args, body) => DefReplays(acc, s);
    case ClassDef(name, decorators, bases, _) =>
      RunInOrder(acc, Evals(decorators), Evals(bases), [], []);
      ReplayInOrder(acc, OfExprs(decorators), OfExprs(bases), [], []);
      ExprsReplay(acc, decorators);
      ExprsReplay(Replay(acc, OfExprs(decorators)), bases);
      ThenReplays(acc, OfExprs(decorators) + OfExprs(bases), P.Binding(name));
    case Global(names) => GlobalsReplay(acc, names);
    case Nonlocal(names) => NonlocalsReplay(acc, names);
    case Try(body, handlers, orelse, finalbody) =>
      RunInOrder(acc, Execs(body), HandlerParts(handlers), Execs(orelse), Execs(finalbody));
      ReplayInOrder(acc, OfBody(body), OfHandlers(handlers), OfBody(orelse), OfBody(finalbody));
      BodyReplays(acc, body);
      var tried := Replay(acc, OfBody(body));
      HandlersReplay(tried, handlers);
      BodyReplays(Replay(tried, OfHandlers(handlers)), orelse);
      BodyReplays(Replay(Replay(tried, OfHandlers(handlers)), OfBody(orelse)), finalbody);
    case With(items, body) =>
      RunInOrder(acc, ItemParts(items), Execs(body), [], []);
      ReplayInOrder(acc, OfItems(items), OfBody(body), [], []);
      ItemsReplay(acc, items);
      BodyReplays(Replay(acc, OfItems(items)), body);
    case Match(subject, cases) =>
      RunInOrder(acc, One(Eval(subject)), CaseParts(cases), [], []);
      ReplayInOrder(acc, OfExpr(subject), OfCases(cases), [], []);
      ValueReplays(acc, subject);
      CasesReplay(Replay(acc, OfExpr(subject)), cases);
  }

  lemma ValueReplays(acc: Acc, e: Expr)
    ensures RunAll(acc, One(Eval(e))) == Replay(acc, OfExpr(e))
  {
    RunOne(acc, Eval(e));
    ExprReplays(acc, e);
  }

  lemma StoredReplays(acc: Acc, t: Expr)
    ensures RunAll(acc, One(Store(t))) == Replay(acc, OfTarget(t))
  {
    RunOne(acc, Store(t));
    TargetReplays(acc, t);
  }

  lemma AugReplays(acc: Acc, target: Expr, value: Expr)
    ensures RunAll(acc, StmtParts(AugAssign(target, value))) == Replay(acc, OfStmt(AugAssign(target, value)))
  {
    hide Tidy, Run, RunAll, Replay, Then, One, Nothing, OfExpr, OfTarget, Syntax.Mention;
    var again := if target.Ident? then [P.Mention(target.id)] else [];
    RunInOrder(acc, One(Eval(value)), Reread(target), One(Store(target)), []);
    ReplayInOrder(acc, OfExpr(value), again, OfTarget(target), []);
    ValueReplays(acc, value);
    var valued := Replay(acc, OfExpr(value));
    NoneReplays(valued);
    if target.Ident? {
      RunRead(valued, target.id);
      ReplayOne(valued, P.Mention(target.id));
    }
    StoredReplays(Replay(valued, again), target);
  }

  lemma DefReplays(acc: Acc, s: Stmt)
    requires s.FunctionDef?
    ensures AfterStmt(RunAll(acc, StmtParts(s)), s) == Replay(acc, OfStmt(s))
  {
    hide Tidy, Run, RunAll, Replay, Then, Evals, OfExprs, Bind, Nest, ScopeOf;
    var before := OfExprs(s.decorators) + OfExprs(s.args.defaults);
    RunInOrder(acc, Evals(s.decorators), Evals(s.args.defaults), [], []);
    ReplayInOrder(acc, OfExprs(s.decorators), OfExprs(s.args.defaults), [], []);
    ExprsReplay(acc, s.decorators);
    ExprsReplay(Replay(acc, OfExprs(s.decorators)), s.args.defaults);
    ThenReplays(acc, before, P.Binding(s.name));
    ThenReplays(acc, before + [P.Binding(s.name)], P.Opening(DefOf(s.args, s.body)));
    assert OfStmt(s) == before + [P.Binding(s.name)] + [P.Opening(DefOf(s.args, s.body))];
  }

  lemma {:induction false} OwnGensReplay(acc: Acc, gens: seq<Gen>)
    ensures RunAll(acc, InnerGenParts(gens)) == Replay(acc, OfOwnGens(gens))
  {
    hide Tidy, Run, RunAll, Replay, Then, One, Evals, OfTarget, OfExpr, OfExprs;
    NoneReplays(acc);
    if gens == [] {
    } else {
      var before, g := gens[..|gens| - 1], gens[|gens| - 1];
      var iter, first := if |gens| == 1 then [] else One(Eval(g.iter)), if |gens| == 1 then [] else OfExpr(g.iter);
      OwnGensReplay(acc, before);
      RunInOrder(acc, InnerGenParts(before), iter, One(Store(g.target)), Evals(g.ifs));
      ReplayInOrder(acc, OfOwnGens(before), first, OfTarget(g.target), OfExprs(g.ifs));
      var mid := Replay(acc, OfOwnGens(before));
      NoneReplays(mid);
      ValueReplays(mid, g.iter);
      StoredReplays(Replay(mid, first), g.target);
      ExprsReplay(Replay(Replay(mid, first), OfTarget(g.target)), g.ifs);
    }
  }

  lemma {:induction false} ParamsReplay(acc: Acc, names: seq<Name>)
    ensures RunAll(acc, Params(names)) == Replay(acc, OfNames(names, n => P.Binding(n)))
  {
    hide Tidy, Run, Replay, Then, One, Bind;
    NoneReplays(acc);
    if names == [] {
    } else {
      var before, n := names[..|names| - 1], names[|names| - 1];
      ParamsReplay(acc, before);
      RunInOrder(acc, Params(before), One(Store(Ident(n))), [], []);
      RunBind(RunAll(acc, Params(before)), n);
      assert OfNames(names, n => P.Binding(n)) == OfNames(before, n => P.Binding(n)) + [P.Binding(n)];
      ThenReplays(acc, OfNames(before, n => P.Binding(n)), P.Binding(n));
    }
  }

  /** The tree of a scope is its events replayed in order. */
  lemma ScopeReplays(sx: ScopeSyntax)
    ensures ScopeOf(sx) == Replay(NO_USES, OfScope(sx))
  {
    hide Run, RunAll, Replay, Then, One, Params, Execs, InnerGenParts, OfBody, OfExpr, OfOwnGens, OfNames;
    match sx
    case DefOf(args, stmts) =>
      var params := OfNames(args.names, n => P.Binding(n));
      ParamsReplay(NO_USES, args.names);
      BodyReplays(Replay(NO_USES, params), stmts);
      RunInOrder(NO_USES, Params(args.names), Execs(stmts), [], []);
      ReplayInOrder(NO_USES, params, OfBody(stmts), [], []);
    case LambdaOf(args, result) =>
      var params := OfNames(args.names, n => P.Binding(n));
      ParamsReplay(NO_USES, args.names);
      ValueReplays(Replay(NO_USES, params), result);
      RunInOrder(NO_USES, Params(args.names), One(Eval(result)), [], []);
      ReplayInOrder(NO_USES, params, OfExpr(result), [], []);
    case GenExpOf(gens, elt) =>
      OwnGensReplay(NO_USES, gens);
      ValueReplays(Replay(NO_USES, OfOwnGens(gens)), elt);
      RunInOrder(NO_USES, InnerGenParts(gens), One(Eval(elt)), [], []);
      ReplayInOrder(NO_USES, OfOwnGens(gens), OfExpr(elt), [], []);
  }

  // ---- what the order is good for ----

  /** The names used, in order. */
  function Used(events: seq<Event>): seq<Name> {
    if events == [] then []
    else
      var last := events[|events| - 1];
      Used(events[..|events| - 1]) + if last.Mention? || last.NonlocalDecl? then [last.n] else []
  }

  /** The scopes opened, in order. */
  function Opened(events: seq<Event>): seq<Scope> {
    if events == [] then []
    else
      var last := events[|events| - 1];
      Opened(events[..|events| - 1]) + if last.Opening? then [ScopeOf(last.inner)] else []
  }

  lemma {:induction false} ReplayKeepsOrder(acc: Acc, events: seq<Event>)
    ensures Replay(acc, events).mentions == acc.mentions + Used(events)
    ensures Replay(acc, events).children == acc.children + Opened(events)
  {
    hide Tidy, ScopeOf;
    if events == [] {
    } else {
      ReplayKeepsOrder(acc, events[..|events| - 1]);
    }
  }

  /** `a` occurs, and `b` not before it. */
  ghost predicate Earlier(s: seq<Name>, a: Name, b: Name) {
    exists p: nat :: p < |s| && s[p] == a && b !in s[..p + 1]
  }

  lemma {:induction false} DistinctInOrder(s: seq<Name>, i: nat, j: nat)
    requires i < j < |Distinct(s)|
    ensures Earlier(s, Distinct(s)[i], Distinct(s)[j])
  {
    var before := s[..|s| - 1];
    if j < |Distinct(before)| {
      DistinctInOrder(before, i, j);
      var p: nat :| p < |before| && before[p] == Distinct(before)[i] && Distinct(before)[j] !in before[..p + 1];
      assert s[..p + 1] == before[..p + 1];
    } else {
      assert Distinct(before)[i] in before;
      var p: nat :| p < |before| && before[p] == Distinct(before)[i];
      assert s[..p + 1] == before[..p + 1];
    }
  }

  lemma {:induction false} UnownedInOrder(sc: Scope, s: seq<Name>, i: nat, j: nat) returns (p: nat, q: nat)
    requires i < j < |Unowned(sc, s)|
    ensures p < q < |s| && s[p] == Unowned(sc, s)[i] && s[q] == Unowned(sc, s)[j]
  {
    var before := s[..|s| - 1];
    if j < |Unowned(sc, before)| {
      p, q := UnownedInOrder(sc, before, i, j);
    } else {
      assert Unowned(sc, before)[i] in before;
      p :| p < |before| && before[p] == Unowned(sc, before)[i];
      q := |s| - 1;
    }
  }

  /** Free names come in the order they are first met: the scope's own uses, then what its inner scopes leave free. */
  lemma FreeInOrder(sx: ScopeSyntax, i: nat, j: nat)
    requires i < j < |Facts(ScopeOf(sx)).free|
    ensures var free, events := Facts(ScopeOf(sx)).free, OfScope(sx);
      Earlier(Used(events) + ChildFree(Opened(events)), free[i], free[j])
  {
    hide OfScope, ScopeOf, ChildFree, Distinct, Unowned, Replay, Earlier;
    var sc := ScopeOf(sx);
    ScopeReplays(sx);
    ReplayKeepsOrder(NO_USES, OfScope(sx));
    assert sc.mentions == Used(OfScope(sx)) && sc.children == Opened(OfScope(sx));
    var met := sc.mentions + ChildFree(sc.children);
    var p, q := UnownedInOrder(sc, Distinct(met), i, j);
    DistinctInOrder(met, p, q);
  }
}
