/** The bottom-up walk that collects a scope's facts. */
module FreeVars {
  import opened Wrappers
  import opened Scopes
  import opened Syntax
  import Occurrence

  lemma DistinctLast(s: seq<Name>, n: Name)
    ensures Distinct(s + [n]) == if n in s then Distinct(s) else Distinct(s) + [n]
  {
    assert (s + [n])[..|s|] == s;
  }

  /** Distinct names collected twice over are the names collected once. */
  lemma {:induction false} DistinctAppend(a: seq<Name>, b: seq<Name>)
    ensures Distinct(Distinct(a) + b) == Distinct(a + b)
  {
    hide Distinct;
    if b == [] {
      assert Distinct(a) + b == Distinct(a) && a + b == a;
      DistinctTwice(a);
    } else {
      var c, last := b[..|b| - 1], b[|b| - 1];
      DistinctAppend(a, c);
      assert a + b == a + c + [last] && Distinct(a) + b == Distinct(a) + c + [last];
      DistinctLast(a + c, last);
      DistinctLast(Distinct(a) + c, last);
    }
  }

  lemma {:induction false} DistinctTwice(a: seq<Name>)
    ensures Distinct(Distinct(a)) == Distinct(a)
  {
    if a == [] {
    } else {
      hide Distinct;
      var before, last := a[..|a| - 1], a[|a| - 1];
      DistinctTwice(before);
      assert a == before + [last];
      DistinctLast(before, last);
      DistinctLast(Distinct(before), last);
    }
  }

  lemma Reassociate(a: seq<Name>, b: seq<Name>, n: Name)
    ensures a + (b + [n]) == a + b + [n]
    ensures n in a + b <==> n in a || n in b
  {
  }

  lemma BehindStep(a: seq<Name>, c: seq<Name>, n: Name)
    requires Distinct(a + Distinct(c)) == Distinct(a + c)
    ensures Distinct(a + Distinct(c + [n])) == Distinct(a + (c + [n]))
  {
    hide Distinct;
    DistinctLast(c, n);
    DistinctLast(a + c, n);
    Reassociate(a, c, n);
    if n !in c {
      Reassociate(a, Distinct(c), n);
      DistinctLast(a + Distinct(c), n);
    }
  }

  lemma {:induction false} DistinctBehind(a: seq<Name>, b: seq<Name>)
    ensures Distinct(a + Distinct(b)) == Distinct(a + b)
  {
    if b == [] {
      assert Distinct(b) == b;
    } else {
      hide Distinct;
      var c, last := b[..|b| - 1], b[|b| - 1];
      assert b == c + [last];
      DistinctBehind(a, c);
      BehindStep(a, c, last);
    }
  }

  ghost predicate SameNames(seen: set<Name>, names: seq<Name>) {
    forall n :: n in seen <==> n in names
  }

  lemma SameNamesIn(seen: set<Name>, names: seq<Name>, n: Name)
    requires SameNames(seen, names)
    ensures n in seen <==> n in names
    ensures SameNames(seen + {n}, names + [n])
  {
  }

  lemma UnownedLast(sc: Scope, s: seq<Name>, n: Name)
    ensures Unowned(sc, s + [n]) == Unowned(sc, s) + if n !in Owned(sc) && n !in sc.globals then [n] else []
  {
    assert (s + [n])[..|s|] == s;
  }

  /** One more use adds a free name exactly if it is new here, not owned and not declared global. */
  lemma FreeStep(sc: Scope, before: seq<Name>, n: Name)
    ensures var free := Unowned(sc, Distinct(before));
      Unowned(sc, Distinct(before + [n])) ==
      if n !in Owned(sc) && n !in sc.globals && n !in free then free + [n] else free
  {
    hide Distinct, Unowned;
    DistinctLast(before, n);
    UnownedLast(sc, Distinct(before), n);
    assert Unowned(sc, Distinct(before)) + [] == Unowned(sc, Distinct(before));
  }

  class Walker {
    var rawBound: set<Name>
    var mentions: seq<Name>
    var mentionsSeen: set<Name>
    var childFree: seq<Name>
    var childFreeSeen: set<Name>
    var globals: set<Name>
    var nonlocals: set<Name>
    var sharedWrites: set<Name>
    var childGlobalDecls: set<Name>

    /** Everything walked so far. */
    ghost var walked: Acc

    ghost predicate Valid()
      reads this
    {
      rawBound == walked.binds && globals == walked.globals && nonlocals == walked.nonlocals &&
      mentions == Distinct(walked.mentions) && SameNames(mentionsSeen, mentions) &&
      childFree == Distinct(ChildFree(walked.children)) && SameNames(childFreeSeen, childFree) &&
      sharedWrites == ChildShared(walked.children) && childGlobalDecls == ChildGlobals(walked.children)
    }

    constructor ()
      ensures Valid() && walked == NO_USES
    {
      rawBound, mentions, mentionsSeen, childFree, childFreeSeen := {}, [], {}, [], {};
      globals, nonlocals, sharedWrites, childGlobalDecls := {}, {}, {}, {};
      walked := NO_USES;
    }

    method Read(n: Name)
      requires Valid()
      modifies this
      ensures Valid() && walked == Mention(old(walked), n)
    {
      hide Distinct, ChildFree, ChildShared, ChildGlobals, Tidy;
      DistinctLast(walked.mentions, n);
      walked := Mention(walked, n);
      if n !in mentionsSeen {
        mentionsSeen := mentionsSeen + {n};
        mentions := mentions + [n];
      }
    }

    method BindName(n: Name)
      requires Valid()
      modifies this
      ensures Valid() && walked == Bind(old(walked), n)
    {
      rawBound := rawBound + {n};
      walked := Bind(walked, n);
    }

    method Bubble(free: seq<Name>, ghost before: seq<Name>)
      requires childFree == Distinct(before) && SameNames(childFreeSeen, childFree)
      modifies `childFree, `childFreeSeen
      ensures childFree == Distinct(before + free) && SameNames(childFreeSeen, childFree)
    {
      hide Distinct, SameNames;
      assert before + free[..0] == before;
      for i := 0 to |free|
        invariant childFree == Distinct(before + free[..i]) && SameNames(childFreeSeen, childFree)
      {
        var n := free[i];
        assert before + free[..i + 1] == before + free[..i] + [n];
        DistinctLast(before + free[..i], n);
        SameNamesIn(childFreeSeen, childFree, n);
        if n !in childFreeSeen {
          childFreeSeen := childFreeSeen + {n};
          childFree := childFree + [n];
        }
      }
      assert free[..|free|] == free;
    }

    /** Merge a nested scope's facts: free names bubble up, and so do nonlocal writes and global declarations. */
    method Child(facts: ScopeFacts, ghost child: Acc)
      requires Valid() && facts == Facts(child)
      modifies this
      ensures Valid() && walked == Nest(old(walked), child)
    {
      hide Distinct, ChildFree, ChildShared, ChildGlobals, Tidy, SameNames, Free;
      Bubble(facts.free, ChildFree(walked.children));
      sharedWrites := sharedWrites + facts.nonlocals + facts.sharedWrites;
      childGlobalDecls := childGlobalDecls + facts.globalDecls;
      OneMoreChild(walked.children, child);
      walked := Nest(walked, child);
    }

    /** The names this scope neither owns nor declares global, at their first use. */
    method FreeNames(all: seq<Name>, bound: set<Name>) returns (free: seq<Name>)
      requires bound == Owned(walked) && globals == walked.globals
      ensures free == Unowned(walked, Distinct(all))
    {
      hide Distinct, Unowned, SameNames, Owned;
      free := [];
      var seen: set<Name> := {};
      NothingYet(walked);
      assert all[..0] == [];
      for i := 0 to |all|
        invariant free == Unowned(walked, Distinct(all[..i])) && SameNames(seen, free)
      {
        var n := all[i];
        assert all[..i + 1] == all[..i] + [n];
        FreeStep(walked, all[..i], n);
        SameNamesIn(seen, free, n);
        if n !in bound && n !in globals && n !in seen {
          seen := seen + {n};
          free := free + [n];
        }
      }
      assert all[..|all|] == all;
    }

    /** The facts of the scope just walked. */
    method Finish() returns (facts: ScopeFacts)
      requires Valid()
      ensures facts == Facts(walked)
    {
      hide Distinct, ChildFree, ChildShared, ChildGlobals, Tidy, Unowned, SameNames;
      var bound := rawBound - globals - nonlocals;
      var free := FreeNames(mentions + childFree, bound);
      DistinctAppend(walked.mentions, childFree);
      DistinctBehind(walked.mentions, ChildFree(walked.children));
      assert free == Free(walked);
      var celled := set n | n in childFree && n in bound;
      assert celled == set n | n in ChildFree(walked.children) && n in Owned(walked);
      facts := ScopeFacts(bound, free, celled, globals, nonlocals, sharedWrites, globals + childGlobalDecls);
    }

    // ---- the walk ----

    method WalkExpr(e: Expr)
      requires Valid()
      modifies this
      ensures Valid() && walked == Run(old(walked), Eval(e)) == RunAll(old(walked), One(Eval(e)))
      decreases e, 0, 1
    {
      hide Valid, Tidy, Distinct, Facts, RunAll, Evals, GenParts, Inside, ScopeSize, Size;
      RunOne(walked, Eval(e));
      match e
      case Ident(n) =>
        RunNone(walked);
        Read(n);
      case Compound(subs) =>
        WalkExprs(subs);
      case Pattern(elts) =>
        WalkExprs(elts);
      case ListComp(gens, elts) =>
        RunInOrder(walked, GenParts(gens), Evals(elts), [], []);
        WalkGens(gens);
        WalkExprs(elts);
      case GenExp(gens, elt) =>
        RunNone(walked);
        if gens != [] {
          WalkExpr(gens[0].iter);
        }
        var facts := AnalyzeGenExp(gens, elt);
        Child(facts, ScopeOf(GenExpOf(gens, elt)));
      case Lambda(args, body) =>
        WalkExprs(args.defaults);
        var facts := AnalyzeLambda(args, body);
        Child(facts, ScopeOf(LambdaOf(args, body)));
      case NamedExpr(name, value) =>
        WalkExpr(value);
        BindName(name);
    }

    method WalkExprs(es: seq<Expr>)
      requires Valid()
      modifies this
      ensures Valid() && walked == RunAll(old(walked), Evals(es))
      decreases es
    {
      hide Valid, Tidy, Distinct, Run, Parts, Total, RunAll;
      RunNone(walked);
      for i := 0 to |es|
        invariant Valid() && walked == RunAll(old(walked), Evals(es[..i]))
      {
        assert es[..i + 1][..i] == es[..i];
        RunInOrder(old(walked), Evals(es[..i]), One(Eval(es[i])), [], []);
        WalkExpr(es[i]);
      }
      assert es[..|es|] == es;
    }

    method WalkTarget(t: Expr)
      requires Valid()
      modifies this
      ensures Valid() && walked == Run(old(walked), Store(t)) == RunAll(old(walked), One(Store(t)))
      decreases t, 1
    {
      hide Valid, Tidy, Distinct, RunAll, Stores, Total, Size;
      RunOne(walked, Store(t));
      match t
      case Ident(n) =>
        RunNone(walked);
        BindName(n);
      case Pattern(elts) =>
        WalkTargets(elts);
      case _ =>
        WalkExpr(t);
    }

    method WalkTargets(ts: seq<Expr>)
      requires Valid()
      modifies this
      ensures Valid() && walked == RunAll(old(walked), Stores(ts))
      decreases ts
    {
      hide Valid, Tidy, Distinct, Run, Parts, Total, RunAll;
      RunNone(walked);
      for i := 0 to |ts|
        invariant Valid() && walked == RunAll(old(walked), Stores(ts[..i]))
      {
        assert ts[..i + 1][..i] == ts[..i];
        RunInOrder(old(walked), Stores(ts[..i]), One(Store(ts[i])), [], []);
        WalkTarget(ts[i]);
      }
      assert ts[..|ts|] == ts;
    }

    method WalkGens(gens: seq<Gen>)
      requires Valid()
      modifies this
      ensures Valid() && walked == RunAll(old(walked), GenParts(gens))
      decreases gens
    {
      hide Valid, Tidy, Distinct, Run, Parts, Total, RunAll, Evals;
      RunNone(walked);
      for i := 0 to |gens|
        invariant Valid() && walked == RunAll(old(walked), GenParts(gens[..i]))
      {
        assert gens[..i + 1][..i] == gens[..i];
        var g := gens[i];
        RunInOrder(old(walked), GenParts(gens[..i]), One(Eval(g.iter)), One(Store(g.target)), Evals(g.ifs));
        WalkExpr(g.iter);
        WalkTarget(g.target);
        WalkExprs(g.ifs);
      }
      assert gens[..|gens|] == gens;
    }

    method WalkGenExp(gens: seq<Gen>)
      requires Valid()
      modifies this
      ensures Valid() && walked == RunAll(old(walked), InnerGenParts(gens))
      decreases gens
    {
      hide Valid, Tidy, Distinct, Run, Parts, Total, RunAll, Evals;
      RunNone(walked);
      for i := 0 to |gens|
        invariant Valid() && walked == RunAll(old(walked), InnerGenParts(gens[..i]))
      {
        assert gens[..i + 1][..i] == gens[..i];
        var g := gens[i];
        ghost var iter := if i == 0 then [] else One(Eval(g.iter));
        RunInOrder(old(walked), InnerGenParts(gens[..i]), iter, One(Store(g.target)), Evals(g.ifs));
        RunNone(walked);
        if i > 0 {
          WalkExpr(g.iter);
        }
        WalkTarget(g.target);
        WalkExprs(g.ifs);
      }
      assert gens[..|gens|] == gens;
    }

    method BindParams(names: seq<Name>)
      requires Valid()
      modifies this
      ensures Valid() && walked == RunAll(old(walked), Params(names))
    {
      hide Valid, Tidy, Distinct, Total, RunAll;
      RunNone(walked);
      for i := 0 to |names|
        invariant Valid() && walked == RunAll(old(walked), Params(names[..i]))
      {
        assert names[..i + 1][..i] == names[..i];
        RunInOrder(old(walked), Params(names[..i]), One(Store(Ident(names[i]))), [], []);
        RunBind(walked, names[i]);
        BindName(names[i]);
      }
      assert names[..|names|] == names;
    }

    method WalkGlobal(names: seq<Name>)
      requires Valid()
      modifies this
      ensures Valid() && walked == DeclareGlobals(old(walked), names)
    {
      globals := globals + set n | n in names;
      walked := DeclareGlobals(walked, names);
    }

    method WalkNonlocal(names: seq<Name>)
      requires Valid()
      modifies this
      ensures Valid() && walked == DeclareNonlocals(old(walked), names)
    {
      hide Distinct, ChildFree, ChildShared, ChildGlobals, Tidy, SameNames;
      for i := 0 to |names|
        invariant Valid() && walked == DeclareNonlocals(old(walked), names[..i])
      {
        assert names[..i + 1][..i] == names[..i];
        ghost var before := walked;
        Read(names[i]);
        nonlocals := nonlocals + {names[i]};
        walked := DeclareNonlocal(before, names[i]);
      }
      assert names[..|names|] == names;
    }

    /** What a nested `def` adds to this scope. */
    method WalkDef(args: Args, body: seq<Stmt>)
      requires Valid()
      modifies this
      ensures Valid() && walked == Nest(old(walked), ScopeOf(DefOf(args, body)))
      decreases body, 2
    {
      hide Valid, Tidy, Facts, ScopeOf, Occurrence.Describes;
      var facts := AnalyzeDef(args, body);
      Child(facts, ScopeOf(DefOf(args, body)));
    }

    /** `x += v` reads `x` as well. */
    method ReadAgain(target: Expr)
      requires Valid()
      modifies this
      ensures Valid() && walked == RunAll(old(walked), Reread(target))
    {
      hide Valid, Tidy, RunAll;
      RunNone(walked);
      if target.Ident? {
        RunRead(walked, target.id);
        Read(target.id);
      }
    }

    method WalkStmt(s: Stmt)
      requires Valid()
      modifies this
      ensures Valid() && walked == Run(old(walked), Exec(s)) == RunAll(old(walked), One(Exec(s)))
      decreases s
    {
      hide Valid, Tidy, Distinct, Facts, RunAll, Evals, Stores, Execs, OptEval, HandlerParts, ItemParts, CaseParts;
      hide Run, Parts, Opens, Does, Inside, ScopeSize, Size, Total, Then, One, Bind, Nest, DeclareGlobals, ScopeOf;
      RunOne(walked, Exec(s));
      RunStmt(walked, s);
      match s
      case Plain(exprs) =>
        WalkExprs(exprs);
      case Assign(targets, value) =>
        RunInOrder(walked, One(Eval(value)), Stores(targets), [], []);
        WalkExpr(value);
        WalkTargets(targets);
      case AugAssign(target, value) =>
        RunInOrder(walked, One(Eval(value)), Reread(target), One(Store(target)), []);
        WalkExpr(value);
        ReadAgain(target);
        WalkTarget(target);
      case AnnAssign(target, annotated) =>
        RunInOrder(walked, OptEval(annotated), One(Store(target)), [], []);
        WalkOptional(annotated);
        WalkTarget(target);
      case Branch(test, body, orelse) =>
        RunInOrder(walked, One(Eval(test)), Execs(body), Execs(orelse), []);
        WalkExpr(test);
        WalkStmts(body);
        WalkStmts(orelse);
      case For(target, iter, body, orelse) =>
        RunInOrder(walked, One(Eval(iter)), One(Store(target)), Execs(body), Execs(orelse));
        WalkExpr(iter);
        WalkTarget(target);
        WalkStmts(body);
        WalkStmts(orelse);
      case FunctionDef(name, decorators, args, body) =>
        RunInOrder(walked, Evals(decorators), Evals(args.defaults), [], []);
        WalkExprs(decorators);
        WalkExprs(args.defaults);
        BindName(name);
        WalkDef(args, body);
      case ClassDef(name, decorators, bases, _) =>
        RunInOrder(walked, Evals(decorators), Evals(bases), [], []);
        WalkExprs(decorators);
        WalkExprs(bases);
        BindName(name);
      case Global(names) =>
        RunNone(walked);
        WalkGlobal(names);
      case Nonlocal(names) =>
        RunNone(walked);
        WalkNonlocal(names);
      case Try(body, handlers, orelse, finalbody) =>
        RunInOrder(walked, Execs(body), HandlerParts(handlers), Execs(orelse), Execs(finalbody));
        WalkStmts(body);
        WalkHandlers(handlers);
        WalkStmts(orelse);
        WalkStmts(finalbody);
      case With(items, body) =>
        RunInOrder(walked, ItemParts(items), Execs(body), [], []);
        WalkItems(items);
        WalkStmts(body);
      case Match(subject, cases) =>
        RunInOrder(walked, One(Eval(subject)), CaseParts(cases), [], []);
        WalkExpr(subject);
        WalkCases(cases);
    }

    method WalkOptional(e: Option<Expr>)
      requires Valid()
      modifies this
      ensures Valid() && walked == RunAll(old(walked), OptEval(e))
      decreases e
    {
      hide Valid, Tidy, Run, RunAll;
      RunNone(walked);
      if e.Some? {
        WalkExpr(e.value);
      }
    }

    method BindOptional(n: Option<Name>)
      requires Valid()
      modifies this
      ensures Valid() && walked == RunAll(old(walked), OptBind(n))
    {
      hide Valid, Tidy, RunAll;
      RunNone(walked);
      if n.Some? {
        RunBind(walked, n.value);
        BindName(n.value);
      }
    }

    method WalkPattern(p: CasePattern)
      requires Valid()
      modifies this
      ensures Valid() && walked == RunAll(old(walked), PatternParts(p))
      decreases p
    {
      hide Valid, Tidy, Distinct, Run, Parts, Total, RunAll, Evals, PatternsParts;
      RunInOrder(walked, Evals(p.values), PatternsParts(p.subs), OptBind(p.captured), []);
      WalkExprs(p.values);
      WalkPatterns(p.subs);
      BindOptional(p.captured);
    }

    method WalkPatterns(ps: seq<CasePattern>)
      requires Valid()
      modifies this
      ensures Valid() && walked == RunAll(old(walked), PatternsParts(ps))
      decreases ps
    {
      hide Valid, Tidy, Distinct, Run, Parts, Total, RunAll, PatternParts;
      RunNone(walked);
      for i := 0 to |ps|
        invariant Valid() && walked == RunAll(old(walked), PatternsParts(ps[..i]))
      {
        assert ps[..i + 1][..i] == ps[..i];
        RunInOrder(old(walked), PatternsParts(ps[..i]), PatternParts(ps[i]), [], []);
        WalkPattern(ps[i]);
      }
      assert ps[..|ps|] == ps;
    }

    method WalkCases(cases: seq<MatchCase>)
      requires Valid()
      modifies this
      ensures Valid() && walked == RunAll(old(walked), CaseParts(cases))
      decreases cases
    {
      hide Valid, Tidy, Distinct, Run, Parts, Total, RunAll, PatternParts, OptEval, Execs;
      RunNone(walked);
      for i := 0 to |cases|
        invariant Valid() && walked == RunAll(old(walked), CaseParts(cases[..i]))
      {
        assert cases[..i + 1][..i] == cases[..i];
        var c := cases[i];
        RunInOrder(old(walked), CaseParts(cases[..i]), PatternParts(c.pattern), OptEval(c.guard), Execs(c.body));
        WalkPattern(c.pattern);
        WalkOptional(c.guard);
        WalkStmts(c.body);
      }
      assert cases[..|cases|] == cases;
    }

    method WalkStmts(body: seq<Stmt>)
      requires Valid()
      modifies this
      ensures Valid() && walked == RunAll(old(walked), Execs(body))
      decreases body, 0
    {
      hide Valid, Tidy, Distinct, Run, Parts, Total, RunAll;
      RunNone(walked);
      for i := 0 to |body|
        invariant Valid() && walked == RunAll(old(walked), Execs(body[..i]))
      {
        assert body[..i + 1][..i] == body[..i];
        RunInOrder(old(walked), Execs(body[..i]), One(Exec(body[i])), [], []);
        WalkStmt(body[i]);
      }
      assert body[..|body|] == body;
    }

    method WalkHandlers(handlers: seq<Handler>)
      requires Valid()
      modifies this
      ensures Valid() && walked == RunAll(old(walked), HandlerParts(handlers))
      decreases handlers
    {
      hide Valid, Tidy, Distinct, Run, Parts, Total, RunAll, OptEval, OptBind, Execs;
      RunNone(walked);
      for i := 0 to |handlers|
        invariant Valid() && walked == RunAll(old(walked), HandlerParts(handlers[..i]))
      {
        assert handlers[..i + 1][..i] == handlers[..i];
        var h := handlers[i];
        RunInOrder(old(walked), HandlerParts(handlers[..i]), OptEval(h.kind), OptBind(h.name), Execs(h.body));
        WalkOptional(h.kind);
        BindOptional(h.name);
        WalkStmts(h.body);
      }
      assert handlers[..|handlers|] == handlers;
    }

    method WalkItems(items: seq<WithItem>)
      requires Valid()
      modifies this
      ensures Valid() && walked == RunAll(old(walked), ItemParts(items))
      decreases items
    {
      hide Valid, Tidy, Distinct, Run, Parts, Total, RunAll;
      RunNone(walked);
      for i := 0 to |items|
        invariant Valid() && walked == RunAll(old(walked), ItemParts(items[..i]))
      {
        assert items[..i + 1][..i] == items[..i];
        var item := items[i];
        RunInOrder(old(walked), ItemParts(items[..i]), One(Eval(item.context)), OptStore(item.target), []);
        WalkExpr(item.context);
        RunNone(walked);
        if item.target.Some? {
          WalkTarget(item.target.value);
        }
      }
      assert items[..|items|] == items;
    }
  }

  lemma NothingYet(sc: Scope)
    ensures Unowned(sc, Distinct([])) == [] && SameNames({}, [])
  {
  }

  lemma OneMoreChild(children: seq<Scope>, child: Scope)
    ensures ChildFree(children + [child]) == ChildFree(children) + Free(child)
    ensures ChildShared(children + [child]) == ChildShared(children) + child.nonlocals + ChildShared(child.children)
    ensures ChildGlobals(children + [child]) == ChildGlobals(children) + child.globals + ChildGlobals(child.children)
  {
    assert (children + [child])[..|children|] == children;
  }

  // ---- the scopes ----

  /** The facts of a `def`, bottom-up over everything nested in it. */
  method AnalyzeDef(args: Args, body: seq<Stmt>) returns (facts: ScopeFacts)
    ensures facts == Facts(ScopeOf(DefOf(args, body)))
    ensures Occurrence.Describes(facts, DefOf(args, body))
    decreases body, 1
  {
    hide Occurrence.Describes, RunAll, Run, Facts;
    RunInOrder(NO_USES, Params(args.names), Execs(body), [], []);
    Occurrence.FactsDescribe(DefOf(args, body));
    var w := new Walker();
    w.BindParams(args.names);
    w.WalkStmts(body);
    facts := w.Finish();
  }

  method AnalyzeLambda(args: Args, body: Expr) returns (facts: ScopeFacts)
    ensures facts == Facts(ScopeOf(LambdaOf(args, body)))
    ensures Occurrence.Describes(facts, LambdaOf(args, body))
    decreases body, 1
  {
    hide Occurrence.Describes, RunAll, Run, Facts;
    RunInOrder(NO_USES, Params(args.names), One(Eval(body)), [], []);
    Occurrence.FactsDescribe(LambdaOf(args, body));
    var w := new Walker();
    w.BindParams(args.names);
    w.WalkExpr(body);
    facts := w.Finish();
  }

  /** The outermost iterable is evaluated outside, before the scope exists. */
  method AnalyzeGenExp(gens: seq<Gen>, elt: Expr) returns (facts: ScopeFacts)
    ensures facts == Facts(ScopeOf(GenExpOf(gens, elt)))
    ensures Occurrence.Describes(facts, GenExpOf(gens, elt))
    decreases GenExp(gens, elt), 0, 0
  {
    hide Occurrence.Describes, RunAll, Run, Facts;
    RunInOrder(NO_USES, InnerGenParts(gens), One(Eval(elt)), [], []);
    Occurrence.FactsDescribe(GenExpOf(gens, elt));
    var w := new Walker();
    w.WalkGenExp(gens);
    w.WalkExpr(elt);
    facts := w.Finish();
  }
}
