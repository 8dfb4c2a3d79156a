/**
 The part of the syntax that mentions names, and the scope tree of a program: what
 each scope's own code does, in evaluation order, and which scopes it opens.
 */
module Syntax {
  import opened Wrappers
  import opened Scopes

  datatype Expr =
    | Ident(id: Name)
    | Compound(subs: seq<Expr>) // operators, calls, subscripts, attributes, displays: evaluated part by part
    | Pattern(elts: seq<Expr>) // tuples, lists and starred items, which as targets bind their elements
    | ListComp(gens: seq<Gen>, elts: seq<Expr>)
    | GenExp(gens: seq<Gen>, elt: Expr)
    | Lambda(args: Args, body: Expr)
    | NamedExpr(name: Name, value: Expr)

  datatype Gen = Gen(target: Expr, iter: Expr, ifs: seq<Expr>)

  datatype Args = Args(names: seq<Name>, defaults: seq<Expr>)

  datatype Handler = Handler(kind: Option<Expr>, name: Option<Name>, body: seq<Stmt>)

  datatype WithItem = WithItem(context: Expr, target: Option<Expr>)

  /** Any `match` pattern: what it evaluates, its parts, and the name it captures, in that order. */
  datatype CasePattern = CasePattern(values: seq<Expr>, subs: seq<CasePattern>, captured: Option<Name>)

  datatype MatchCase = MatchCase(pattern: CasePattern, guard: Option<Expr>, body: seq<Stmt>)

  datatype Stmt =
    | Plain(exprs: seq<Expr>) // expression statements, assert, return, raise: expressions in order
    | Assign(targets: seq<Expr>, value: Expr)
    | AugAssign(target: Expr, value: Expr)
    | AnnAssign(target: Expr, annotated: Option<Expr>)
    | Branch(test: Expr, body: seq<Stmt>, orelse: seq<Stmt>) // if and while
    | For(target: Expr, iter: Expr, body: seq<Stmt>, orelse: seq<Stmt>)
    | FunctionDef(name: Name, decorators: seq<Expr>, args: Args, body: seq<Stmt>)
    | ClassDef(name: Name, decorators: seq<Expr>, bases: seq<Expr>, body: seq<Stmt>)
    | Global(names: seq<Name>)
    | Nonlocal(names: seq<Name>)
    | Try(body: seq<Stmt>, handlers: seq<Handler>, orelse: seq<Stmt>, finalbody: seq<Stmt>)
    | With(items: seq<WithItem>, body: seq<Stmt>)
    | Match(subject: Expr, cases: seq<MatchCase>)

  /** One thing a scope's code does: evaluate an expression, assign to one, execute a statement. */
  datatype Node = Eval(e: Expr) | Store(t: Expr) | Exec(s: Stmt)

  /** The constructs that open a function-like scope. */
  datatype ScopeSyntax =
    | DefOf(args: Args, stmts: seq<Stmt>)
    | LambdaOf(args: Args, result: Expr)
    | GenExpOf(gens: seq<Gen>, elt: Expr)

  // ---- sizes, for recursion through the syntax ----

  function ExprSize(e: Expr): nat {
    match e
    case Ident(_) => 2
    case Compound(subs) => 2 + ExprsSize(subs)
    case Pattern(elts) => 2 + ExprsSize(elts)
    case ListComp(gens, elts) => 2 + GensSize(gens) + ExprsSize(elts)
    case GenExp(gens, elt) => 2 + GensSize(gens) + ExprSize(elt)
    case Lambda(args, body) => 2 + 3 * |args.names| + ExprsSize(args.defaults) + ExprSize(body)
    case NamedExpr(_, value) => 2 + ExprSize(value)
  }

  function ExprsSize(es: seq<Expr>): nat {
    if es == [] then 0 else ExprsSize(es[..|es| - 1]) + 1 + ExprSize(es[|es| - 1])
  }

  function GensSize(gens: seq<Gen>): nat {
    if gens == [] then 0
    else
      var g := gens[|gens| - 1];
      GensSize(gens[..|gens| - 1]) + 2 + ExprSize(g.target) + ExprSize(g.iter) + ExprsSize(g.ifs)
  }

  function OptSize(e: Option<Expr>): nat {
    match e case None => 0 case Some(x) => 1 + ExprSize(x)
  }

  function StmtSize(s: Stmt): nat {
    match s
    case Plain(exprs) => 1 + ExprsSize(exprs)
    case Assign(targets, value) => 1 + ExprsSize(targets) + ExprSize(value)
    case AugAssign(target, value) => 4 + ExprSize(target) + ExprSize(value)
    case AnnAssign(target, annotated) => 2 + ExprSize(target) + OptSize(annotated)
    case Branch(test, body, orelse) => 1 + ExprSize(test) + StmtsSize(body) + StmtsSize(orelse)
    case For(target, iter, body, orelse) =>
      2 + ExprSize(target) + ExprSize(iter) + StmtsSize(body) + StmtsSize(orelse)
    case FunctionDef(_, decorators, args, body) =>
      1 + ExprsSize(decorators) + 3 * |args.names| + ExprsSize(args.defaults) + StmtsSize(body)
    case ClassDef(_, decorators, bases, _) => 1 + ExprsSize(decorators) + ExprsSize(bases)
    case Global(_) => 1
    case Nonlocal(_) => 1
    case Try(body, handlers, orelse, finalbody) =>
      1 + StmtsSize(body) + HandlersSize(handlers) + StmtsSize(orelse) + StmtsSize(finalbody)
    case With(items, body) => 1 + ItemsSize(items) + StmtsSize(body)
    case Match(subject, cases) => 1 + ExprSize(subject) + CasesSize(cases)
  }

  function StmtsSize(body: seq<Stmt>): nat {
    if body == [] then 0 else StmtsSize(body[..|body| - 1]) + StmtSize(body[|body| - 1])
  }

  function HandlersSize(handlers: seq<Handler>): nat {
    if handlers == [] then 0
    else
      var h := handlers[|handlers| - 1];
      HandlersSize(handlers[..|handlers| - 1]) + OptSize(h.kind) + 3 + StmtsSize(h.body)
  }

  function ItemsSize(items: seq<WithItem>): nat {
    if items == [] then 0
    else
      var i := items[|items| - 1];
      ItemsSize(items[..|items| - 1]) + ExprSize(i.context) + OptSize(i.target)
  }

  function PatternSize(p: CasePattern): nat {
    ExprsSize(p.values) + PatternsSize(p.subs) + 3
  }

  function PatternsSize(ps: seq<CasePattern>): nat {
    if ps == [] then 0 else PatternsSize(ps[..|ps| - 1]) + PatternSize(ps[|ps| - 1])
  }

  function CasesSize(cases: seq<MatchCase>): nat {
    if cases == [] then 0
    else
      var c := cases[|cases| - 1];
      CasesSize(cases[..|cases| - 1]) + PatternSize(c.pattern) + OptSize(c.guard) + StmtsSize(c.body)
  }

  function Size(node: Node): nat {
    match node
    case Eval(e) => ExprSize(e)
    case Store(t) => 1 + ExprSize(t)
    case Exec(s) => StmtSize(s)
  }

  function Total(nodes: seq<Node>): nat {
    if nodes == [] then 0 else Total(nodes[..|nodes| - 1]) + Size(nodes[|nodes| - 1])
  }

  lemma {:induction false} TotalAppend(a: seq<Node>, b: seq<Node>)
    ensures Total(a + b) == Total(a) + Total(b)
  {
    if b == [] {
      assert a + b == a;
    } else {
      TotalAppend(a, b[..|b| - 1]);
      assert (a + b)[..|a + b| - 1] == a + b[..|b| - 1];
    }
  }

  lemma {:induction false} MemberSize(nodes: seq<Node>, c: Node)
    requires c in nodes
    ensures Size(c) <= Total(nodes)
  {
    if c == nodes[|nodes| - 1] {
    } else {
      assert c in nodes[..|nodes| - 1];
      MemberSize(nodes[..|nodes| - 1], c);
    }
  }

  /** Two lists in a row, keeping track of their size. */
  function Then(a: seq<Node>, b: seq<Node>): (r: seq<Node>)
    ensures r == a + b && Total(r) == Total(a) + Total(b)
  {
    TotalAppend(a, b);
    a + b
  }

  function Nothing(): (r: seq<Node>)
    ensures r == [] && Total(r) == 0
  {
    []
  }

  function One(node: Node): (r: seq<Node>)
    ensures r == [node] && Total(r) == Size(node)
  {
    assert [node][..0] == [];
    [node]
  }

  // ---- what runs in the same scope, in order ----

  function Evals(es: seq<Expr>): (r: seq<Node>)
    ensures Total(r) <= ExprsSize(es) && |r| == |es|
    ensures forall i :: 0 <= i < |es| ==> r[i] == Eval(es[i])
  {
    if es == [] then [] else Then(Evals(es[..|es| - 1]), One(Eval(es[|es| - 1])))
  }

  function Stores(ts: seq<Expr>): (r: seq<Node>)
    ensures Total(r) <= ExprsSize(ts) && |r| == |ts|
    ensures forall i :: 0 <= i < |ts| ==> r[i] == Store(ts[i])
  {
    if ts == [] then [] else Then(Stores(ts[..|ts| - 1]), One(Store(ts[|ts| - 1])))
  }

  function Params(names: seq<Name>): (r: seq<Node>)
    ensures Total(r) <= 3 * |names| && |r| == |names|
    ensures forall i :: 0 <= i < |names| ==> r[i] == Store(Ident(names[i]))
  {
    if names == [] then [] else Then(Params(names[..|names| - 1]), One(Store(Ident(names[|names| - 1]))))
  }

  function Execs(body: seq<Stmt>): (r: seq<Node>)
    ensures Total(r) <= StmtsSize(body) && |r| == |body|
    ensures forall i :: 0 <= i < |body| ==> r[i] == Exec(body[i])
  {
    if body == [] then [] else Then(Execs(body[..|body| - 1]), One(Exec(body[|body| - 1])))
  }

  function OptEval(e: Option<Expr>): (r: seq<Node>)
    ensures Total(r) <= OptSize(e)
  {
    if e.Some? then One(Eval(e.value)) else []
  }

  function OptStore(t: Option<Expr>): (r: seq<Node>)
    ensures Total(r) <= OptSize(t)
  {
    if t.Some? then One(Store(t.value)) else []
  }

  function OptBind(n: Option<Name>): (r: seq<Node>)
    ensures Total(r) <= 3
  {
    if n.Some? then One(Store(Ident(n.value))) else []
  }

  /** Comprehension clauses run in the enclosing scope. */
  function GenParts(gens: seq<Gen>): (r: seq<Node>)
    ensures Total(r) <= GensSize(gens)
  {
    if gens == [] then []
    else
      var g := gens[|gens| - 1];
      Then(Then(Then(GenParts(gens[..|gens| - 1]), One(Eval(g.iter))), One(Store(g.target))), Evals(g.ifs))
  }

  /** A generator expression's clauses run in its own scope, all but the outermost iterable. */
  function InnerGenParts(gens: seq<Gen>): (r: seq<Node>)
    ensures Total(r) <= GensSize(gens)
  {
    if gens == [] then []
    else
      var g := gens[|gens| - 1];
      var before := Then(InnerGenParts(gens[..|gens| - 1]), if |gens| == 1 then [] else One(Eval(g.iter)));
      Then(Then(before, One(Store(g.target))), Evals(g.ifs))
  }

  function HandlerParts(handlers: seq<Handler>): (r: seq<Node>)
    ensures Total(r) <= HandlersSize(handlers)
  {
    if handlers == [] then []
    else
      var h := handlers[|handlers| - 1];
      Then(Then(Then(HandlerParts(handlers[..|handlers| - 1]), OptEval(h.kind)), OptBind(h.name)), Execs(h.body))
  }

  function ItemParts(items: seq<WithItem>): (r: seq<Node>)
    ensures Total(r) <= ItemsSize(items)
  {
    if items == [] then []
    else
      var i := items[|items| - 1];
      Then(Then(ItemParts(items[..|items| - 1]), One(Eval(i.context))), OptStore(i.target))
  }

  function PatternParts(p: CasePattern): (r: seq<Node>)
    ensures Total(r) <= PatternSize(p)
  {
    Then(Then(Evals(p.values), PatternsParts(p.subs)), OptBind(p.captured))
  }

  function PatternsParts(ps: seq<CasePattern>): (r: seq<Node>)
    ensures Total(r) <= PatternsSize(ps)
  {
    if ps == [] then [] else Then(PatternsParts(ps[..|ps| - 1]), PatternParts(ps[|ps| - 1]))
  }

  function CaseParts(cases: seq<MatchCase>): (r: seq<Node>)
    ensures Total(r) <= CasesSize(cases)
  {
    if cases == [] then []
    else
      var c := cases[|cases| - 1];
      Then(Then(Then(CaseParts(cases[..|cases| - 1]), PatternParts(c.pattern)), OptEval(c.guard)), Execs(c.body))
  }

  /** What evaluating, assigning or executing a node runs in the same scope. */
  function Parts(node: Node): (r: seq<Node>)
    ensures Total(r) < Size(node)
    ensures forall c <- r :: Size(c) < Size(node)
  {
    var r :=
      match node
      case Eval(e) => ExprParts(e)
      case Store(Ident(_)) => []
      case Store(Pattern(elts)) => Stores(elts)
      case Store(t) => One(Eval(t))
      case Exec(s) => StmtParts(s);
    assert forall c <- r :: Size(c) <= Total(r) by {
      forall c <- r ensures Size(c) <= Total(r) { MemberSize(r, c); }
    }
    r
  }

  function ExprParts(e: Expr): (r: seq<Node>)
    ensures Total(r) < ExprSize(e)
  {
    hide Total, ExprsSize, GensSize, Then, Evals, GenParts;
    match e
    case Ident(_) => Nothing()
    case Compound(subs) => Evals(subs)
    case Pattern(elts) => Evals(elts)
    case ListComp(gens, elts) => Then(GenParts(gens), Evals(elts))
    case GenExp(gens, _) =>
      OutermostSize(gens);
      if gens == [] then Nothing() else One(Eval(gens[0].iter))
    case Lambda(args, _) => Evals(args.defaults)
    case NamedExpr(_, value) => One(Eval(value))
  }

  lemma {:induction false} OutermostSize(gens: seq<Gen>)
    ensures gens != [] ==> ExprSize(gens[0].iter) <= GensSize(gens)
  {
    if |gens| <= 1 {
    } else {
      OutermostSize(gens[..|gens| - 1]);
    }
  }

  /** An augmented assignment both reads and binds its name. */
  function Reread(target: Expr): (r: seq<Node>)
    ensures Total(r) <= 2
  {
    if target.Ident? then One(Eval(target)) else Nothing()
  }

  function StmtParts(s: Stmt): (r: seq<Node>)
    ensures Total(r) < StmtSize(s)
  {
    hide Total, ExprsSize, StmtsSize, OptSize, HandlersSize, ItemsSize, CasesSize, Then, Evals, Stores, Execs;
    hide Reread, OptEval, HandlerParts, ItemParts, CaseParts, One, Nothing;
    match s
    case Plain(exprs) => Evals(exprs)
    case Assign(targets, value) => Then(One(Eval(value)), Stores(targets))
    case AugAssign(target, value) =>
      Then(Then(One(Eval(value)), Reread(target)), One(Store(target)))
    case AnnAssign(target, annotated) => Then(OptEval(annotated), One(Store(target)))
    case Branch(test, body, orelse) => Then(Then(One(Eval(test)), Execs(body)), Execs(orelse))
    case For(target, iter, body, orelse) =>
      Then(Then(Then(One(Eval(iter)), One(Store(target))), Execs(body)), Execs(orelse))
    case FunctionDef(_, decorators, args, _) => Then(Evals(decorators), Evals(args.defaults))
    case ClassDef(_, decorators, bases, _) => Then(Evals(decorators), Evals(bases))
    case Global(_) => Nothing()
    case Nonlocal(_) => Nothing()
    case Try(body, handlers, orelse, finalbody) =>
      Then(Then(Then(Execs(body), HandlerParts(handlers)), Execs(orelse)), Execs(finalbody))
    case With(items, body) => Then(ItemParts(items), Execs(body))
    case Match(subject, cases) => Then(One(Eval(subject)), CaseParts(cases))
  }

  // ---- the scopes that are opened ----

  function ScopeSize(sx: ScopeSyntax): nat {
    match sx
    case DefOf(args, stmts) => 3 * |args.names| + StmtsSize(stmts)
    case LambdaOf(args, result) => 3 * |args.names| + ExprSize(result)
    case GenExpOf(gens, elt) => GensSize(gens) + ExprSize(elt)
  }

  /** What runs inside a scope; its parameters bind there. */
  function Inside(sx: ScopeSyntax): (r: seq<Node>)
    ensures Total(r) <= ScopeSize(sx)
  {
    match sx
    case DefOf(args, stmts) => Then(Params(args.names), Execs(stmts))
    case LambdaOf(args, result) => Then(Params(args.names), One(Eval(result)))
    case GenExpOf(gens, elt) => Then(InnerGenParts(gens), One(Eval(elt)))
  }

  /** The scope a node opens, if it does. */
  function Opens(node: Node): (r: Option<ScopeSyntax>)
    ensures r.Some? ==> ScopeSize(r.value) < Size(node)
  {
    hide ExprsSize, StmtsSize, GensSize;
    match node
    case Eval(GenExp(gens, elt)) => Some(GenExpOf(gens, elt))
    case Eval(Lambda(args, body)) => Some(LambdaOf(args, body))
    case Exec(FunctionDef(_, _, args, body)) => Some(DefOf(args, body))
    case _ => None
  }

  // ---- the scope tree ----

  type Acc = sc: Scope | Tidy(sc) witness NO_USES

  function Bind(acc: Acc, n: Name): Acc {
    acc.(binds := acc.binds + {n})
  }

  function Mention(acc: Acc, n: Name): Acc {
    acc.(mentions := acc.mentions + [n])
  }

  function Nest(acc: Acc, child: Acc): Acc {
    acc.(children := acc.children + [child])
  }

  /** Declaring a name nonlocal also uses it, so writing alone captures it. */
  function DeclareNonlocal(acc: Acc, n: Name): Acc {
    acc.(nonlocals := acc.nonlocals + {n}, mentions := acc.mentions + [n])
  }

  function DeclareGlobals(acc: Acc, names: seq<Name>): Acc {
    acc.(globals := acc.globals + set n | n in names)
  }

  function DeclareNonlocals(acc: Acc, names: seq<Name>): Acc {
    if names == [] then acc else DeclareNonlocal(DeclareNonlocals(acc, names[..|names| - 1]), names[|names| - 1])
  }

  /** What a node does to its scope by itself. */
  function Does(acc: Acc, node: Node): Acc {
    match node
    case Eval(Ident(n)) => Mention(acc, n)
    case Eval(NamedExpr(n, _)) => Bind(acc, n)
    case Store(Ident(n)) => Bind(acc, n)
    case Exec(FunctionDef(name, _, _, _)) => Bind(acc, name)
    case Exec(ClassDef(name, _, _, _)) => Bind(acc, name)
    case Exec(Global(names)) => DeclareGlobals(acc, names)
    case Exec(Nonlocal(names)) => DeclareNonlocals(acc, names)
    case _ => acc
  }

  /** The scope after a node ran in it: its parts in order, then itself, then the scope it opens. */
  function Run(acc: Acc, node: Node): Acc
    decreases Size(node), 0
  {
    var after := Does(RunAll(acc, Parts(node)), node);
    if Opens(node).Some? then Nest(after, RunAll(NO_USES, Inside(Opens(node).value))) else after
  }

  function RunAll(acc: Acc, nodes: seq<Node>): Acc
    decreases Total(nodes), 1, |nodes|
  {
    if nodes == [] then acc else Run(RunAll(acc, nodes[..|nodes| - 1]), nodes[|nodes| - 1])
  }

  function ScopeOf(sx: ScopeSyntax): Acc {
    RunAll(NO_USES, Inside(sx))
  }

  // ---- running lists ----

  lemma RunNone(acc: Acc)
    ensures RunAll(acc, []) == acc
  {
  }

  lemma RunOne(acc: Acc, node: Node)
    ensures RunAll(acc, One(node)) == Run(acc, node)
  {
    hide Run, Tidy;
    assert One(node)[..0] == [];
  }

  lemma RunBind(acc: Acc, n: Name)
    ensures RunAll(acc, One(Store(Ident(n)))) == Bind(acc, n)
  {
    RunOne(acc, Store(Ident(n)));
  }

  lemma RunRead(acc: Acc, n: Name)
    ensures RunAll(acc, One(Eval(Ident(n)))) == Mention(acc, n)
  {
    RunOne(acc, Eval(Ident(n)));
  }

  function AfterStmt(acc: Acc, s: Stmt): Acc {
    match s
    case FunctionDef(name, _, args, body) => Nest(Bind(acc, name), ScopeOf(DefOf(args, body)))
    case ClassDef(name, _, _, _) => Bind(acc, name)
    case Global(names) => DeclareGlobals(acc, names)
    case Nonlocal(names) => DeclareNonlocals(acc, names)
    case _ => acc
  }

  /** A statement runs its parts, and then binds, declares or opens a scope if it is of that kind. */
  lemma RunStmt(acc: Acc, s: Stmt)
    ensures Run(acc, Exec(s)) == AfterStmt(RunAll(acc, StmtParts(s)), s)
  {
    hide Tidy;
    RunNone(acc);
  }

  lemma {:induction false} RunAppend(acc: Acc, a: seq<Node>, b: seq<Node>)
    ensures RunAll(acc, a + b) == RunAll(RunAll(acc, a), b)
  {
    hide Run, Tidy;
    if b == [] {
      assert a + b == a;
    } else {
      RunAppend(acc, a, b[..|b| - 1]);
      assert (a + b)[..|a + b| - 1] == a + b[..|b| - 1];
    }
  }

  /** Lists run one after the other, the last ones possibly empty. */
  lemma RunInOrder(acc: Acc, a: seq<Node>, b: seq<Node>, c: seq<Node>, d: seq<Node>)
    ensures RunAll(acc, Then(a, b)) == RunAll(RunAll(acc, a), b)
    ensures RunAll(acc, Then(Then(a, b), c)) == RunAll(RunAll(RunAll(acc, a), b), c)
    ensures RunAll(acc, Then(Then(Then(a, b), c), d)) == RunAll(RunAll(RunAll(RunAll(acc, a), b), c), d)
  {
    hide RunAll;
    RunAppend(acc, a, b);
    RunAppend(acc, a + b, c);
    RunAppend(acc, a + b + c, d);
  }
}
