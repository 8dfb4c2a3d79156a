/** Compiling function contexts on several threads that share one work queue. */
module ParallelCompile {
  import opened Wrappers

  /** A failed compile names the function it happened in. */
  datatype CompileError = CompileError(index: nat, message: string)

  type Outcome<C> = Result<C, CompileError>
  type Entry<C> = (nat, Outcome<C>)

  /** A worker is about to pop, holds a popped context, holds a result to push, or has left its loop. */
  datatype Worker<C> = Idle | Busy(index: nat, ctx: C) | Ready(entry: Entry<C>) | Stopped

  datatype State<C> = State(queue: seq<(nat, C)>, workers: seq<Worker<C>>, finished: seq<Entry<C>>)

  /** Compiling is a function of the context alone: every function gets a fresh control plane. */
  type Compiler<!C> = C -> Result<C, string>

  function OutcomeOf<C>(compile: Compiler<C>, i: nat, ctx: C): Outcome<C> {
    match compile(ctx)
    case Ok(c) => Ok(c)
    case Err(e) => Err(CompileError(i, e))
  }

  function Enumerated<C>(contexts: seq<C>): (s: seq<(nat, C)>)
    ensures |s| == |contexts| && forall i: nat :: i < |s| ==> s[i] == (i, contexts[i])
  {
    seq(|contexts|, i requires 0 <= i < |contexts| => (i, contexts[i]))
  }

  // ---- one step of one worker ----

  function Start<C>(contexts: seq<C>, threads: nat): State<C> {
    State(Enumerated(contexts), seq(threads, _ => Idle), [])
  }

  /** What worker `w` does next; taking the queue's lock and releasing it is one step. */
  function Act<C>(compile: Compiler<C>, s: State<C>, w: nat): State<C>
    requires w < |s.workers| && !s.workers[w].Stopped?
  {
    match s.workers[w]
    case Idle =>
      if s.queue == [] then s.(workers := s.workers[w := Stopped])
      else
        var next := s.queue[|s.queue| - 1];
        s.(queue := s.queue[..|s.queue| - 1], workers := s.workers[w := Busy(next.0, next.1)])
    case Busy(i, ctx) =>
      s.(workers := s.workers[w := Ready((i, OutcomeOf(compile, i, ctx)))])
    case Ready(entry) =>
      s.(finished := s.finished + [entry], workers := s.workers[w := Idle])
  }

  predicate Done<C>(s: State<C>) {
    forall w: nat :: w < |s.workers| ==> s.workers[w].Stopped?
  }

  /** The state after the workers act in the order the schedule lists. */
  ghost predicate Runs<C(!new)>(compile: Compiler<C>, s: State<C>, schedule: seq<nat>, t: State<C>)
    decreases |schedule|
  {
    if schedule == [] then s == t
    else
      schedule[0] < |s.workers| && !s.workers[schedule[0]].Stopped? &&
      Runs(compile, Act(compile, s, schedule[0]), schedule[1..], t)
  }

  // ---- where every context is ----

  /** Each context once, with what compiling it gives. */
  function Expected<C>(compile: Compiler<C>, contexts: seq<C>): (s: seq<Entry<C>>)
    ensures |s| == |contexts| && forall i: nat :: i < |s| ==> s[i] == (i, OutcomeOf(compile, i, contexts[i]))
  {
    seq(|contexts|, i requires 0 <= i < |contexts| => (i, OutcomeOf(compile, i, contexts[i])))
  }

  function Pending<C(==)>(compile: Compiler<C>, queue: seq<(nat, C)>): multiset<Entry<C>> {
    if queue == [] then multiset{}
    else
      var last := queue[|queue| - 1];
      Pending(compile, queue[..|queue| - 1]) + multiset{(last.0, OutcomeOf(compile, last.0, last.1))}
  }

  function Held<C(==)>(compile: Compiler<C>, w: Worker<C>): multiset<Entry<C>> {
    match w
    case Busy(i, ctx) => multiset{(i, OutcomeOf(compile, i, ctx))}
    case Ready(entry) => multiset{entry}
    case _ => multiset{}
  }

  function InFlight<C(==)>(compile: Compiler<C>, workers: seq<Worker<C>>): multiset<Entry<C>> {
    if workers == [] then multiset{} else Held(compile, workers[0]) + InFlight(compile, workers[1..])
  }

  lemma SameOnBothSides<T>(a: multiset<T>, i: multiset<T>, i2: multiset<T>, h: multiset<T>, h2: multiset<T>)
    requires i2 + h == i + h2
    ensures (a + i2) + h == (a + i) + h2
  {
    assert (a + i2) + h == a + (i2 + h);
    assert (a + i) + h2 == a + (i + h2);
  }

  lemma {:induction false} ReplaceWorker<C>(compile: Compiler<C>, workers: seq<Worker<C>>, w: nat, x: Worker<C>)
    requires w < |workers|
    ensures InFlight(compile, workers[w := x]) + Held(compile, workers[w]) ==
      InFlight(compile, workers) + Held(compile, x)
  {
    hide Held;
    var rest := workers[1..];
    if w > 0 {
      assert workers[w := x][1..] == rest[w - 1 := x];
      ReplaceWorker(compile, rest, w - 1, x);
      SameOnBothSides(Held(compile, workers[0]), InFlight(compile, rest), InFlight(compile, rest[w - 1 := x]),
                      Held(compile, workers[w]), Held(compile, x));
    } else {
      assert workers[w := x][1..] == rest;
      Swapped(InFlight(compile, rest), Held(compile, workers[0]), Held(compile, x));
    }
  }

  lemma Swapped<T>(i: multiset<T>, h: multiset<T>, h2: multiset<T>)
    ensures (h2 + i) + h == (h + i) + h2
  {
  }

  /** Nothing is lost and nothing is done twice; a worker leaves only once the queue is empty. */
  ghost predicate Accounted<C>(compile: Compiler<C>, contexts: seq<C>, s: State<C>) {
    Pending(compile, s.queue) + InFlight(compile, s.workers) + multiset(s.finished) ==
      multiset(Expected(compile, contexts)) &&
    (s.queue != [] ==> forall w: nat :: w < |s.workers| ==> !s.workers[w].Stopped?)
  }

  // ---- every step ----

  function Weight<C>(w: Worker<C>): nat {
    match w
    case Idle => 1
    case Busy(_, _) => 3
    case Ready(_) => 2
    case Stopped => 0
  }

  function TotalWeight<C>(workers: seq<Worker<C>>): nat {
    if workers == [] then 0 else Weight(workers[0]) + TotalWeight(workers[1..])
  }

  /** Steps still to be taken. */
  function Remaining<C>(s: State<C>): nat {
    3 * |s.queue| + TotalWeight(s.workers)
  }

  lemma {:induction false} ReplaceWeight<C>(workers: seq<Worker<C>>, w: nat, x: Worker<C>)
    requires w < |workers|
    ensures TotalWeight(workers[w := x]) + Weight(workers[w]) == TotalWeight(workers) + Weight(x)
  {
    if w > 0 {
      assert workers[w := x][1..] == workers[1..][w - 1 := x];
      ReplaceWeight(workers[1..], w - 1, x);
    } else {
      assert workers[w := x][1..] == workers[1..];
    }
  }

  lemma Popped<T>(p: multiset<T>, p2: multiset<T>, i: multiset<T>, i2: multiset<T>, f: multiset<T>, x: multiset<T>)
    requires p == p2 + x && i2 + multiset{} == i + x
    ensures p2 + i2 + f == p + i + f
  {
    assert i2 == i + x;
    assert p2 + (i + x) == p2 + x + i;
  }

  lemma Pushed<T>(p: multiset<T>, i: multiset<T>, i2: multiset<T>, f: multiset<T>, x: multiset<T>)
    requires i2 + x == i + multiset{}
    ensures p + i2 + (f + x) == p + i + f
  {
    assert i == i2 + x;
    assert p + i2 + (f + x) == p + (i2 + x) + f;
  }

  lemma Unmoved<T>(i: multiset<T>, i2: multiset<T>, x: multiset<T>)
    requires i2 + x == i + x
    ensures i2 == i
  {
    assert i2 == i2 + x - x && i == i + x - x;
  }

  lemma LeaveKeepsAccounted<C>(compile: Compiler<C>, contexts: seq<C>, s: State<C>, w: nat)
    requires Accounted(compile, contexts, s) && w < |s.workers| && s.workers[w].Idle? && s.queue == []
    ensures Accounted(compile, contexts, Act(compile, s, w)) && Remaining(Act(compile, s, w)) == Remaining(s) - 1
  {
    hide InFlight, TotalWeight, Pending;
    ReplaceWorker(compile, s.workers, w, Stopped);
    ReplaceWeight(s.workers, w, Stopped);
    Unmoved(InFlight(compile, s.workers), InFlight(compile, s.workers[w := Stopped]), multiset{});
  }

  lemma PopKeepsAccounted<C>(compile: Compiler<C>, contexts: seq<C>, s: State<C>, w: nat)
    requires Accounted(compile, contexts, s) && w < |s.workers| && s.workers[w].Idle? && s.queue != []
    ensures Accounted(compile, contexts, Act(compile, s, w)) && Remaining(Act(compile, s, w)) == Remaining(s) - 1
  {
    hide InFlight, TotalWeight;
    var next := s.queue[|s.queue| - 1];
    var popped: Worker<C> := Busy(next.0, next.1);
    ReplaceWorker(compile, s.workers, w, popped);
    ReplaceWeight(s.workers, w, popped);
    Popped(Pending(compile, s.queue), Pending(compile, s.queue[..|s.queue| - 1]), InFlight(compile, s.workers),
           InFlight(compile, s.workers[w := popped]), multiset(s.finished), Held(compile, popped));
  }

  lemma CompileKeepsAccounted<C>(compile: Compiler<C>, contexts: seq<C>, s: State<C>, w: nat)
    requires Accounted(compile, contexts, s) && w < |s.workers| && s.workers[w].Busy?
    ensures Accounted(compile, contexts, Act(compile, s, w)) && Remaining(Act(compile, s, w)) == Remaining(s) - 1
  {
    hide InFlight, TotalWeight, Pending;
    var ready := Act(compile, s, w).workers[w];
    ReplaceWorker(compile, s.workers, w, ready);
    ReplaceWeight(s.workers, w, ready);
    Unmoved(InFlight(compile, s.workers), InFlight(compile, s.workers[w := ready]), Held(compile, s.workers[w]));
  }

  lemma PushKeepsAccounted<C>(compile: Compiler<C>, contexts: seq<C>, s: State<C>, w: nat)
    requires Accounted(compile, contexts, s) && w < |s.workers| && s.workers[w].Ready?
    ensures Accounted(compile, contexts, Act(compile, s, w)) && Remaining(Act(compile, s, w)) == Remaining(s) - 1
  {
    hide InFlight, TotalWeight, Pending;
    var entry := s.workers[w].entry;
    ReplaceWorker(compile, s.workers, w, Idle);
    ReplaceWeight(s.workers, w, Idle);
    assert multiset(s.finished + [entry]) == multiset(s.finished) + multiset{entry};
    Pushed(Pending(compile, s.queue), InFlight(compile, s.workers), InFlight(compile, s.workers[w := Idle]),
           multiset(s.finished), multiset{entry});
  }

  lemma StepKeepsAccounted<C>(compile: Compiler<C>, contexts: seq<C>, s: State<C>, w: nat)
    requires Accounted(compile, contexts, s) && w < |s.workers| && !s.workers[w].Stopped?
    ensures Accounted(compile, contexts, Act(compile, s, w))
    ensures |Act(compile, s, w).workers| == |s.workers|
    ensures Remaining(Act(compile, s, w)) == Remaining(s) - 1
  {
    hide Accounted, Remaining;
    match s.workers[w]
    case Idle =>
      if s.queue == [] {
        LeaveKeepsAccounted(compile, contexts, s, w);
      } else {
        PopKeepsAccounted(compile, contexts, s, w);
      }
    case Busy(_, _) =>
      CompileKeepsAccounted(compile, contexts, s, w);
    case Ready(_) =>
      PushKeepsAccounted(compile, contexts, s, w);
  }

  lemma {:induction false} StartIsAccounted<C>(compile: Compiler<C>, contexts: seq<C>, threads: nat)
    ensures Accounted(compile, contexts, Start(contexts, threads))
    ensures Remaining(Start(contexts, threads)) == 3 * |contexts| + threads
  {
    PendingEnumerated(compile, contexts);
    AllIdle<C>(compile, threads);
  }

  lemma {:induction false} PendingEnumerated<C>(compile: Compiler<C>, contexts: seq<C>)
    ensures Pending(compile, Enumerated(contexts)) == multiset(Expected(compile, contexts))
  {
    var n := |contexts|;
    if n == 0 {
    } else {
      PendingEnumerated(compile, contexts[..n - 1]);
      assert Enumerated(contexts)[..n - 1] == Enumerated(contexts[..n - 1]);
      assert Expected(compile, contexts) ==
        Expected(compile, contexts[..n - 1]) + [(n - 1, OutcomeOf(compile, n - 1, contexts[n - 1]))];
    }
  }

  lemma {:induction false} AllIdle<C>(compile: Compiler<C>, threads: nat)
    ensures InFlight(compile, seq(threads, _ => Idle)) == multiset{}
    ensures TotalWeight<C>(seq(threads, _ => Idle)) == threads
  {
    if threads > 0 {
      AllIdle<C>(compile, threads - 1);
      assert (seq(threads, _ => Worker<C>.Idle))[1..] == seq(threads - 1, _ => Worker<C>.Idle);
    }
  }

  lemma {:induction false} NoWeightIsStopped<C>(workers: seq<Worker<C>>)
    ensures TotalWeight(workers) == 0 <==> forall w: nat :: w < |workers| ==> workers[w].Stopped?
  {
    if workers == [] {
    } else {
      NoWeightIsStopped(workers[1..]);
      assert forall w: nat :: 0 < w < |workers| ==> workers[w] == workers[1..][w - 1];
      assert forall w: nat :: w < |workers| - 1 ==> workers[1..][w] == workers[w + 1];
    }
  }

  lemma {:induction false} NothingHeld<C>(compile: Compiler<C>, workers: seq<Worker<C>>)
    requires forall w: nat :: w < |workers| ==> workers[w].Stopped?
    ensures InFlight(compile, workers) == multiset{}
  {
    if workers == [] {
    } else {
      NothingHeld(compile, workers[1..]);
    }
  }

  // ---- every run ----

  lemma {:induction false} RunKeepsAccounted<C(!new)>(
      compile: Compiler<C>, contexts: seq<C>, s: State<C>, schedule: seq<nat>, t: State<C>)
    requires Accounted(compile, contexts, s) && Runs(compile, s, schedule, t)
    ensures Accounted(compile, contexts, t) && |t.workers| == |s.workers|
    ensures Remaining(t) == Remaining(s) - |schedule|
    decreases |schedule|
  {
    if schedule == [] {
    } else {
      var next := Act(compile, s, schedule[0]);
      StepKeepsAccounted(compile, contexts, s, schedule[0]);
      RunKeepsAccounted(compile, contexts, next, schedule[1..], t);
    }
  }

  lemma AllStoppedIsExpected<C>(compile: Compiler<C>, contexts: seq<C>, s: State<C>)
    requires Accounted(compile, contexts, s) && |s.workers| >= 1 && Done(s)
    ensures multiset(s.finished) == multiset(Expected(compile, contexts))
  {
    assert s.workers[0].Stopped?;
    NothingHeld(compile, s.workers);
  }

  /**
   * Whatever the interleaving: a run is at most three steps a context and one a thread long, and it is that long
   * exactly when every worker has left; then every context has been compiled exactly once.
   */
  lemma EveryScheduleFinishes<C(!new)>(
      compile: Compiler<C>, contexts: seq<C>, threads: nat, schedule: seq<nat>, t: State<C>)
    requires threads >= 1 && Runs(compile, Start(contexts, threads), schedule, t)
    ensures |schedule| <= 3 * |contexts| + threads
    ensures Done(t) <==> |schedule| == 3 * |contexts| + threads
    ensures Done(t) ==> multiset(t.finished) == multiset(Expected(compile, contexts))
  {
    StartIsAccounted(compile, contexts, threads);
    RunKeepsAccounted(compile, contexts, Start(contexts, threads), schedule, t);
    NoWeightIsStopped(t.workers);
    if Done(t) {
      AllStoppedIsExpected(compile, contexts, t);
    }
  }

  /** Two workers never hold the same context. */
  lemma OneOwner<C>(compile: Compiler<C>, contexts: seq<C>, s: State<C>, v: nat, w: nat)
    requires Accounted(compile, contexts, s) && v < w < |s.workers|
    requires s.workers[v].Busy? && s.workers[w].Busy?
    ensures s.workers[v].index != s.workers[w].index
  {
    var i, j := s.workers[v].index, s.workers[w].index;
    var x := (i, OutcomeOf(compile, i, s.workers[v].ctx));
    var y := (j, OutcomeOf(compile, j, s.workers[w].ctx));
    var fewer := s.workers[v := Idle];
    ReplaceWorker(compile, s.workers, v, Idle);
    ReplaceWorker(compile, fewer, w, Idle);
    BothIn(Pending(compile, s.queue), InFlight(compile, s.workers), InFlight(compile, fewer),
           InFlight(compile, fewer[w := Idle]), multiset(s.finished), x, y);
    var all := multiset(Expected(compile, contexts));
    EntryOnce(compile, contexts, x);
    assert x in all && y in all;
  }

  lemma BothIn<T>(p: multiset<T>, i: multiset<T>, i2: multiset<T>, i3: multiset<T>, f: multiset<T>, x: T, y: T)
    requires i2 + multiset{x} == i && i3 + multiset{y} == i2
    ensures x in p + i + f && y in p + i + f && (x == y ==> (p + i + f)[x] >= 2)
  {
    assert (i2 + multiset{x})[x] == i[x] && (i3 + multiset{y})[y] == i2[y];
    assert (i2 + multiset{x})[y] == i[y];
  }

  lemma {:induction false} EntryOnce<C>(compile: Compiler<C>, contexts: seq<C>, x: Entry<C>)
    ensures multiset(Expected(compile, contexts))[x] <= 1
  {
    var n := |contexts|;
    if n == 0 {
    } else {
      EntryOnce(compile, contexts[..n - 1], x);
      var last := (n - 1, OutcomeOf(compile, n - 1, contexts[n - 1]));
      assert Expected(compile, contexts) == Expected(compile, contexts[..n - 1]) + [last];
      assert last !in Expected(compile, contexts[..n - 1]);
    }
  }

  // ---- gathering the results ----

  /** Compiling one function after the other, stopping at the first that fails. */
  function Serial<C>(compile: Compiler<C>, contexts: seq<C>): Result<seq<C>, CompileError> {
    if contexts == [] then Ok([])
    else
      var n := |contexts| - 1;
      match Serial(compile, contexts[..n])
      case Err(e) => Err(e)
      case Ok(before) =>
        match OutcomeOf(compile, n, contexts[n])
        case Err(e) => Err(e)
        case Ok(c) => Ok(before + [c])
  }

  predicate AllCompiled<C(==)>(compile: Compiler<C>, contexts: seq<C>, all: seq<C>) {
    |all| == |contexts| && forall i: nat :: i < |contexts| ==> compile(contexts[i]) == Ok(all[i])
  }

  predicate FirstFailure<C(==)>(compile: Compiler<C>, contexts: seq<C>, e: CompileError) {
    e.index < |contexts| && compile(contexts[e.index]) == Err(e.message) &&
    forall i: nat :: i < e.index ==> compile(contexts[i]).Ok?
  }

  /** The serial result: every compiled context in its place, or the error of the smallest index that fails. */
  lemma {:induction false} SerialMeaning<C>(compile: Compiler<C>, contexts: seq<C>)
    ensures Serial(compile, contexts).Ok? ==> AllCompiled(compile, contexts, Serial(compile, contexts).value)
    ensures Serial(compile, contexts).Err? ==> FirstFailure(compile, contexts, Serial(compile, contexts).error)
  {
    if contexts == [] {
    } else {
      var n := |contexts| - 1;
      SerialMeaning(compile, contexts[..n]);
    }
  }

  predicate Ascending<C>(s: seq<Entry<C>>) {
    forall i: nat, j: nat :: i < j < |s| ==> s[i].0 <= s[j].0
  }

  function InsertByIndex<C(==)>(s: seq<Entry<C>>, x: Entry<C>): (r: seq<Entry<C>>)
    requires Ascending(s)
    ensures Ascending(r) && multiset(r) == multiset(s) + multiset{x}
    decreases |s|, 0
  {
    var n := |s|;
    if n == 0 || s[n - 1].0 <= x.0 then s + [x]
    else
      var r := InsertByIndex(s[..n - 1], x) + [s[n - 1]];
      assert s == s[..n - 1] + [s[n - 1]];
      InsertedBelow(s[..n - 1], x, s[n - 1].0);
      r
  }

  lemma InsertedBelow<C>(s: seq<Entry<C>>, x: Entry<C>, bound: nat)
    requires Ascending(s) && x.0 <= bound && forall i: nat :: i < |s| ==> s[i].0 <= bound
    ensures forall i: nat :: i < |InsertByIndex(s, x)| ==> InsertByIndex(s, x)[i].0 <= bound
    decreases |s|, 1
  {
    var r := InsertByIndex(s, x);
    forall i: nat | i < |r|
      ensures r[i].0 <= bound
    {
      assert r[i] in multiset(r);
    }
  }

  function SortByIndex<C(==)>(s: seq<Entry<C>>): (r: seq<Entry<C>>)
    ensures Ascending(r) && multiset(r) == multiset(s)
  {
    if s == [] then []
    else
      assert s == s[..|s| - 1] + [s[|s| - 1]];
      InsertByIndex(SortByIndex(s[..|s| - 1]), s[|s| - 1])
  }

  lemma WithoutLast<T>(s: seq<T>, t: seq<T>, a: seq<T>, b: seq<T>, last: T)
    requires s == a + [last] && t == b + [last] && multiset(s) == multiset(t)
    ensures multiset(a) == multiset(b)
  {
    Unmoved(multiset(a), multiset(b), multiset{last});
  }

  lemma LastIsGreatest<C>(compile: Compiler<C>, contexts: seq<C>, sorted: seq<Entry<C>>)
    requires Ascending(sorted) && multiset(sorted) == multiset(Expected(compile, contexts)) && contexts != []
    ensures |sorted| == |contexts| && sorted[|sorted| - 1] == Expected(compile, contexts)[|contexts| - 1]
  {
    var all := Expected(compile, contexts);
    assert |multiset(sorted)| == |sorted| && |multiset(all)| == |all|;
    var last := all[|all| - 1];
    assert last in multiset(all);
    var k: nat :| k < |sorted| && sorted[k] == last;
    assert sorted[|sorted| - 1] in multiset(sorted);
  }

  /** There is only one way to sort the finished results. */
  lemma {:induction false} SortedIsExpected<C>(compile: Compiler<C>, contexts: seq<C>, sorted: seq<Entry<C>>)
    requires Ascending(sorted) && multiset(sorted) == multiset(Expected(compile, contexts))
    ensures sorted == Expected(compile, contexts)
  {
    var all := Expected(compile, contexts);
    var n := |contexts|;
    if n == 0 {
      assert |multiset(sorted)| == |sorted|;
    } else {
      LastIsGreatest(compile, contexts, sorted);
      var last := all[n - 1];
      assert sorted == sorted[..n - 1] + [last] && all == all[..n - 1] + [last];
      assert all[..n - 1] == Expected(compile, contexts[..n - 1]);
      WithoutLast(sorted, all, sorted[..n - 1], all[..n - 1], last);
      SortedIsExpected(compile, contexts[..n - 1], sorted[..n - 1]);
    }
  }

  /** Take the results in order, giving up at the first error. */
  method Gather<C>(ghost compile: Compiler<C>, ghost contexts: seq<C>, sorted: seq<Entry<C>>)
    returns (r: Result<seq<C>, CompileError>)
    requires sorted == Expected(compile, contexts)
    ensures r == Serial(compile, contexts)
  {
    var all: seq<C> := [];
    for i := 0 to |sorted|
      invariant Serial(compile, contexts[..i]) == Ok(all)
    {
      assert contexts[..i + 1][..i] == contexts[..i];
      match sorted[i].1
      case Err(e) =>
        SerialStops(compile, contexts, i + 1);
        return Err(e);
      case Ok(c) =>
        all := all + [c];
    }
    assert contexts[..|contexts|] == contexts;
    r := Ok(all);
  }

  lemma {:induction false} SerialStops<C>(compile: Compiler<C>, contexts: seq<C>, i: nat)
    requires i <= |contexts| && Serial(compile, contexts[..i]).Err?
    ensures Serial(compile, contexts) == Serial(compile, contexts[..i])
    decreases |contexts|
  {
    var n := |contexts| - 1;
    if i <= n {
      assert contexts[..n][..i] == contexts[..i];
      SerialStops(compile, contexts[..n], i);
    } else {
      assert contexts[..i] == contexts;
    }
  }

  lemma NothingToCompile<C>(compile: Compiler<C>)
    ensures Serial<C>(compile, []) == Ok([])
  {
  }

  /**
   * The whole phase: any worker that has not left may go next, so the loop stands for every interleaving. The
   * result is the serial one.
   */
  method CompileContexts<C(==)>(compile: Compiler<C>, contexts: seq<C>, parallelism: nat)
    returns (r: Result<seq<C>, CompileError>)
    requires parallelism >= 1
    ensures r == Serial(compile, contexts)
  {
    hide Accounted, Act, Serial, Expected, Remaining;
    if contexts == [] {
      NothingToCompile(compile);
      return Ok([]);
    }
    var threads := if parallelism < |contexts| then parallelism else |contexts|;
    var s := Start(contexts, threads);
    StartIsAccounted(compile, contexts, threads);
    while exists w: nat :: w < |s.workers| && !s.workers[w].Stopped?
      invariant Accounted(compile, contexts, s) && |s.workers| == threads
      decreases Remaining(s)
    {
      var w: nat :| w < |s.workers| && !s.workers[w].Stopped?;
      StepKeepsAccounted(compile, contexts, s, w);
      s := Act(compile, s, w);
    }
    AllStoppedIsExpected(compile, contexts, s);
    var sorted := SortByIndex(s.finished);
    SortedIsExpected(compile, contexts, sorted);
    r := Gather(compile, contexts, sorted);
  }
}
