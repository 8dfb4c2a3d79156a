/**
 A whole-program machine with a call stack, a collected heap, exception unwinding and a
 runtime library that may call back into compiled code. Each frame owns a root array with
 one slot per rooted local; every definition of a rooted local is mirrored into its slot,
 and nothing else in the frame keeps an object alive.
 */
module GcMachine {
  import opened Wrappers
  import opened Mir
  import opened LivenessSpec
  import Tagging

  /** Object identities are never reused, so a dropped object stays recognizable. */
  type Obj = nat

  /** `Imm` is any word that is not a heap pointer, the null pointer included. */
  datatype Word = Imm | Ptr(obj: Obj)

  datatype Frame = Frame(func: FuncId, block: BlockId, pc: nat, locals: seq<Word>, slots: map<LocalId, Word>)

  /** `Failing` is a runtime call that can only end in a raise. */
  datatype Mode = Running | InRuntime | Failing | Unwinding | Halted

  /** `heap[o]` is the set of objects `o` references. */
  datatype State = State(mode: Mode, stack: seq<Frame>, heap: map<Obj, set<Obj>>, globals: set<Obj>, dropped: set<Obj>)

  type Program = seq<Function>

  ghost function RootSet(f: Function): set<LocalId> {
    set l | l in Locals(|f.locals|) && NeedsRoot(f, l)
  }

  function Objs(w: Word): set<Obj> {
    match w
    case Imm => {}
    case Ptr(o) => {o}
  }

  /** Does the generated code call an allocating runtime function here? */
  predicate Collects(inst: Inst, locals: seq<Repr>) {
    MayAllocate(inst, locals) || BoxesConst(inst, locals)
  }

  /** An integer constant outside the fixnum range is boxed by the runtime. */
  predicate BoxesConst(inst: Inst, locals: seq<Repr>) {
    inst.Const? && inst.val.IntLit? && !Tagging.IntFits(inst.val.n) && NonRaw(locals, inst.dst)
  }

  /** Raw arithmetic keeps a cold edge that raises through the runtime. */
  predicate HasColdEdge(inst: Inst, locals: seq<Repr>) {
    inst.BinOp? && !NonRaw(locals, inst.l) && !NonRaw(locals, inst.r)
  }

  // ---- frames ----

  predicate InCode(p: Program, fr: Frame) {
    fr.func < |p| && fr.block < |p[fr.func].blocks| && fr.pc <= |p[fr.func].blocks[fr.block].insts|
  }

  function FrameBlock(p: Program, fr: Frame): Block
    requires InCode(p, fr)
  {
    p[fr.func].blocks[fr.block]
  }

  predicate AtInst(p: Program, fr: Frame) {
    InCode(p, fr) && fr.pc < |FrameBlock(p, fr).insts|
  }

  function CurInst(p: Program, fr: Frame): Inst
    requires AtInst(p, fr)
  {
    FrameBlock(p, fr).insts[fr.pc]
  }

  /** What the next instruction or terminator reads. */
  function Reads(p: Program, fr: Frame): set<LocalId>
    requires InCode(p, fr)
  {
    if AtInst(p, fr) then Uses(CurInst(p, fr)) else TermUses(FrameBlock(p, fr).term)
  }

  function Local(fr: Frame, l: LocalId): Word {
    if l < |fr.locals| then fr.locals[l] else Imm
  }

  function ArgWords(fr: Frame, args: seq<LocalId>): seq<Word> {
    seq(|args|, i requires 0 <= i < |args| => Local(fr, args[i]))
  }

  /** Define a local, mirroring it into its root slot if it has one. */
  function Define(fr: Frame, l: LocalId, w: Word): Frame
    requires l < |fr.locals|
  {
    fr.(locals := fr.locals[l := w], slots := if l in fr.slots then fr.slots[l := w] else fr.slots)
  }

  function DefineOpt(fr: Frame, o: Option<LocalId>, w: Word): Frame {
    if o.Some? && o.value < |fr.locals| then Define(fr, o.value, w) else fr
  }

  /** Live arguments, with an immediate wherever the parameter holds no heap object. */
  predicate ArgsAlive(heap: map<Obj, set<Obj>>, f: Function, args: seq<Word>) {
    |args| == |f.params| &&
    forall i :: 0 <= i < |args| ==> Objs(args[i]) <= heap.Keys && (!IsGcRoot(f.params[i]) ==> args[i] == Imm)
  }

  /** Parameters take the arguments; every other local and root slot starts as null. */
  ghost function EntryFrame(p: Program, func: FuncId, args: seq<Word>): Frame
    requires func < |p|
  {
    var f := p[func];
    var locals := seq(|f.locals|, l requires 0 <= l < |f.locals| => if l < |args| then args[l] else Imm);
    Frame(func, f.entry, 0, locals, map l | l in RootSet(f) :: locals[l])
  }

  function Goto(fr: Frame, b: BlockId): Frame {
    fr.(block := b, pc := 0)
  }

  function Next(fr: Frame): Frame {
    fr.(pc := fr.pc + 1)
  }

  function Top(s: State): Frame
    requires s.stack != []
  {
    s.stack[|s.stack| - 1]
  }

  function SetTop(s: State, fr: Frame): State
    requires s.stack != []
  {
    s.(stack := s.stack[|s.stack| - 1 := fr])
  }

  function Pop(s: State): seq<Frame>
    requires s.stack != []
  {
    s.stack[..|s.stack| - 1]
  }

  // ---- the collector ----

  function FrameRoots(fr: Frame): set<Obj> {
    set l, o | l in fr.slots && o in Objs(fr.slots[l]) :: o
  }

  /** The collector sees the frames' root arrays and the runtime's own roots, no other local. */
  function Roots(s: State): set<Obj> {
    s.globals + set i, o | 0 <= i < |s.stack| && o in FrameRoots(s.stack[i]) :: o
  }

  predicate Closed(heap: map<Obj, set<Obj>>) {
    forall o :: o in heap ==> heap[o] <= heap.Keys
  }

  /** Nothing kept refers to anything dropped. */
  ghost predicate Droppable(s: State, drop: set<Obj>) {
    drop <= s.heap.Keys && drop !! Roots(s) && Closed(s.heap - drop)
  }

  /** The runtime has control, be it to compute, to build an exception, or to look for its handler. */
  predicate Collecting(mode: Mode) {
    mode.InRuntime? || mode.Failing? || mode.Unwinding?
  }

  ghost predicate CollectStep(s: State, t: State) {
    Collecting(s.mode) &&
    exists drop :: Droppable(s, drop) && t == s.(heap := s.heap - drop, dropped := s.dropped + drop)
  }

  /** The runtime allocates and stores as it likes, but never revives a dropped object. */
  ghost predicate MutateStep(s: State, t: State) {
    Collecting(s.mode) &&
    t == s.(heap := t.heap, globals := t.globals) &&
    s.heap.Keys <= t.heap.Keys && t.heap.Keys !! s.dropped && Closed(t.heap) && t.globals <= t.heap.Keys
  }

  // ---- instructions ----

  /** A field or cell read yields an immediate or something the object references. */
  predicate LoadsFrom(s: State, base: Word, w: Word) {
    w.Ptr? ==> base.Ptr? && base.obj in s.heap && w.obj in s.heap[base.obj]
  }

  predicate StoresInto(heap: map<Obj, set<Obj>>, heap': map<Obj, set<Obj>>, base: Word, value: Word) {
    if base.Ptr? && base.obj in heap
    then
      base.obj in heap' && heap'[base.obj] <= heap[base.obj] + Objs(value) &&
      heap' == heap[base.obj := heap'[base.obj]]
    else heap' == heap
  }

  /** The effect of an instruction that calls no allocating runtime function. */
  predicate QuietEffect(fr: Frame, s: State, inst: Inst, w: Word, heap': map<Obj, set<Obj>>, globals': set<Obj>)
  {
    match inst
    case Coerce(_, src, from, to, _) =>
      heap' == s.heap && globals' == s.globals &&
      w == (if IsGcRoot(from) && IsGcRoot(to) then Local(fr, src) else Imm)
    case GetField(_, base, _) => heap' == s.heap && globals' == s.globals && LoadsFrom(s, Local(fr, base), w)
    case CellGet(_, cell) => heap' == s.heap && globals' == s.globals && LoadsFrom(s, Local(fr, cell), w)
    case GlobalGet(_, _) => heap' == s.heap && globals' == s.globals && Objs(w) <= s.globals
    case SetField(base, _, value) =>
      globals' == s.globals && StoresInto(s.heap, heap', Local(fr, base), Local(fr, value))
    case CellSet(cell, value) => globals' == s.globals && StoresInto(s.heap, heap', Local(fr, cell), Local(fr, value))
    case GlobalSet(_, value) => heap' == s.heap && globals' <= s.globals + Objs(Local(fr, value))
    case _ => heap' == s.heap && globals' == s.globals && w == Imm
  }

  ghost predicate QuietStep(p: Program, s: State, t: State) {
    s.mode.Running? && s.stack != [] && AtInst(p, Top(s)) &&
    var fr, inst := Top(s), CurInst(p, Top(s));
    !Collects(inst, p[fr.func].locals) &&
    exists w :: QuietEffect(fr, s, inst, w, t.heap, t.globals) &&
      t == SetTop(s, Next(DefineOpt(fr, Dst(inst), w))).(heap := t.heap, globals := t.globals)
  }

  ghost predicate EnterStep(p: Program, s: State, t: State) {
    s.mode.Running? && s.stack != [] && AtInst(p, Top(s)) &&
    var inst := CurInst(p, Top(s));
    Collects(inst, p[Top(s).func].locals) && !inst.Call? && t == s.(mode := InRuntime)
  }

  ghost predicate ColdStep(p: Program, s: State, t: State) {
    s.mode.Running? && s.stack != [] && AtInst(p, Top(s)) &&
    HasColdEdge(CurInst(p, Top(s)), p[Top(s).func].locals) && t == s.(mode := Failing)
  }

  /** The runtime returns a live object, or an immediate where no pointer can be held. */
  ghost predicate LeaveStep(p: Program, s: State, t: State) {
    s.mode.InRuntime? && s.stack != [] && AtInst(p, Top(s)) &&
    var fr, inst := Top(s), CurInst(p, Top(s));
    var f := p[fr.func];
    !inst.Raise? && !inst.AssertFail? &&
    exists w :: Objs(w) <= s.heap.Keys &&
      (Dst(inst).Some? && Dst(inst).value < |f.locals| && !IsGcRoot(f.locals[Dst(inst).value]) ==> w == Imm) &&
      t == SetTop(s, Next(DefineOpt(fr, Dst(inst), w))).(mode := Running)
  }

  /** Any instruction of a block may raise, before it has written anything. */
  ghost predicate RaiseStep(p: Program, s: State, t: State) {
    (s.mode.Running? || s.mode.InRuntime? || s.mode.Failing?) && s.stack != [] && AtInst(p, Top(s)) &&
    !(s.mode.Running? && CurInst(p, Top(s)).Call?) && t == s.(mode := Unwinding)
  }

  ghost predicate CallStep(p: Program, s: State, t: State) {
    s.mode.Running? && s.stack != [] && AtInst(p, Top(s)) && CurInst(p, Top(s)).Call? &&
    var fr, inst := Top(s), CurInst(p, Top(s));
    inst.func < |p| && t == s.(stack := s.stack + [EntryFrame(p, inst.func, ArgWords(fr, inst.args))])
  }

  function ResultWord(fr: Frame, o: Option<LocalId>): Word {
    if o.Some? then Local(fr, o.value) else Imm
  }

  /** Pop the callee; the caller's call instruction stores the result. */
  function Resume(p: Program, stack: seq<Frame>, w: Word): seq<Frame> {
    if stack == [] then []
    else
      var caller := stack[|stack| - 1];
      if AtInst(p, caller) then stack[|stack| - 1 := Next(DefineOpt(caller, Dst(CurInst(p, caller)), w))] else stack
  }

  /** The frame below waits inside a runtime call, not at a call instruction. */
  predicate CalledByRuntime(p: Program, s: State) {
    |s.stack| >= 2 && AtInst(p, s.stack[|s.stack| - 2]) && !CurInst(p, s.stack[|s.stack| - 2]).Call?
  }

  ghost predicate ReturnStep(p: Program, s: State, t: State) {
    s.mode.Running? && s.stack != [] && InCode(p, Top(s)) && !AtInst(p, Top(s)) &&
    FrameBlock(p, Top(s)).term.Return? &&
    if CalledByRuntime(p, s) then t == s.(stack := Pop(s), mode := InRuntime)
    else
      var w := ResultWord(Top(s), FrameBlock(p, Top(s)).term.result);
      t == s.(stack := Resume(p, Pop(s), w), mode := if |s.stack| == 1 then Halted else Running)
  }

  /** A runtime call may run compiled code, on live arguments: a dunder method, a comparison, a callback. */
  ghost predicate ReenterStep(p: Program, s: State, t: State) {
    s.mode.InRuntime? && s.stack != [] && AtInst(p, Top(s)) && !CurInst(p, Top(s)).Call? &&
    exists func: FuncId, args: seq<Word> ::
      func < |p| && ArgsAlive(s.heap, p[func], args) &&
      t == s.(stack := s.stack + [EntryFrame(p, func, args)], mode := Running)
  }

  /** The runtime call that entered the topmost frame catches what that frame raised. */
  ghost predicate CatchStep(p: Program, s: State, t: State) {
    s.mode.Unwinding? && s.stack != [] && InCode(p, Top(s)) && FrameBlock(p, Top(s)).handler.None? &&
    CalledByRuntime(p, s) && t == s.(stack := Pop(s), mode := InRuntime)
  }

  ghost predicate JumpStep(p: Program, s: State, t: State) {
    s.mode.Running? && s.stack != [] && InCode(p, Top(s)) && !AtInst(p, Top(s)) &&
    exists b :: b in TermTargets(FrameBlock(p, Top(s)).term) && t == SetTop(s, Goto(Top(s), b))
  }

  /** Enter the current block's handler, or give the frame up and look in the caller. */
  ghost predicate UnwindStep(p: Program, s: State, t: State) {
    s.mode.Unwinding? && s.stack != [] && InCode(p, Top(s)) &&
    match FrameBlock(p, Top(s)).handler
    case Some(h) => t == SetTop(s, Goto(Top(s), h)).(mode := Running)
    case None => t == s.(stack := Pop(s), mode := if |s.stack| == 1 then Halted else Unwinding)
  }

  ghost predicate Step(p: Program, s: State, t: State) {
    QuietStep(p, s, t) || EnterStep(p, s, t) || ColdStep(p, s, t) || CollectStep(s, t) || MutateStep(s, t) ||
    LeaveStep(p, s, t) || RaiseStep(p, s, t) || CallStep(p, s, t) || ReturnStep(p, s, t) || ReenterStep(p, s, t) ||
    JumpStep(p, s, t) || UnwindStep(p, s, t) || CatchStep(p, s, t)
  }

  /** A program starts in some function, on live arguments of its parameter types. */
  ghost predicate Init(p: Program, s: State) {
    s.mode.Running? && s.dropped == {} && Closed(s.heap) && s.globals <= s.heap.Keys &&
    exists func: FuncId, args: seq<Word> ::
      func < |p| && ArgsAlive(s.heap, p[func], args) && s.stack == [EntryFrame(p, func, args)]
  }

  ghost predicate Run(p: Program, trace: seq<State>) {
    |trace| > 0 && Init(p, trace[0]) && forall i :: 0 <= i < |trace| - 1 ==> Step(p, trace[i], trace[i + 1])
  }

  /** A word that is safe to read: not a pointer, or a pointer to an object still in the heap. */
  predicate Intact(s: State, w: Word) {
    w.Ptr? ==> w.obj in s.heap && w.obj !in s.dropped
  }

  /** Whatever the next instruction reads, before or during its runtime call, is intact. */
  ghost predicate Safe(p: Program, s: State) {
    (s.mode.Running? || s.mode.InRuntime? || s.mode.Failing?) && s.stack != [] ==>
      InCode(p, Top(s)) &&
      forall l :: l in Reads(p, Top(s)) ==> l < |Top(s).locals| && Intact(s, Top(s).locals[l])
  }
}

/** No run of a verified program ever reads an object the collector dropped. */
module GcSafety {
  import opened Wrappers
  import opened Mir
  import opened LivenessSpec
  import opened GcMachine
  import opened Verify

  /** Every constant that could need boxing is in fact an immediate. */
  predicate ConstsAreImmediate(p: Program) {
    forall i, b, k :: 0 <= i < |p| && 0 <= b < |p[i].blocks| && 0 <= k < |p[i].blocks[b].insts| ==>
      !BoxesConst(p[i].blocks[b].insts[k], p[i].locals)
  }

  /** Whether a local's word is found by the collector, or is never a heap object. */
  ghost predicate Covered(f: Function, l: LocalId) {
    l in RootSet(f) || (l < |f.locals| && !IsGcRoot(f.locals[l]))
  }

  /** What the constant at `k` would let the collector take: live after it, holding objects, and without a slot. */
  ghost predicate Exposed(f: Function, b: BlockId, k: nat, l: LocalId)
    requires b < |f.blocks| && k < |f.blocks[b].insts|
  {
    BoxesConst(f.blocks[b].insts[k], f.locals) &&
    l in LiveAt(f, b, k + 1) - DstSet(f.blocks[b].insts[k]) && !Covered(f, l)
  }

  /** No boxed constant is live across by a local the collector cannot see. */
  ghost predicate BoxesAreCovered(p: Program) {
    forall i, b: BlockId, k: nat, l :: 0 <= i < |p| && b < |p[i].blocks| && k < |p[i].blocks[b].insts| ==>
      !Exposed(p[i], b, k, l)
  }

  lemma ImmediatesAreCovered(p: Program)
    requires ConstsAreImmediate(p)
    ensures BoxesAreCovered(p)
  {
  }

  // ---- the invariant ----

  ghost predicate HeapOk(s: State) {
    Closed(s.heap) && s.globals <= s.heap.Keys && s.heap.Keys !! s.dropped
  }

  /** Slots mirror exactly the rooted locals. */
  ghost predicate Mirrors(roots: set<LocalId>, locals: seq<Word>, slots: map<LocalId, Word>) {
    slots.Keys == roots && forall l :: l in slots ==> l < |locals| && slots[l] == locals[l]
  }

  /** A local that cannot hold a pointer holds none. */
  ghost predicate Typed(reprs: seq<Repr>, locals: seq<Word>) {
    |locals| == |reprs| && forall l :: 0 <= l < |reprs| && !IsGcRoot(reprs[l]) ==> locals[l] == Imm
  }

  ghost predicate FrameOk(p: Program, fr: Frame) {
    InCode(p, fr) && Typed(p[fr.func].locals, fr.locals) && Mirrors(RootSet(p[fr.func]), fr.locals, fr.slots)
  }

  ghost predicate RootsAlive(heap: map<Obj, set<Obj>>, fr: Frame) {
    forall l :: l in fr.slots ==> Objs(fr.slots[l]) <= heap.Keys
  }

  ghost predicate LiveLocalsAlive(p: Program, heap: map<Obj, set<Obj>>, fr: Frame)
    requires InCode(p, fr)
  {
    forall l :: l in LiveAt(p[fr.func], fr.block, fr.pc) ==> l < |fr.locals| && Objs(fr.locals[l]) <= heap.Keys
  }

  /** A suspended frame waits at the call that created the frame above it, or inside a runtime call that did. */
  ghost predicate Suspended(p: Program, fr: Frame, above: Frame) {
    AtInst(p, fr) && Collects(CurInst(p, fr), p[fr.func].locals) &&
    (CurInst(p, fr).Call? ==> CurInst(p, fr).func == above.func)
  }

  ghost predicate FramesOk(p: Program, heap: map<Obj, set<Obj>>, stack: seq<Frame>) {
    (forall i :: 0 <= i < |stack| ==> FrameOk(p, stack[i]) && RootsAlive(heap, stack[i])) &&
    (forall i :: 0 <= i < |stack| - 1 ==> Suspended(p, stack[i], stack[i + 1]))
  }

  ghost predicate ModeOk(p: Program, s: State)
    requires FramesOk(p, s.heap, s.stack)
  {
    match s.mode
    case Halted => true
    case Running => s.stack != [] && LiveLocalsAlive(p, s.heap, Top(s))
    case InRuntime => s.stack != [] && AtInst(p, Top(s)) && Collects(CurInst(p, Top(s)), p[Top(s).func].locals)
    case Failing => s.stack != [] && AtInst(p, Top(s)) && HasColdEdge(CurInst(p, Top(s)), p[Top(s).func].locals)
    case Unwinding => s.stack != []
  }

  ghost predicate Inv(p: Program, s: State) {
    HeapOk(s) && FramesOk(p, s.heap, s.stack) && ModeOk(p, s)
  }

  ghost predicate Admissible(p: Program) {
    VerifiedProgram(p) && BoxesAreCovered(p)
  }

  // ---- what verification says about the current instruction ----

  lemma AtVerifiedInst(p: Program, fr: Frame)
    requires Admissible(p) && AtInst(p, fr)
    ensures VerifyInst(p[fr.func], p, CurInst(p, fr))
    ensures InRange(p[fr.func])
    ensures InstInRange(CurInst(p, fr), |p[fr.func].locals|)
  {
    assert Verified(p[fr.func], p);
    assert VerifyBlock(p[fr.func], p, fr.block);
    VerifiedInRange(p[fr.func], p);
    VerifiedInstInRange(p[fr.func], p, CurInst(p, fr));
  }

  lemma AtVerifiedTerm(p: Program, fr: Frame)
    requires Admissible(p) && InCode(p, fr)
    ensures VerifyTerm(p[fr.func], FrameBlock(p, fr).term)
    ensures VerifyHandler(p[fr.func], fr.block, FrameBlock(p, fr).handler)
    ensures InRange(p[fr.func])
  {
    assert Verified(p[fr.func], p);
    assert VerifyBlock(p[fr.func], p, fr.block);
    VerifiedInRange(p[fr.func], p);
  }

  /** Reads of the next instruction or terminator are live. */
  lemma ReadsAreLive(p: Program, fr: Frame)
    requires InCode(p, fr)
    ensures Reads(p, fr) <= LiveAt(p[fr.func], fr.block, fr.pc)
  {
    if AtInst(p, fr) {
      LiveAtStep(p[fr.func], fr.block, fr.pc);
    }
  }

  /** What is live after the current instruction without being written by it. */
  ghost function Across(p: Program, fr: Frame): set<LocalId>
    requires AtInst(p, fr)
  {
    LiveAt(p[fr.func], fr.block, fr.pc + 1) - DstSet(CurInst(p, fr))
  }

  /** Across a collection, only rooted locals and pointer-free locals matter. */
  lemma RootedAcross(p: Program, fr: Frame, l: LocalId)
    requires Admissible(p) && AtInst(p, fr) && Collects(CurInst(p, fr), p[fr.func].locals)
    requires l in Uses(CurInst(p, fr)) || l in Across(p, fr)
    ensures l < |p[fr.func].locals|
    ensures l in RootSet(p[fr.func]) || !IsGcRoot(p[fr.func].locals[l])
  {
    hide VerifyInst, LiveAt, InRange, MayAllocate, IsGcRoot;
    var f := p[fr.func];
    AtVerifiedInst(p, fr);
    LiveAtInRange(f, fr.block, fr.pc + 1);
    if MayAllocate(CurInst(p, fr), f.locals) {
      CrossingIsRooted(f, fr.block, fr.pc, l);
    } else {
      assert !Exposed(f, fr.block, fr.pc, l);
    }
  }

  lemma CrossingIsRooted(f: Function, b: BlockId, i: nat, l: LocalId)
    requires CrossesAllocation(f, b, i, l) && l < |f.locals|
    ensures l in RootSet(f) || !IsGcRoot(f.locals[l])
  {
  }

  lemma RootedLocalAlive(p: Program, heap: map<Obj, set<Obj>>, fr: Frame, l: LocalId)
    requires FrameOk(p, fr) && RootsAlive(heap, fr) && l < |fr.locals|
    requires l in RootSet(p[fr.func]) || !IsGcRoot(p[fr.func].locals[l])
    ensures Objs(fr.locals[l]) <= heap.Keys
  {
  }

  /** Store-on-def keeps the mirror exact. */
  lemma DefineKeepsMirror(roots: set<LocalId>, reprs: seq<Repr>, heap: map<Obj, set<Obj>>, fr: Frame, l: LocalId,
        w: Word)
    requires Mirrors(roots, fr.locals, fr.slots) && Typed(reprs, fr.locals) && RootsAlive(heap, fr)
    requires l < |fr.locals| && (!IsGcRoot(reprs[l]) ==> w == Imm) && Objs(w) <= heap.Keys
    ensures Mirrors(roots, Define(fr, l, w).locals, Define(fr, l, w).slots)
    ensures Typed(reprs, Define(fr, l, w).locals) && RootsAlive(heap, Define(fr, l, w))
  {
    assert Define(fr, l, w).slots.Keys == fr.slots.Keys;
  }

  lemma DefineKeepsFrame(p: Program, heap: map<Obj, set<Obj>>, fr: Frame, o: Option<LocalId>, w: Word)
    requires FrameOk(p, fr) && RootsAlive(heap, fr) && AtInst(p, fr)
    requires o.Some? ==> o.value < |fr.locals| && (!IsGcRoot(p[fr.func].locals[o.value]) ==> w == Imm)
    requires Objs(w) <= heap.Keys
    ensures FrameOk(p, Next(DefineOpt(fr, o, w))) && RootsAlive(heap, Next(DefineOpt(fr, o, w)))
  {
    if o.Some? {
      DefineKeepsMirror(RootSet(p[fr.func]), p[fr.func].locals, heap, fr, o.value, w);
    }
  }

  ghost predicate AfterwardsAlive(p: Program, heap: map<Obj, set<Obj>>, fr: Frame)
    requires AtInst(p, fr)
  {
    forall l :: l in Across(p, fr) ==>
      l < |fr.locals| && Objs(fr.locals[l]) <= heap.Keys
  }

  /** After the current instruction wrote `w`, what is live next is still alive. */
  lemma DefineKeepsLive(p: Program, heap: map<Obj, set<Obj>>, fr: Frame, w: Word)
    requires FrameOk(p, fr) && AtInst(p, fr) && InRange(p[fr.func])
    requires Objs(w) <= heap.Keys
    requires AfterwardsAlive(p, heap, fr)
    ensures LiveLocalsAlive(p, heap, Next(DefineOpt(fr, Dst(CurInst(p, fr)), w)))
  {
    hide LiveAt, InRange, IsGcRoot, RootSet, Mirrors;
    LiveAtInRange(p[fr.func], fr.block, fr.pc + 1);
    var dst := Dst(CurInst(p, fr));
    var after := Next(DefineOpt(fr, dst, w));
    assert after.func == fr.func && after.block == fr.block && after.pc == fr.pc + 1;
    forall l | l in LiveAt(p[fr.func], fr.block, fr.pc + 1)
      ensures l < |after.locals| && Objs(after.locals[l]) <= heap.Keys
    {
      assert dst == Some(l) || l !in DstSet(CurInst(p, fr));
    }
  }

  // ---- every step keeps the invariant ----

  lemma GrowKeepsFrames(p: Program, heap: map<Obj, set<Obj>>, heap': map<Obj, set<Obj>>, stack: seq<Frame>)
    requires FramesOk(p, heap, stack) && heap.Keys <= heap'.Keys
    ensures FramesOk(p, heap', stack)
  {
    hide FrameOk, Suspended;
    forall i | 0 <= i < |stack|
      ensures RootsAlive(heap', stack[i])
    {
      assert RootsAlive(heap, stack[i]);
    }
  }

  /** Everything live after a collecting instruction, bar its result, survived it. */
  lemma SurvivorsAlive(p: Program, heap: map<Obj, set<Obj>>, fr: Frame)
    requires Admissible(p) && FrameOk(p, fr) && RootsAlive(heap, fr)
    requires AtInst(p, fr) && Collects(CurInst(p, fr), p[fr.func].locals)
    ensures AfterwardsAlive(p, heap, fr)
  {
    hide Admissible, Across, RootSet, Collects, Mirrors, RootsAlive, IsGcRoot;
    forall l | l in Across(p, fr)
      ensures l < |fr.locals| && Objs(fr.locals[l]) <= heap.Keys
    {
      RootedAcross(p, fr, l);
      RootedLocalAlive(p, heap, fr, l);
    }
  }

  lemma ReplaceTop(p: Program, heap: map<Obj, set<Obj>>, stack: seq<Frame>, fr: Frame)
    requires FramesOk(p, heap, stack) && stack != []
    requires FrameOk(p, fr) && RootsAlive(heap, fr) && fr.func == stack[|stack| - 1].func
    ensures FramesOk(p, heap, stack[|stack| - 1 := fr])
  {
    hide FrameOk, RootsAlive, Collects;
    var after := stack[|stack| - 1 := fr];
    forall i | 0 <= i < |after| - 1
      ensures Suspended(p, after[i], after[i + 1])
    {
      assert Suspended(p, stack[i], stack[i + 1]);
    }
  }

  ghost predicate ResultOk(f: Function, o: Option<LocalId>, heap: map<Obj, set<Obj>>, w: Word) {
    o.Some? ==> o.value < |f.locals| && (!IsGcRoot(f.locals[o.value]) ==> w == Imm) && Objs(w) <= heap.Keys
  }

  /** The operands of the next instruction are alive, and null where no pointer is held. */
  ghost predicate OperandsAlive(f: Function, heap: map<Obj, set<Obj>>, fr: Frame, inst: Inst) {
    forall l :: l in Operands(inst) ==>
      l < |f.locals| && Objs(Local(fr, l)) <= heap.Keys && (!IsGcRoot(f.locals[l]) ==> Local(fr, l) == Imm)
  }

  lemma RunningOperandsAlive(p: Program, s: State)
    requires Admissible(p) && Inv(p, s) && s.mode.Running? && AtInst(p, Top(s))
    ensures OperandsAlive(p[Top(s).func], s.heap, Top(s), CurInst(p, Top(s)))
  {
    AtVerifiedInst(p, Top(s));
    ReadsAreLive(p, Top(s));
    forall l | l in Operands(CurInst(p, Top(s)))
      ensures l in Reads(p, Top(s))
    {
    }
  }

  /** A store leaves the heap closed: its operands are alive. */
  lemma StoreKeepsClosed(s: State, heap': map<Obj, set<Obj>>, base: Word, value: Word)
    requires HeapOk(s) && Objs(value) <= s.heap.Keys && StoresInto(s.heap, heap', base, value)
    ensures Closed(heap') && heap'.Keys == s.heap.Keys
  {
  }

  /** What a load yields is alive. */
  lemma LoadIsAlive(s: State, base: Word, w: Word)
    requires HeapOk(s) && LoadsFrom(s, base, w)
    ensures Objs(w) <= s.heap.Keys
  {
  }

  /** A quiet instruction writes nothing dead and nothing mistyped. */
  lemma QuietResult(p: Program, f: Function, fr: Frame, s: State, inst: Inst, w: Word,
                    heap': map<Obj, set<Obj>>, globals': set<Obj>)
    requires VerifyInst(f, p, inst) && !Collects(inst, f.locals) && HeapOk(s)
    requires OperandsAlive(f, s.heap, fr, inst)
    requires QuietEffect(fr, s, inst, w, heap', globals')
    ensures Closed(heap') && heap'.Keys == s.heap.Keys && globals' <= heap'.Keys
    ensures ResultOk(f, Dst(inst), heap', w)
  {
    hide Collects, BinOpRepr, ConstFitsRepr, ClassifyCoercion, IsLegalCheckedCoercion, StoresInto, LoadsFrom, Closed;
    match inst
    case SetField(base, _, value) =>
      assert base in Operands(inst) && value in Operands(inst);
      StoreKeepsClosed(s, heap', Local(fr, base), Local(fr, value));
    case CellSet(cell, value) =>
      assert cell in Operands(inst) && value in Operands(inst);
      StoreKeepsClosed(s, heap', Local(fr, cell), Local(fr, value));
    case GlobalSet(_, value) => assert value in Operands(inst);
    case Coerce(_, src, _, _, _) => assert src in Operands(inst);
    case GetField(_, base, _) => LoadIsAlive(s, Local(fr, base), w);
    case CellGet(_, cell) => LoadIsAlive(s, Local(fr, cell), w);
    case _ =>
  }

  lemma NothingLost(p: Program, heap: map<Obj, set<Obj>>, heap': map<Obj, set<Obj>>, fr: Frame)
    requires FrameOk(p, fr) && AtInst(p, fr) && LiveLocalsAlive(p, heap, fr) && heap.Keys <= heap'.Keys
    ensures AfterwardsAlive(p, heap', fr)
  {
    hide LiveAt, FrameOk;
    LiveAtStep(p[fr.func], fr.block, fr.pc);
    forall l | l in Across(p, fr)
      ensures l < |fr.locals| && Objs(fr.locals[l]) <= heap'.Keys
    {
      assert l in LiveAt(p[fr.func], fr.block, fr.pc);
    }
  }

  /** Advancing the top frame over an instruction that lost nothing. */
  lemma AdvanceTop(p: Program, heap: map<Obj, set<Obj>>, stack: seq<Frame>, w: Word)
    requires Admissible(p) && FramesOk(p, heap, stack) && stack != []
    requires AtInst(p, stack[|stack| - 1]) && AfterwardsAlive(p, heap, stack[|stack| - 1])
    requires Objs(w) <= heap.Keys
    requires ResultOk(p[stack[|stack| - 1].func], Dst(CurInst(p, stack[|stack| - 1])), heap, w)
    ensures var fr' := Next(DefineOpt(stack[|stack| - 1], Dst(CurInst(p, stack[|stack| - 1])), w));
      FramesOk(p, heap, stack[|stack| - 1 := fr']) && LiveLocalsAlive(p, heap, fr')
  {
    var fr := stack[|stack| - 1];
    AtVerifiedInst(p, fr);
    DefineKeepsFrame(p, heap, fr, Dst(CurInst(p, fr)), w);
    DefineKeepsLive(p, heap, fr, w);
    ReplaceTop(p, heap, stack, Next(DefineOpt(fr, Dst(CurInst(p, fr)), w)));
  }

  lemma QuietAdvances(p: Program, s: State, w: Word, heap': map<Obj, set<Obj>>)
    requires Admissible(p) && Inv(p, s) && s.mode.Running? && AtInst(p, Top(s))
    requires heap'.Keys == s.heap.Keys && ResultOk(p[Top(s).func], Dst(CurInst(p, Top(s))), heap', w)
    ensures FramesOk(p, heap', SetTop(s, Next(DefineOpt(Top(s), Dst(CurInst(p, Top(s))), w))).stack)
    ensures LiveLocalsAlive(p, heap', Next(DefineOpt(Top(s), Dst(CurInst(p, Top(s))), w)))
  {
    hide LiveAt, NeedsRoot;
    GrowKeepsFrames(p, s.heap, heap', s.stack);
    NothingLost(p, s.heap, heap', Top(s));
    AdvanceTop(p, heap', s.stack, if Dst(CurInst(p, Top(s))).Some? then w else Imm);
  }

  lemma QuietKeepsInv(p: Program, s: State, t: State)
    requires Admissible(p) && Inv(p, s) && QuietStep(p, s, t)
    ensures Inv(p, t)
  {
    hide LiveAt, NeedsRoot, QuietEffect, FrameOk, VerifyInst;
    var fr, inst := Top(s), CurInst(p, Top(s));
    var w :| QuietEffect(fr, s, inst, w, t.heap, t.globals) &&
      t == SetTop(s, Next(DefineOpt(fr, Dst(inst), w))).(heap := t.heap, globals := t.globals);
    AtVerifiedInst(p, fr);
    RunningOperandsAlive(p, s);
    QuietResult(p, p[fr.func], fr, s, inst, w, t.heap, t.globals);
    QuietAdvances(p, s, w, t.heap);
  }

  lemma CollectKeepsInv(p: Program, s: State, t: State)
    requires Admissible(p) && Inv(p, s) && CollectStep(s, t)
    ensures Inv(p, t)
  {
    var drop :| Droppable(s, drop) && t == s.(heap := s.heap - drop, dropped := s.dropped + drop);
    forall i | 0 <= i < |s.stack|
      ensures RootsAlive(t.heap, s.stack[i])
    {
      var fr := s.stack[i];
      assert RootsAlive(s.heap, fr);
      forall l | l in fr.slots
        ensures Objs(fr.slots[l]) <= t.heap.Keys
      {
        forall o | o in Objs(fr.slots[l])
          ensures o in t.heap
        {
          assert o in FrameRoots(fr);
          assert o in Roots(s);
        }
      }
    }
    assert s.globals <= Roots(s);
  }

  lemma MutateKeepsInv(p: Program, s: State, t: State)
    requires Admissible(p) && Inv(p, s) && MutateStep(s, t)
    ensures Inv(p, t)
  {
    GrowKeepsFrames(p, s.heap, t.heap, s.stack);
  }

  lemma LeaveKeepsInv(p: Program, s: State, t: State)
    requires Admissible(p) && Inv(p, s) && LeaveStep(p, s, t)
    ensures Inv(p, t)
  {
    hide Admissible, FrameOk, RootsAlive, Collects, AfterwardsAlive, LiveLocalsAlive, VerifyInst;
    var fr, inst := Top(s), CurInst(p, Top(s));
    var f := p[fr.func];
    var w :| Objs(w) <= s.heap.Keys &&
      (Dst(inst).Some? && Dst(inst).value < |f.locals| && !IsGcRoot(f.locals[Dst(inst).value]) ==> w == Imm) &&
      t == SetTop(s, Next(DefineOpt(fr, Dst(inst), w))).(mode := Running);
    AtVerifiedInst(p, fr);
    SurvivorsAlive(p, s.heap, fr);
    AdvanceTop(p, s.heap, s.stack, w);
  }

  /** A new frame starts with its mirror in place and its live locals alive. */
  lemma EntryOk(p: Program, heap: map<Obj, set<Obj>>, func: FuncId, args: seq<Word>)
    requires Admissible(p) && func < |p| && ArgsAlive(heap, p[func], args)
    ensures FrameOk(p, EntryFrame(p, func, args)) && RootsAlive(heap, EntryFrame(p, func, args))
    ensures LiveLocalsAlive(p, heap, EntryFrame(p, func, args))
  {
    var f := p[func];
    assert Verified(f, p);
    VerifiedInRange(f, p);
    LiveAtInRange(f, f.entry, 0);
  }

  /** Call arguments are alive and of the callee's parameter types. */
  lemma ArgumentsOk(p: Program, f: Function, heap: map<Obj, set<Obj>>, fr: Frame, inst: Inst, i: nat)
    requires inst.Call? && VerifyInst(f, p, inst) && OperandsAlive(f, heap, fr, inst) && i < |inst.args|
    ensures Objs(ArgWords(fr, inst.args)[i]) <= heap.Keys
    ensures !IsGcRoot(p[inst.func].params[i]) ==> ArgWords(fr, inst.args)[i] == Imm
  {
    assert inst.args[i] in Operands(inst);
  }

  lemma PushKeepsFrames(p: Program, heap: map<Obj, set<Obj>>, stack: seq<Frame>, fr: Frame)
    requires FramesOk(p, heap, stack) && stack != [] && FrameOk(p, fr) && RootsAlive(heap, fr)
    requires Suspended(p, stack[|stack| - 1], fr)
    ensures FramesOk(p, heap, stack + [fr])
  {
    hide FrameOk, RootsAlive, Suspended;
    var after := stack + [fr];
    forall i | 0 <= i < |after| - 1
      ensures Suspended(p, after[i], after[i + 1])
    {
      assert i + 1 < |stack| ==> Suspended(p, stack[i], stack[i + 1]);
    }
  }

  lemma CallKeepsInv(p: Program, s: State, t: State)
    requires Admissible(p) && Inv(p, s) && CallStep(p, s, t)
    ensures Inv(p, t)
  {
    var fr, inst := Top(s), CurInst(p, Top(s));
    AtVerifiedInst(p, fr);
    RunningOperandsAlive(p, s);
    var args := ArgWords(fr, inst.args);
    forall i | 0 <= i < |args|
      ensures Objs(args[i]) <= s.heap.Keys && (!IsGcRoot(p[inst.func].params[i]) ==> args[i] == Imm)
    {
      ArgumentsOk(p, p[fr.func], s.heap, fr, inst, i);
    }
    EntryOk(p, s.heap, inst.func, args);
    PushKeepsFrames(p, s.heap, s.stack, EntryFrame(p, inst.func, args));
  }

  lemma PopKeepsFrames(p: Program, heap: map<Obj, set<Obj>>, stack: seq<Frame>)
    requires FramesOk(p, heap, stack) && stack != []
    ensures FramesOk(p, heap, stack[..|stack| - 1])
  {
    hide FrameOk, RootsAlive, Suspended;
    var after := stack[..|stack| - 1];
    forall i | 0 <= i < |after| - 1
      ensures Suspended(p, after[i], after[i + 1])
    {
      assert Suspended(p, stack[i], stack[i + 1]);
    }
  }

  /** A returned value is alive, and an immediate if the return type holds no pointer. */
  lemma ReturnedWord(p: Program, s: State)
    requires Admissible(p) && Inv(p, s) && s.mode.Running? && !AtInst(p, Top(s))
    requires FrameBlock(p, Top(s)).term.Return?
    ensures Objs(ResultWord(Top(s), FrameBlock(p, Top(s)).term.result)) <= s.heap.Keys
    ensures !IsGcRoot(p[Top(s).func].ret) ==> ResultWord(Top(s), FrameBlock(p, Top(s)).term.result) == Imm
  {
    var fr := Top(s);
    AtVerifiedTerm(p, fr);
    ReadsAreLive(p, fr);
    var o := FrameBlock(p, fr).term.result;
    if o.Some? {
      assert o.value in TermOperands(FrameBlock(p, fr).term);
      assert o.value in Reads(p, fr);
    }
  }

  /** The caller's rooted locals outlived the callee; its call result is alive and well typed. */
  lemma ResumeKeepsFrames(p: Program, heap: map<Obj, set<Obj>>, stack: seq<Frame>, callee: FuncId, w: Word)
    requires Admissible(p) && FramesOk(p, heap, stack) && stack != []
    requires AtInst(p, stack[|stack| - 1]) && CurInst(p, stack[|stack| - 1]).Call?
    requires CurInst(p, stack[|stack| - 1]).func == callee < |p|
    requires Objs(w) <= heap.Keys && (!IsGcRoot(p[callee].ret) ==> w == Imm)
    ensures FramesOk(p, heap, Resume(p, stack, w))
    ensures LiveLocalsAlive(p, heap, Resume(p, stack, w)[|stack| - 1])
  {
    var caller := stack[|stack| - 1];
    AtVerifiedInst(p, caller);
    SurvivorsAlive(p, heap, caller);
    AdvanceTop(p, heap, stack, w);
  }

  lemma ReturnKeepsInv(p: Program, s: State, t: State)
    requires Admissible(p) && Inv(p, s) && ReturnStep(p, s, t)
    ensures Inv(p, t)
  {
    hide Admissible, FrameOk, RootsAlive, LiveLocalsAlive, IsGcRoot;
    ReturnedWord(p, s);
    var w := ResultWord(Top(s), FrameBlock(p, Top(s)).term.result);
    PopKeepsFrames(p, s.heap, s.stack);
    if |s.stack| > 1 {
      assert Suspended(p, s.stack[|s.stack| - 2], s.stack[|s.stack| - 2 + 1]);
      if !CalledByRuntime(p, s) {
        ResumeKeepsFrames(p, s.heap, Pop(s), Top(s).func, w);
      }
    }
  }

  lemma ReenterKeepsInv(p: Program, s: State, t: State)
    requires Admissible(p) && Inv(p, s) && ReenterStep(p, s, t)
    ensures Inv(p, t)
  {
    hide Admissible, FrameOk, RootsAlive, LiveLocalsAlive, EntryFrame, Collects, ArgsAlive;
    var func: FuncId, args: seq<Word> :|
      func < |p| && ArgsAlive(s.heap, p[func], args) &&
      t == s.(stack := s.stack + [EntryFrame(p, func, args)], mode := Running);
    EntryOk(p, s.heap, func, args);
    PushKeepsFrames(p, s.heap, s.stack, EntryFrame(p, func, args));
  }

  lemma CatchKeepsInv(p: Program, s: State, t: State)
    requires Admissible(p) && Inv(p, s) && CatchStep(p, s, t)
    ensures Inv(p, t)
  {
    hide Admissible, FrameOk, RootsAlive, Collects;
    assert Suspended(p, s.stack[|s.stack| - 2], s.stack[|s.stack| - 2 + 1]);
    PopKeepsFrames(p, s.heap, s.stack);
  }

  /** A successor's live-ins are live at the jump. */
  lemma SuccessorLive(p: Program, heap: map<Obj, set<Obj>>, fr: Frame, b: BlockId)
    requires Admissible(p) && FrameOk(p, fr) && !AtInst(p, fr) && LiveLocalsAlive(p, heap, fr)
    requires b in TermTargets(FrameBlock(p, fr).term)
    ensures FrameOk(p, Goto(fr, b)) && LiveLocalsAlive(p, heap, Goto(fr, b))
  {
    var f := p[fr.func];
    AtVerifiedTerm(p, fr);
    LiveAtStart(f, b);
    assert Edge(f, fr.block, b);
    assert LiveIn(f, b) <= LiveOut(f, fr.block);
  }

  lemma JumpKeepsInv(p: Program, s: State, t: State)
    requires Admissible(p) && Inv(p, s) && JumpStep(p, s, t)
    ensures Inv(p, t)
  {
    var fr := Top(s);
    var b :| b in TermTargets(FrameBlock(p, fr).term) && t == SetTop(s, Goto(fr, b));
    SuccessorLive(p, s.heap, fr, b);
    ReplaceTop(p, s.heap, s.stack, Goto(fr, b));
  }

  /** A handler's live-ins are all rooted, so a jump from mid-block finds them alive. */
  lemma UnwindKeepsInv(p: Program, s: State, t: State)
    requires Admissible(p) && Inv(p, s) && UnwindStep(p, s, t)
    ensures Inv(p, t)
  {
    hide Admissible, VerifyTerm, LiveAt, Collects;
    var fr := Top(s);
    var f := p[fr.func];
    AtVerifiedTerm(p, fr);
    match FrameBlock(p, fr).handler
    case None => PopKeepsFrames(p, s.heap, s.stack);
    case Some(h) =>
      LiveAtStart(f, h);
      ReplaceTop(p, s.heap, s.stack, Goto(fr, h));
      forall l | l in LiveAt(f, h, 0)
        ensures l < |fr.locals| && Objs(fr.locals[l]) <= s.heap.Keys
      {
        assert LiveAtHandler(f, fr.block, l);
        RootedLocalAlive(p, s.heap, fr, l);
      }
  }

  lemma StepKeepsInv(p: Program, s: State, t: State)
    requires Admissible(p) && Inv(p, s) && Step(p, s, t)
    ensures Inv(p, t)
  {
    hide Admissible, FramesOk, LiveLocalsAlive, AtInst, Collects;
    if QuietStep(p, s, t) {
      QuietKeepsInv(p, s, t);
    } else if CollectStep(s, t) {
      CollectKeepsInv(p, s, t);
    } else if MutateStep(s, t) {
      MutateKeepsInv(p, s, t);
    } else if LeaveStep(p, s, t) {
      LeaveKeepsInv(p, s, t);
    } else if CallStep(p, s, t) {
      CallKeepsInv(p, s, t);
    } else if ReturnStep(p, s, t) {
      ReturnKeepsInv(p, s, t);
    } else if ReenterStep(p, s, t) {
      ReenterKeepsInv(p, s, t);
    } else if CatchStep(p, s, t) {
      CatchKeepsInv(p, s, t);
    } else if JumpStep(p, s, t) {
      JumpKeepsInv(p, s, t);
    } else if UnwindStep(p, s, t) {
      UnwindKeepsInv(p, s, t);
    }
  }

  lemma InitHasInv(p: Program, s: State)
    requires Admissible(p) && Init(p, s)
    ensures Inv(p, s)
  {
    var func: FuncId, args: seq<Word> :|
      func < |p| && ArgsAlive(s.heap, p[func], args) && s.stack == [EntryFrame(p, func, args)];
    EntryOk(p, s.heap, func, args);
  }

  lemma InvIsSafe(p: Program, s: State)
    requires Admissible(p) && Inv(p, s)
    ensures Safe(p, s)
  {
    if (s.mode.Running? || s.mode.InRuntime? || s.mode.Failing?) && s.stack != [] {
      var fr := Top(s);
      ReadsAreLive(p, fr);
      forall l | l in Reads(p, fr)
        ensures l < |fr.locals| && Intact(s, fr.locals[l])
      {
        if !s.mode.Running? {
          AtVerifiedInst(p, fr);
          if s.mode.InRuntime? {
            RootedAcross(p, fr, l);
          }
          RootedLocalAlive(p, s.heap, fr, l);
        }
      }
    }
  }

  lemma {:induction false} RunHasInv(p: Program, trace: seq<State>, i: nat)
    requires Admissible(p) && Run(p, trace) && i < |trace|
    ensures Inv(p, trace[i])
  {
    if i == 0 {
      InitHasInv(p, trace[0]);
    } else {
      RunHasInv(p, trace, i - 1);
      assert Step(p, trace[i - 1], trace[i - 1 + 1]);
      StepKeepsInv(p, trace[i - 1], trace[i]);
    }
  }

  /**
   GC safety: with the root slots the liveness analysis chooses and store-on-def,
   in every state of every run, whatever is read next is still in the heap.
   */
  lemma NoReadOfDropped(p: Program, trace: seq<State>, i: nat)
    requires VerifiedProgram(p) && BoxesAreCovered(p)
    requires Run(p, trace) && i < |trace|
    ensures Safe(p, trace[i])
  {
    RunHasInv(p, trace, i);
    InvIsSafe(p, trace[i]);
  }
}

/** How the machine's collector relates to mark-sweep, and what an out-of-range constant breaks. */
module GcLimits {
  import opened Wrappers
  import opened Mir
  import opened LivenessSpec
  import opened GcMachine
  import opened Verify
  import GcSafety

  // ---- the collector model covers mark and sweep ----

  ghost predicate MarkPath(s: State, path: seq<Obj>) {
    |path| > 0 && path[0] in Roots(s) &&
    forall i :: 0 <= i < |path| - 1 ==> path[i] in s.heap && path[i + 1] in s.heap[path[i]]
  }

  ghost predicate Marked(s: State, o: Obj) {
    exists path :: MarkPath(s, path) && path[|path| - 1] == o
  }

  lemma {:induction false} DroppedIsUnmarked(s: State, drop: set<Obj>, path: seq<Obj>)
    requires Droppable(s, drop) && MarkPath(s, path)
    ensures path[|path| - 1] !in drop
    decreases |path|
  {
    if |path| <= 1 {
    } else {
      var init := path[..|path| - 1];
      assert MarkPath(s, init);
      DroppedIsUnmarked(s, drop, init);
      assert path[|path| - 2] in s.heap - drop;
      assert path[|path| - 1] in s.heap[path[|path| - 2]];
    }
  }

  /** Sweeping everything unmarked is allowed, and nothing marked is ever dropped. */
  lemma {:induction false} SweepIsDroppable(s: State)
    requires Closed(s.heap)
    ensures Droppable(s, set o | o in s.heap && !Marked(s, o))
    ensures forall drop, o :: Droppable(s, drop) && o in drop ==> !Marked(s, o)
  {
    hide Roots, FrameRoots;
    var drop := set o | o in s.heap && !Marked(s, o);
    forall o | o in Roots(s)
      ensures Marked(s, o)
    {
      assert MarkPath(s, [o]) && [o][|[o]| - 1] == o;
    }
    forall o, q | o in s.heap - drop && q in s.heap[o]
      ensures q in s.heap - drop
    {
      var path :| MarkPath(s, path) && path[|path| - 1] == o;
      var longer := path + [q];
      assert MarkPath(s, longer) && longer[|longer| - 1] == q;
    }
    forall d, o | Droppable(s, d) && o in d
      ensures !Marked(s, o)
    {
      if Marked(s, o) {
        var path :| MarkPath(s, path) && path[|path| - 1] == o;
        DroppedIsUnmarked(s, d, path);
      }
    }
  }

  // ---- without coverage a boxed constant costs a live object ----

  ghost function Swept(s: State): State {
    var drop := set o | o in s.heap && !Marked(s, o);
    s.(heap := s.heap - drop, dropped := s.dropped + drop)
  }

  /** The boxed constant is in, whatever it is, and the next instruction is up. */
  function AfterBoxing(p: Program, s: State): State {
    if s.stack == [] || !AtInst(p, Top(s)) then s
    else SetTop(s, Next(DefineOpt(Top(s), Dst(CurInst(p, Top(s))), Imm))).(mode := Running)
  }

  /** The local is live after the instruction, and its object is referred to by nothing the collector sees. */
  ghost predicate Clings(p: Program, s: State, l: LocalId, o: Obj) {
    s.stack != [] && AtInst(p, Top(s)) &&
    l in LiveAt(p[Top(s).func], Top(s).block, Top(s).pc + 1) - DstSet(CurInst(p, Top(s))) &&
    l < |Top(s).locals| && Top(s).locals[l] == Ptr(o) && o in s.heap && !Marked(s, o)
  }

  /** The next instruction is a constant that must be boxed and exposes the local. */
  ghost predicate AtExposing(p: Program, s: State, l: LocalId) {
    s.mode.Running? && s.stack != [] && AtInst(p, Top(s)) &&
    GcSafety.Exposed(p[Top(s).func], Top(s).block, Top(s).pc, l)
  }

  /** Some local is live and its object is gone. */
  ghost predicate LosesLive(p: Program, s: State) {
    s.stack != [] && InCode(p, Top(s)) && !GcSafety.LiveLocalsAlive(p, s.heap, Top(s))
  }

  /**
   Coverage is needed as well as enough: at a constant that exposes a local, if the local holds an object only it
   refers to, then boxing, collecting and returning leaves that object gone and the local live.
   */
  lemma ExposedIsLost(p: Program, s: State, l: LocalId, o: Obj)
    requires AtExposing(p, s, l) && Closed(s.heap) && Clings(p, s, l, o)
    ensures var inside := s.(mode := InRuntime);
      var swept := Swept(inside);
      Step(p, s, inside) && Step(p, inside, swept) && Step(p, swept, AfterBoxing(p, swept)) &&
      LosesLive(p, AfterBoxing(p, swept))
  {
    hide LiveAt, Marked, Step, AfterBoxing, Swept, LosesLive, GcSafety.Covered;
    var inside := s.(mode := InRuntime);
    EnterBoxing(p, s);
    SameMarks(s, inside);
    SweepSteps(p, inside);
    SweptStack(inside);
    LeaveBoxing(p, Swept(inside));
    LosesLocal(p, inside, l, o);
  }

  lemma EnterBoxing(p: Program, s: State)
    requires s.mode.Running? && s.stack != [] && AtInst(p, Top(s))
    requires BoxesConst(CurInst(p, Top(s)), p[Top(s).func].locals)
    ensures Step(p, s, s.(mode := InRuntime))
  {
    assert EnterStep(p, s, s.(mode := InRuntime));
  }

  lemma SweptStack(s: State)
    ensures Swept(s).stack == s.stack && Swept(s).mode == s.mode
  {
  }

  lemma SweepSteps(p: Program, s: State)
    requires s.mode.InRuntime? && Closed(s.heap)
    ensures Step(p, s, Swept(s))
  {
    hide Marked, Droppable;
    SweepIsDroppable(s);
    assert CollectStep(s, Swept(s)) by {
      var drop := set x | x in s.heap && !Marked(s, x);
      assert Droppable(s, drop);
    }
  }

  lemma LeaveBoxing(p: Program, s: State)
    requires s.mode.InRuntime? && s.stack != [] && AtInst(p, Top(s)) && CurInst(p, Top(s)).Const?
    ensures Step(p, s, AfterBoxing(p, s))
  {
    assert LeaveStep(p, s, AfterBoxing(p, s)) by {
      assert Objs(Imm) <= s.heap.Keys;
    }
  }

  /** The swept local is live while its object is gone. */
  lemma LosesLocal(p: Program, s: State, l: LocalId, o: Obj)
    requires Closed(s.heap) && Clings(p, s, l, o)
    ensures LosesLive(p, AfterBoxing(p, Swept(s)))
  {
    hide LiveAt, Marked;
    var after := Top(AfterBoxing(p, Swept(s)));
    assert l in LiveAt(p[after.func], after.block, after.pc);
    assert after.locals[l] == Ptr(o) && o !in Swept(s).heap;
  }

  lemma SameMarks(s: State, t: State)
    requires t == s.(mode := InRuntime)
    ensures forall o :: Marked(s, o) <==> Marked(t, o)
  {
    assert Roots(s) == Roots(t);
    assert forall path :: MarkPath(s, path) <==> MarkPath(t, path);
  }

  // ---- a run that loses one ----

  const BIG: I64 := 0x1000_0000_0000_0000

  /** A string stays live across a tagged constant one above the fixnum range. */
  function BoxingFunction(): Function {
    Function([], Tagged, [Heap(Str), Tagged, Tagged],
             [Block([Const(0, StrLit(0)), Const(1, IntLit(BIG)), Coerce(2, 0, Heap(Str), Tagged, false)],
                    Return(None), None)], 0)
  }

  lemma BoxingLiveness()
    ensures LiveAt(BoxingFunction(), 0, 1) == {0}
  {
    var f := BoxingFunction();
    assert LiveAt(f, 0, 3) == {} by {
      assert LiveOut(f, 0) == {};
    }
    hide LiveAt;
    LiveAtStep(f, 0, 1);
    LiveAtStep(f, 0, 2);
  }

  lemma BoxingFunctionHasNoRoots()
    ensures RootSet(BoxingFunction()) == {}
  {
    var f := BoxingFunction();
    BoxingLiveness();
    forall l, b: BlockId, i: nat
      ensures !CrossesAllocation(f, b, i, l)
    {
      if b == 0 && i < 3 {
        assert i == 0 || i == 1 || i == 2;
      }
    }
    forall b: BlockId, l
      ensures !LiveAtHandler(f, b, l)
    {
    }
  }

  lemma BoxingFunctionIsVerified()
    ensures VerifiedProgram([BoxingFunction()])
  {
    assert VerifyBlock(BoxingFunction(), [BoxingFunction()], 0);
  }

  lemma BoxingFunctionExposes()
    ensures GcSafety.Exposed(BoxingFunction(), 0, 1, 0) && !GcSafety.BoxesAreCovered([BoxingFunction()])
  {
    hide RootSet;
    LiveAtStep(BoxingFunction(), 0, 2);
    assert LiveOut(BoxingFunction(), 0) == {};
    BoxingFunctionHasNoRoots();
    assert GcSafety.Exposed([BoxingFunction()][0], 0, 1, 0);
  }

  /** The frame before, between and after the two collecting constants. */
  function BoxingFrame(pc: nat): Frame {
    Frame(0, 0, pc, [if pc == 0 then Imm else Ptr(0), Imm, Imm], map[])
  }

  function BoxingState(mode: Mode, pc: nat, heap: map<Obj, set<Obj>>, dropped: set<Obj>): State {
    State(mode, [BoxingFrame(pc)], heap, {}, dropped)
  }

  function BoxingAt(i: nat): State {
    if i == 0 then BoxingState(Running, 0, map[], {})
    else if i == 1 then BoxingState(InRuntime, 0, map[], {})
    else if i == 2 then BoxingState(InRuntime, 0, map[0 := {}], {})
    else if i == 3 then BoxingState(Running, 1, map[0 := {}], {})
    else if i == 4 then BoxingState(InRuntime, 1, map[0 := {}], {})
    else if i == 5 then BoxingState(InRuntime, 1, map[], {0})
    else BoxingState(Running, 2, map[], {0})
  }

  function BoxingTrace(): seq<State> {
    seq(7, i requires 0 <= i < 7 => BoxingAt(i))
  }

  lemma BoxingInit()
    ensures Init([BoxingFunction()], BoxingState(Running, 0, map[], {}))
  {
    BoxingFunctionHasNoRoots();
    var args: seq<Word> := [];
    assert EntryFrame([BoxingFunction()], 0, args) == BoxingFrame(0);
  }

  lemma BoxingEnter(pc: nat, heap: map<Obj, set<Obj>>)
    requires pc < 2
    ensures Step([BoxingFunction()], BoxingState(Running, pc, heap, {}), BoxingState(InRuntime, pc, heap, {}))
  {
    assert EnterStep([BoxingFunction()], BoxingState(Running, pc, heap, {}), BoxingState(InRuntime, pc, heap, {}));
  }

  lemma BoxingAllocate()
    ensures Step([BoxingFunction()], BoxingState(InRuntime, 0, map[], {}), BoxingState(InRuntime, 0, map[0 := {}], {}))
  {
    assert MutateStep(BoxingState(InRuntime, 0, map[], {}), BoxingState(InRuntime, 0, map[0 := {}], {}));
  }

  lemma BoxingLeave(pc: nat, w: Word, heap: map<Obj, set<Obj>>, dropped: set<Obj>)
    requires (pc == 0 && w == Ptr(0)) || (pc == 1 && w == Imm)
    requires Objs(w) <= heap.Keys
    ensures Step([BoxingFunction()], BoxingState(InRuntime, pc, heap, dropped),
                 BoxingState(Running, pc + 1, heap, dropped))
  {
    var p, s := [BoxingFunction()], BoxingState(InRuntime, pc, heap, dropped);
    var fr := BoxingFrame(pc);
    var dst := Dst(CurInst(p, fr));
    assert dst == Some(pc);
    assert fr.locals[pc := w] == BoxingFrame(pc + 1).locals;
    assert Next(DefineOpt(fr, dst, w)) == BoxingFrame(pc + 1);
    assert [fr][0 := BoxingFrame(pc + 1)] == [BoxingFrame(pc + 1)];
    assert SetTop(s, BoxingFrame(pc + 1)).(mode := Running) == BoxingState(Running, pc + 1, heap, dropped);
    assert LeaveStep(p, s, BoxingState(Running, pc + 1, heap, dropped));
  }

  lemma BoxingCollect()
    ensures Step([BoxingFunction()], BoxingState(InRuntime, 1, map[0 := {}], {}), BoxingState(InRuntime, 1, map[], {0}))
  {
    var s := BoxingState(InRuntime, 1, map[0 := {}], {});
    assert FrameRoots(BoxingFrame(1)) == {};
    assert Droppable(s, {0}) && s.heap - {0} == map[];
    assert CollectStep(s, BoxingState(InRuntime, 1, map[], {0}));
  }

  lemma BoxingIsUnsafe()
    ensures !Safe([BoxingFunction()], BoxingState(Running, 2, map[], {0}))
  {
    assert 0 in Reads([BoxingFunction()], BoxingFrame(2));
  }

  lemma BoxingStep(i: nat)
    requires i < 6
    ensures Step([BoxingFunction()], BoxingAt(i), BoxingAt(i + 1))
  {
    hide Step, BoxingFunction, BoxingState;
    if i == 0 {
      BoxingEnter(0, map[]);
    } else if i == 1 {
      BoxingAllocate();
    } else if i == 2 {
      BoxingLeave(0, Ptr(0), map[0 := {}], {});
    } else if i == 3 {
      BoxingEnter(1, map[0 := {}]);
    } else if i == 4 {
      BoxingCollect();
    } else {
      BoxingLeave(1, Imm, map[], {0});
    }
  }

  /** The object is collected while the constant is boxed, and is then read. */
  lemma {:induction false} BoxedConstLosesObject()
    ensures VerifiedProgram([BoxingFunction()]) && !GcSafety.BoxesAreCovered([BoxingFunction()])
    ensures Run([BoxingFunction()], BoxingTrace())
    ensures !Safe([BoxingFunction()], BoxingTrace()[6])
  {
    hide Step, Init, Safe, VerifiedProgram, BoxingFunction, BoxingState, GcSafety.BoxesAreCovered;
    BoxingFunctionIsVerified();
    BoxingFunctionExposes();
    BoxingInit();
    BoxingIsUnsafe();
    forall i | 0 <= i < 6
      ensures Step([BoxingFunction()], BoxingTrace()[i], BoxingTrace()[i + 1])
    {
      BoxingStep(i);
    }
  }
}
