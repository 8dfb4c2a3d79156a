/**
 Where the generated code can collect, told from what its instructions call. The plain entries of the runtime are
 loads, stores, type tests and float arithmetic, which allocate nothing; every other entry may. An instruction can
 collect when what it does depends on such an entry, or when it yields an object it neither loaded nor was given.
 */
module AllocationTable {
  import opened Wrappers
  import opened Mir
  import opened Verify
  import opened Semantics
  import opened TypeSafety
  import ReadTable
  import GcMachine

  /** A word that points into the collected heap. */
  predicate IsObject(w: Word) {
    w.FloatBox? || w.Big? || w.StrObj? || w.BytesObj? || w.Obj?
  }

  function SomeObject(r: Repr): (w: Word)
    requires IsGcRoot(r)
    ensures HasRepr(w, r) && IsObject(w)
  {
    match r
    case Tagged => StrObj(0)
    case Heap(shape) => ReadTable.ObjectOf(shape)
    case Closure(sig) => Obj(0, ClosureK(sig))
  }

  /** A representation is a root representation exactly when a word of it can point into the heap. */
  lemma RootsHoldObjects(r: Repr)
    ensures IsGcRoot(r) <==> exists w :: HasRepr(w, r) && IsObject(w)
  {
    if IsGcRoot(r) {
      var w := SomeObject(r);
      assert HasRepr(w, r) && IsObject(w);
    }
  }

  // ---- what depends on an allocating entry ----

  /** The two runtimes differ at most in entries that may allocate. */
  ghost predicate SamePlain<W>(rt: Runtime<W>, rt': Runtime<W>) {
    rt'.junk == rt.junk && rt'.fp == rt.fp && rt'.loadFloat == rt.loadFloat && rt'.shiftInt == rt.shiftInt &&
    rt'.shiftBool == rt.shiftBool && rt'.getField == rt.getField && rt'.setField == rt.setField &&
    rt'.isInstance == rt.isInstance && rt'.cellGet == rt.cellGet && rt'.cellSet == rt.cellSet &&
    rt'.globalGet == rt.globalGet && rt'.globalSet == rt.globalSet && rt'.mark == rt.mark
  }

  /** The cold edge: the two runtimes raise alike on overflow. */
  ghost predicate SameCold<W>(rt: Runtime<W>, rt': Runtime<W>) {
    rt'.rawOverflow == rt.rawOverflow
  }

  /** The object yielded was loaded, or is the operand of a bridge between two pointers. */
  predicate Known(inst: Inst, locals: Locals, word: Word) {
    inst.GetField? || inst.CellGet? || inst.GlobalGet? ||
    (inst.Coerce? && IsGcRoot(inst.from) && IsGcRoot(inst.to) && word == Read(locals, inst.src))
  }

  /** What it does here tells two runtimes apart by an allocating entry, or it makes an object of its own. */
  ghost predicate Allocates<W(!new)>(rt: Runtime<W>, rt': Runtime<W>, f: Function, inst: Inst, locals: Locals, w: W) {
    var e, e' := Compute(rt, f.locals, inst, locals, w).effect, Compute(rt', f.locals, inst, locals, w).effect;
    e != e' || (e.Yields? && IsObject(e.word) && !Known(inst, locals, e.word))
  }

  // ---- what the table leaves out does not allocate ----

  lemma QuietCoerce<W(!new)>(rt: Runtime<W>, rt': Runtime<W>, f: Function, p: seq<Function>, inst: Inst, locals: Locals,
        w: W)
    requires VerifyInst(f, p, inst) && inst.Coerce? && !GcMachine.Collects(inst, f.locals)
    requires WellTyped(f.locals, locals) && SamePlain(rt, rt')
    ensures !Allocates(rt, rt', f, inst, locals, w)
  {
    hide HasShape;
    assert HasRepr(Read(locals, inst.src), inst.from);
  }

  lemma QuietOperator<W(!new)>(rt: Runtime<W>, rt': Runtime<W>, f: Function, p: seq<Function>, inst: Inst,
        locals: Locals, w: W)
    requires VerifyInst(f, p, inst) && (inst.BinOp? || inst.Compare? || inst.Unary? || inst.Truthy?)
    requires !GcMachine.Collects(inst, f.locals) && SamePlain(rt, rt') && SameCold(rt, rt')
    ensures !Allocates(rt, rt', f, inst, locals, w)
  {
  }

  lemma QuietOther<W(!new)>(rt: Runtime<W>, rt': Runtime<W>, f: Function, p: seq<Function>, inst: Inst,
        locals: Locals, w: W)
    requires VerifyInst(f, p, inst) && !GcMachine.Collects(inst, f.locals) && SamePlain(rt, rt')
    requires !(inst.Coerce? || inst.BinOp? || inst.Compare? || inst.Unary? || inst.Truthy?)
    ensures !Allocates(rt, rt', f, inst, locals, w)
  {
  }

  /** An instruction the table calls quiet does the same under any two runtimes with the same plain entries. */
  lemma QuietAllocatesNothing<W(!new)>(rt: Runtime<W>, rt': Runtime<W>, f: Function, p: seq<Function>, inst: Inst,
        locals: Locals, w: W)
    requires VerifyInst(f, p, inst) && !GcMachine.Collects(inst, f.locals) && WellTyped(f.locals, locals)
    requires SamePlain(rt, rt') && SameCold(rt, rt')
    ensures !Allocates(rt, rt', f, inst, locals, w)
  {
    hide VerifyInst, GcMachine.Collects, Allocates, SamePlain, SameCold, Compute, WellTyped;
    match inst
    case Coerce(_, _, _, _, _) => QuietCoerce(rt, rt', f, p, inst, locals, w);
    case BinOp(_, _, _, _) => QuietOperator(rt, rt', f, p, inst, locals, w);
    case Compare(_, _, _, _) => QuietOperator(rt, rt', f, p, inst, locals, w);
    case Unary(_, _, _) => QuietOperator(rt, rt', f, p, inst, locals, w);
    case Truthy(_, _) => QuietOperator(rt, rt', f, p, inst, locals, w);
    case _ => QuietOther(rt, rt', f, p, inst, locals, w);
  }

  /** What can raise on overflow has a cold edge. */
  lemma OnlyColdEdgesOverflow<W(!new)>(rt: Runtime<W>, rt': Runtime<W>, f: Function, p: seq<Function>, inst: Inst,
        locals: Locals, w: W)
    requires VerifyInst(f, p, inst) && !GcMachine.Collects(inst, f.locals) && WellTyped(f.locals, locals)
    requires SamePlain(rt, rt') && Allocates(rt, rt', f, inst, locals, w)
    ensures GcMachine.HasColdEdge(inst, f.locals)
  {
    var same := rt'.(rawOverflow := rt.rawOverflow);
    QuietAllocatesNothing(rt, same, f, p, inst, locals, w);
    hide VerifyInst, GcMachine.Collects, HasShape;
  }

  // ---- what the table names does ----

  /** Every entry that may allocate raises and stamps the world; the plain ones do nothing. */
  function Stamped(stamp: nat): Runtime<nat> {
    Runtime(
      Junk(NoneW, 0, Ieee(0), false),
      FloatOps((x, _) => x, (x, _) => x, (x, _) => x, (x, _) => x, x => x, (_, _, _) => true, Ieee(0)),
      (_, _, _, _) => Raised(stamp),
      (_, _, _) => Raised(stamp),
      (_, _, _, _) => Raised(stamp),
      (_, _) => Raised(stamp),
      (_, _) => Raised(stamp),
      (_, _) => Raised(stamp),
      (_, _) => Raised(stamp),
      (_, _, _) => Raised(stamp),
      _ => Ieee(0),
      _ => 0,
      _ => false,
      (_, _, _) => Raised(stamp),
      (_, _, _) => NoneW,
      (_, _, _) => Raised(stamp),
      (_, _, _, w) => w,
      (_, _, _, _) => Raised(stamp),
      (_, _, _) => Raised(stamp),
      (_, _, _) => false,
      (_, _) => NoneW,
      (_, _, w) => w,
      (_, _) => NoneW,
      (_, _, w) => w,
      (_, _, _) => Raised(stamp),
      (_, _, _) => stamp,
      _ => stamp,
      _ => stamp,
      (_, _, _, w) => w,
      (_, w) => w)
  }

  ghost predicate CanAllocate(f: Function, inst: Inst) {
    exists locals :: WellTyped(f.locals, locals) && Allocates(Stamped(1), Stamped(2), f, inst, locals, 0)
  }

  /** Boxing an integer allocates when it does not fit the tag. */
  function Boxing(f: Function, inst: Inst): Locals
    requires inst.Coerce? && Has(f, inst.src, Raw(I64))
  {
    ReadTable.Zeroes(f.locals)[inst.src := RawI64(0x7FFF_FFFF_FFFF_FFFF)]
  }

  lemma TagIntAllocates(f: Function, p: seq<Function>, inst: Inst)
    requires VerifyInst(f, p, inst) && inst.Coerce? && !inst.checked
    requires ClassifyCoercion(inst.from, inst.to) == Some(TagInt)
    ensures CanAllocate(f, inst)
  {
    ReadTable.ZeroesTyped(f.locals);
    var locals := Boxing(f, inst);
    hide ReadTable.Zeroes, HasShape;
    assert WellTyped(f.locals, locals);
    assert Read(locals, inst.src) == RawI64(0x7FFF_FFFF_FFFF_FFFF);
    assert !Tagging.IntFits(0x7FFF_FFFF_FFFF_FFFF);
    assert Allocates(Stamped(1), Stamped(2), f, inst, locals, 0);
  }

  ghost predicate ZeroesAllocate(f: Function, inst: Inst) {
    Allocates(Stamped(1), Stamped(2), f, inst, ReadTable.Zeroes(f.locals), 0)
  }

  lemma CoerceAllocates(f: Function, p: seq<Function>, inst: Inst)
    requires VerifyInst(f, p, inst) && inst.Coerce? && GcMachine.Collects(inst, f.locals)
    requires inst.checked || ClassifyCoercion(inst.from, inst.to) != Some(TagInt)
    ensures ZeroesAllocate(f, inst)
  {
    hide HasShape;
  }

  lemma TaggedOperatorAllocates(f: Function, p: seq<Function>, inst: Inst)
    requires VerifyInst(f, p, inst) && (inst.BinOp? || inst.Compare?) && !f.locals[inst.l].Raw?
    ensures ZeroesAllocate(f, inst)
  {
    hide HasShape, RawIntBin, RawFloatBin, IntOp, CmpInt;
  }

  lemma SingleAllocates(f: Function, p: seq<Function>, inst: Inst)
    requires VerifyInst(f, p, inst) && (inst.Unary? || inst.Truthy?) && GcMachine.Collects(inst, f.locals)
    ensures ZeroesAllocate(f, inst)
  {
    hide HasShape;
  }

  /** Raw division by zero raises through the runtime. */
  lemma DivisionAllocates(f: Function, p: seq<Function>, inst: Inst)
    requires VerifyInst(f, p, inst) && inst.BinOp? && f.locals[inst.l].Raw? && GcMachine.Collects(inst, f.locals)
    ensures ZeroesAllocate(f, inst)
  {
    hide HasShape, RawIntBin, TaggedBin;
  }

  lemma OtherAllocates(f: Function, p: seq<Function>, inst: Inst)
    requires VerifyInst(f, p, inst) && GcMachine.Collects(inst, f.locals) && !inst.Call?
    requires !(inst.Coerce? || inst.BinOp? || inst.Compare? || inst.Unary? || inst.Truthy?)
    ensures ZeroesAllocate(f, inst)
  {
    hide HasShape, Printed, Carried, ValuesAt;
  }

  lemma CollectingAllocates(f: Function, p: seq<Function>, inst: Inst)
    requires VerifyInst(f, p, inst) && GcMachine.Collects(inst, f.locals) && !inst.Call?
    ensures CanAllocate(f, inst)
  {
    if inst.Coerce? && !inst.checked && ClassifyCoercion(inst.from, inst.to) == Some(TagInt) {
      TagIntAllocates(f, p, inst);
    } else {
      match inst {
        case Coerce(_, _, _, _, _) => CoerceAllocates(f, p, inst);
        case BinOp(_, _, l, _) =>
          if f.locals[l].Raw? {
            DivisionAllocates(f, p, inst);
          } else {
            TaggedOperatorAllocates(f, p, inst);
          }
        case Compare(_, _, _, _) => TaggedOperatorAllocates(f, p, inst);
        case Unary(_, _, _) => SingleAllocates(f, p, inst);
        case Truthy(_, _) => SingleAllocates(f, p, inst);
        case _ => OtherAllocates(f, p, inst);
      }
      ReadTable.ZeroesTyped(f.locals);
      hide Allocates, WellTyped;
    }
  }

  /**
   The allocation table, with the boxed constants it misses, is exact: an instruction other than a call is in it exactly
   when in some well-typed state it calls an entry that may allocate, or makes an object itself.
   */
  lemma CollectsExactly(f: Function, p: seq<Function>, inst: Inst)
    requires VerifyInst(f, p, inst) && !inst.Call?
    ensures GcMachine.Collects(inst, f.locals) <==> CanAllocate(f, inst)
  {
    hide VerifyInst, GcMachine.Collects, Allocates;
    if GcMachine.Collects(inst, f.locals) {
      CollectingAllocates(f, p, inst);
    } else if CanAllocate(f, inst) {
      var locals :| WellTyped(f.locals, locals) && Allocates(Stamped(1), Stamped(2), f, inst, locals, 0);
      QuietAllocatesNothing(Stamped(1), Stamped(2), f, p, inst, locals, 0);
    }
  }
}
