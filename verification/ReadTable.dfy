/**
 On verified code the tables are exact, not just safe: a local is an operand exactly when what the instruction does
 can depend on it, and an instruction has side effects exactly when it can be noticed.
 */
module ReadTable {
  import opened Wrappers
  import opened Mir
  import opened BitOps
  import opened Verify
  import opened Semantics
  import opened TypeSafety
  import opened EffectTables

  // ---- a runtime that tells what it was given ----

  function Recorded(s: Shown): seq<Word> {
    match s
    case ShowNothing => []
    case ShowValue(v) => [v]
    case ShowInt(i) => [RawI64(i)]
    case ShowFloat(x) => [RawF64(x)]
    case ShowBit(b) => [BoolW(b)]
  }

  function Sum(x: Ieee, y: Ieee): Ieee {
    Ieee(x.bits + y.bits)
  }

  /** Every function that may raise does, leaving its arguments as the world; the others tell null from the rest. */
  function Recorder(): Runtime<seq<Word>> {
    Runtime(
      Junk(NoneW, 0, Ieee(0), false),
      FloatOps(Sum, Sum, Sum, Sum, (x: Ieee) => x, (_, x: Ieee, y: Ieee) => x.bits + y.bits == 0, Ieee(0)),
      (_, a, b, _) => Raised([a, b]),
      (_, v, _) => Raised([v]),
      (_, a, b, _) => Raised([a, b]),
      (v, _) => Raised([v]),
      (v, _) => Raised([v]),
      (v, _) => Raised([v]),
      (v, _) => Raised([v]),
      (_, v, _) => Raised([v]),
      v => Ieee(if v == NullW then 0 else 1),
      v => if v == NullW then 0 else 1,
      v => v == NullW,
      (_, vs, _) => Raised(vs),
      (v, _, _) => v,
      (v, _, _) => Raised([v]),
      (b, _, v, _) => [b, v],
      (b, _, v, _) => Raised([b, v]),
      (v, _, _) => Raised([v]),
      (v, _, _) => v == NullW,
      (v, _) => v,
      (c, v, _) => [c, v],
      (_, _) => NoneW,
      (_, v, _) => [v],
      (_, s, _) => Raised(Recorded(s)),
      (_, vs, _) => vs,
      _ => [NoneW],
      _ => [NoneW],
      (_, a, b, _) => [RawI64(a), RawI64(b)],
      (_, _) => [NoneW])
  }

  // ---- what it means to read a local ----

  ghost predicate SameBut(a: Locals, b: Locals, l: LocalId) {
    |a| == |b| && forall k :: 0 <= k < |a| && k != l ==> a[k] == b[k]
  }

  /** Well-typed states that differ at `l` alone, and the instruction does, or passes on, different things. */
  ghost predicate Tells(f: Function, inst: Inst, l: LocalId, a: Locals, b: Locals) {
    WellTyped(f.locals, a) && WellTyped(f.locals, b) && SameBut(a, b, l) &&
    if inst.Call? then ReadAll(a, inst.args) != ReadAll(b, inst.args)
    else Compute(Recorder(), f.locals, inst, a, []).effect != Compute(Recorder(), f.locals, inst, b, []).effect
  }

  ghost predicate IsRead(f: Function, inst: Inst, l: LocalId) {
    exists a, b :: Tells(f, inst, l, a, b)
  }

  /** A machine integer less itself, or compared with itself, is the same whatever it is. */
  predicate Cancels(f: Function, inst: Inst) {
    (inst.Compare? || (inst.BinOp? && inst.op.Sub?)) && inst.l == inst.r && Has(f, inst.l, Raw(I64))
  }

  // ---- two words of every representation but one ----

  function ObjectOf(s: HeapShape): (w: Word)
    ensures HasShape(w, s) && !w.NullW?
  {
    match s
    case Str => StrObj(0)
    case Bytes => BytesObj(0)
    case BigInt => Obj(0, BigIntK)
    case List(_) => Obj(0, ListK)
    case Dict(_, _) => Obj(0, DictK)
    case Set(_) => Obj(0, SetK)
    case Tuple(_) => Obj(0, TupleK)
    case TupleVar(_) => Obj(0, TupleK)
    case Iterator(_) => Obj(0, IteratorK)
    case Class(c) => Obj(0, InstanceK({c}))
    case RuntimeObj(tag) => Obj(0, RuntimeK(tag))
  }

  function Other(r: Repr): (w: Word)
    requires r != Never
    ensures HasRepr(w, r) && w != ZeroWord(r)
  {
    match r
    case Raw(F64) => RawF64(Ieee(1))
    case Raw(I64) => RawI64(1)
    case Raw(I32) => RawI32(1)
    case Raw(I8) => RawI8(1)
    case Tagged => StrObj(0)
    case Heap(shape) => ObjectOf(shape)
    case Closure(sig) => Obj(0, ClosureK(sig))
    case FuncPtr(sig) => CodeAddr(sig)
  }

  function Zeroes(reprs: seq<Repr>): Locals {
    seq(|reprs|, l requires 0 <= l < |reprs| => ZeroWord(reprs[l]))
  }

  lemma ZeroesTyped(reprs: seq<Repr>)
    ensures WellTyped(reprs, Zeroes(reprs))
  {
    hide HasRepr, ZeroWord;
  }

  lemma SetTyped(reprs: seq<Repr>, locals: Locals, l: LocalId, w: Word)
    requires WellTyped(reprs, locals) && l < |reprs| && HasRepr(w, reprs[l])
    ensures WellTyped(reprs, locals[l := w])
  {
    hide HasRepr;
  }

  // ---- every operand is read ----

  /** The zeroed registers, and the same with another word in one of them. */
  function Marked(f: Function, l: LocalId): Locals
    requires l < |f.locals| && f.locals[l] != Never
  {
    Zeroes(f.locals)[l := Other(f.locals[l])]
  }

  lemma MarkedTyped(f: Function, l: LocalId)
    requires l < |f.locals| && f.locals[l] != Never
    ensures WellTyped(f.locals, Zeroes(f.locals)) && WellTyped(f.locals, Marked(f, l))
    ensures SameBut(Zeroes(f.locals), Marked(f, l), l)
    ensures Read(Zeroes(f.locals), l) == ZeroWord(f.locals[l]) && Read(Marked(f, l), l) == Other(f.locals[l])
    ensures forall k :: k != l ==> Read(Marked(f, l), k) == Read(Zeroes(f.locals), k)
  {
    hide HasRepr, ZeroWord, Other;
    ZeroesTyped(f.locals);
    SetTyped(f.locals, Zeroes(f.locals), l, Other(f.locals[l]));
  }

  /** An argument list shows each of its locals. */
  lemma ArgsTell(a: Locals, b: Locals, ls: seq<LocalId>, l: LocalId)
    requires l in ls && Read(a, l) != Read(b, l)
    ensures ReadAll(a, ls) != ReadAll(b, ls)
    ensures forall j :: IsValue(Read(a, l)) && IsValue(Read(b, l)) ==> ValuesAt(j, a, ls) != ValuesAt(j, b, ls)
  {
    var i :| 0 <= i < |ls| && ls[i] == l;
    assert ReadAll(a, ls)[i] != ReadAll(b, ls)[i];
    forall j | IsValue(Read(a, l)) && IsValue(Read(b, l))
      ensures ValuesAt(j, a, ls) != ValuesAt(j, b, ls)
    {
      assert ValuesAt(j, a, ls)[i] != ValuesAt(j, b, ls)[i];
    }
  }

  predicate RawOperator(f: Function, inst: Inst) {
    (inst.BinOp? || inst.Compare?) && (Has(f, inst.l, Raw(I64)) || Has(f, inst.l, Raw(F64)))
  }

  lemma CallTells(f: Function, p: seq<Function>, inst: Inst, l: LocalId)
    requires VerifyInst(f, p, inst) && (inst.Call? || inst.CallBuiltin?) && l in Operands(inst)
    requires l < |f.locals| && f.locals[l] != Never
    ensures Tells(f, inst, l, Zeroes(f.locals), Marked(f, l))
  {
    hide HasShape;
    MarkedTyped(f, l);
    ArgsTell(Zeroes(f.locals), Marked(f, l), inst.args, l);
  }

  lemma CoerceTells(f: Function, p: seq<Function>, inst: Inst, l: LocalId)
    requires VerifyInst(f, p, inst) && inst.Coerce? && l in Operands(inst) && l < |f.locals| && f.locals[l] != Never
    ensures Tells(f, inst, l, Zeroes(f.locals), Marked(f, l))
  {
    MarkedTyped(f, l);
    hide Zeroes, WellTyped, Marked, RawIntBin, RawFloatBin, TaggedBin, TaggedCmp, TaggedTruthy;
    hide Printed, Carried, ValuesAt;
  }

  /** Tagged operands that are not both numbers go to the runtime. */
  lemma TaggedOperatorTells(f: Function, p: seq<Function>, inst: Inst, l: LocalId)
    requires VerifyInst(f, p, inst) && !RawOperator(f, inst) && (inst.BinOp? || inst.Compare?)
    requires l in Operands(inst) && l < |f.locals| && f.locals[l] != Never
    ensures Tells(f, inst, l, Zeroes(f.locals), Marked(f, l))
  {
    MarkedTyped(f, l);
    hide Zeroes, WellTyped, Marked, HasShape, IntOp, CmpInt, RawIntBin, RawFloatBin, BinOpRepr;
  }

  lemma SingleTells(f: Function, p: seq<Function>, inst: Inst, l: LocalId)
    requires VerifyInst(f, p, inst) && (inst.Unary? || inst.Truthy? || inst.IsInstance?)
    requires l in Operands(inst) && l < |f.locals| && f.locals[l] != Never
    ensures Tells(f, inst, l, Zeroes(f.locals), Marked(f, l))
  {
    MarkedTyped(f, l);
    hide Zeroes, WellTyped, Marked, HasShape, AsInt;
  }

  lemma MemoryTells(f: Function, p: seq<Function>, inst: Inst, l: LocalId)
    requires VerifyInst(f, p, inst)
    requires inst.GetField? || inst.SetField? || inst.GetFieldNamed?
      || inst.CellGet? || inst.CellSet? || inst.GlobalSet?
    requires l in Operands(inst) && l < |f.locals| && f.locals[l] != Never
    ensures Tells(f, inst, l, Zeroes(f.locals), Marked(f, l))
  {
    MarkedTyped(f, l);
    hide Zeroes, WellTyped, Marked, RawIntBin, RawFloatBin, TaggedBin, TaggedCmp, TaggedTruthy;
    hide Printed, Carried, ValuesAt;
    hide CheckedCoerce, UncheckedCoerce;
  }

  lemma PrintTells(f: Function, p: seq<Function>, inst: Inst, l: LocalId)
    requires VerifyInst(f, p, inst) && inst.Print?
    requires l in Operands(inst) && l < |f.locals| && f.locals[l] != Never
    ensures Tells(f, inst, l, Zeroes(f.locals), Marked(f, l))
  {
    MarkedTyped(f, l);
    hide Zeroes, WellTyped, Marked;
    var a, b := Zeroes(f.locals), Marked(f, l);
    var j := Recorder().junk;
    assert Recorded(Printed(j, inst.kind, inst.arg, a))[0] != Recorded(Printed(j, inst.kind, inst.arg, b))[0];
  }

  lemma RaiseTells(f: Function, p: seq<Function>, inst: Inst, l: LocalId)
    requires VerifyInst(f, p, inst) && inst.Raise?
    requires l in Operands(inst) && l < |f.locals| && f.locals[l] != Never
    ensures Tells(f, inst, l, Zeroes(f.locals), Marked(f, l))
  {
    MarkedTyped(f, l);
    hide Zeroes, WellTyped, Marked;
    var a, b := Carried(Recorder().junk, inst.exc, Zeroes(f.locals)), Carried(Recorder().junk, inst.exc, Marked(f, l));
    var i := if Operands(inst)[0] == l then 0 else 1;
    assert a[i] != b[i];
  }

  // ---- raw operands ----

  function RawWord(r: Repr, k: nat): Word
    requires k < 4
  {
    if r == Raw(F64) then RawF64(Ieee(k)) else RawI64(k)
  }

  /** Three on the left, two on the right, so that zero in either place makes a difference. */
  function Operated(f: Function, inst: Inst): (locals: Locals)
    requires RawOperator(f, inst) && Has(f, inst.r, f.locals[inst.l])
    ensures |locals| == |f.locals|
  {
    Zeroes(f.locals)[inst.l := RawWord(f.locals[inst.l], 3)][inst.r := RawWord(f.locals[inst.l], 2)]
  }

  lemma OperatedTyped(f: Function, inst: Inst, l: LocalId, k: nat)
    requires RawOperator(f, inst) && Has(f, inst.r, f.locals[inst.l]) && l in [inst.l, inst.r] && k < 4
    ensures var a := Operated(f, inst);
      WellTyped(f.locals, a) && WellTyped(f.locals, a[l := RawWord(f.locals[inst.l], k)]) &&
      SameBut(a[l := RawWord(f.locals[inst.l], k)], a, l)
  {
    hide HasShape, ZeroWord;
    ZeroesTyped(f.locals);
  }

  /** What a raw operator comes to when its left operand holds `x` and its right one `y`. */
  function RawEffect(inst: Inst, r: Repr, x: nat, y: nat): Effect<seq<Word>>
    requires (inst.BinOp? || inst.Compare?) && x < 4 && y < 4
  {
    match inst
    case BinOp(_, op, _, _) =>
      if r == Raw(F64) then RawFloatBin(Recorder(), op, Ieee(x), Ieee(y), []) else RawIntBin(Recorder(), op, x, y, [])
    case Compare(_, cmp, _, _) =>
      Yields(RawI8(BitVal(if r == Raw(F64) then x + y == 0 else CmpInt(cmp, x, y))), [])
  }

  lemma RawComputes(f: Function, inst: Inst, a: Locals, x: nat, y: nat)
    requires RawOperator(f, inst) && x < 4 && y < 4
    requires Read(a, inst.l) == RawWord(f.locals[inst.l], x) && Read(a, inst.r) == RawWord(f.locals[inst.l], y)
    ensures Compute(Recorder(), f.locals, inst, a, []).effect == RawEffect(inst, f.locals[inst.l], x, y)
  {
    hide RawIntBin, RawFloatBin, CmpInt;
  }

  lemma SmallQuotients()
    ensures FloorArith.Divides(3, 2) && FloorArith.Divides(0, 2) && FloorArith.Divides(2, 2)
    ensures !FloorArith.Divides(3, 0) && !FloorArith.Divides(0, 0)
    ensures FloorArith.RawFloorDiv(3, 2) == 1 && FloorArith.RawFloorMod(3, 2) == 1
    ensures FloorArith.RawFloorDiv(0, 2) == 0 && FloorArith.RawFloorMod(0, 2) == 0
  {
    hide FloorArith.RawFloorDiv, FloorArith.RawFloorMod;
    FloorArith.RawFloorIsFloor(3, 2);
    FloorArith.RawFloorIsFloor(0, 2);
  }

  lemma IntOpTells(inst: Inst)
    requires inst.BinOp? && BinOpRepr(inst.op, Raw(I64))
    ensures RawEffect(inst, Raw(I64), 3, 2) != RawEffect(inst, Raw(I64), 0, 2)
    ensures RawEffect(inst, Raw(I64), 3, 2) != RawEffect(inst, Raw(I64), 3, 0)
    ensures !inst.op.Sub? ==> RawEffect(inst, Raw(I64), 2, 2) != RawEffect(inst, Raw(I64), 0, 0)
  {
    hide FloorArith.RawFloorDiv, FloorArith.RawFloorMod, FloorArith.Divides, Recorder;
    SmallQuotients();
  }

  lemma FloatOpTells(inst: Inst)
    requires inst.BinOp? && BinOpRepr(inst.op, Raw(F64))
    ensures RawEffect(inst, Raw(F64), 3, 2) != RawEffect(inst, Raw(F64), 0, 2)
    ensures RawEffect(inst, Raw(F64), 3, 2) != RawEffect(inst, Raw(F64), 3, 0)
    ensures RawEffect(inst, Raw(F64), 2, 2) != RawEffect(inst, Raw(F64), 0, 0)
  {
  }

  /** With both registers raw and one of them then zeroed, what the operator comes to. */
  lemma RawStates(f: Function, p: seq<Function>, inst: Inst, l: LocalId)
    requires VerifyInst(f, p, inst) && inst.BinOp? && RawOperator(f, inst) && l in Operands(inst)
    ensures var r, b := f.locals[inst.l], Operated(f, inst);
      var a := b[l := RawWord(r, 0)];
      Compute(Recorder(), f.locals, inst, b, []).effect == RawEffect(inst, r, if inst.l == inst.r then 2 else 3, 2) &&
      Compute(Recorder(), f.locals, inst, a, []).effect ==
        RawEffect(inst, r, if inst.l == l then 0 else 3, if inst.r == l then 0 else 2)
  {
    hide BinOpRepr, Compute, RawEffect, RawWord, Recorder;
    var b := Operated(f, inst);
    RawComputes(f, inst, b, if inst.l == inst.r then 2 else 3, 2);
    RawComputes(f, inst, b[l := RawWord(f.locals[inst.l], 0)], if inst.l == l then 0 else 3,
                if inst.r == l then 0 else 2);
  }

  /** Zeroing either side changes what a raw operator comes to, unless both sides are one register and cancel. */
  lemma RawOpTells(inst: Inst, r: Repr, l: LocalId)
    requires inst.BinOp? && r.Raw? && BinOpRepr(inst.op, r) && (l == inst.l || l == inst.r)
    requires !(inst.op.Sub? && inst.l == inst.r && r == Raw(I64))
    ensures RawEffect(inst, r, if inst.l == inst.r then 2 else 3, 2) !=
      RawEffect(inst, r, if inst.l == l then 0 else 3, if inst.r == l then 0 else 2)
  {
    hide RawEffect;
    if r == Raw(F64) {
      FloatOpTells(inst);
    } else {
      IntOpTells(inst);
    }
  }

  lemma RawBinOpTells(f: Function, p: seq<Function>, inst: Inst, l: LocalId)
    requires VerifyInst(f, p, inst) && inst.BinOp? && RawOperator(f, inst) && l in Operands(inst) && !Cancels(f, inst)
    ensures IsRead(f, inst, l)
  {
    hide BinOpRepr, WellTyped, Operated, Compute, RawEffect, RawWord, Recorder, SameBut;
    OperatedTyped(f, inst, l, 0);
    RawStates(f, p, inst, l);
    RawOpTells(inst, f.locals[inst.l], l);
    assert Tells(f, inst, l, Operated(f, inst)[l := RawWord(f.locals[inst.l], 0)], Operated(f, inst));
  }

  /** Which way to move one side of a comparison of equals to change its answer. */
  function Moved(inst: Inst, l: LocalId): nat
    requires inst.Compare?
  {
    match inst.cmp
    case Lt => if l == inst.l then 0 else 2
    case GtE => if l == inst.l then 0 else 2
    case _ => if l == inst.l then 2 else 0
  }

  function Compared(f: Function, inst: Inst): (locals: Locals)
    requires RawOperator(f, inst) && Has(f, inst.r, f.locals[inst.l])
    ensures |locals| == |f.locals|
  {
    Zeroes(f.locals)[inst.l := RawWord(f.locals[inst.l], 1)][inst.r := RawWord(f.locals[inst.l], 1)]
  }

  lemma ComparedTyped(f: Function, inst: Inst, l: LocalId, k: nat)
    requires RawOperator(f, inst) && Has(f, inst.r, f.locals[inst.l]) && l in [inst.l, inst.r] && k < 4
    ensures var a := Compared(f, inst);
      WellTyped(f.locals, a) && WellTyped(f.locals, a[l := RawWord(f.locals[inst.l], k)]) &&
      SameBut(a, a[l := RawWord(f.locals[inst.l], k)], l)
  {
    hide HasShape, ZeroWord;
    ZeroesTyped(f.locals);
  }

  lemma IntCompareTells(f: Function, p: seq<Function>, inst: Inst, l: LocalId)
    requires VerifyInst(f, p, inst) && inst.Compare? && Has(f, inst.l, Raw(I64)) && l in Operands(inst)
    requires !Cancels(f, inst)
    ensures IsRead(f, inst, l)
  {
    var k := Moved(inst, l);
    ComparedTyped(f, inst, l, k);
    hide WellTyped, Compute, RawWord, Recorder, BinOpRepr, SameBut;
    var a := Compared(f, inst);
    RawComputes(f, inst, a, 1, 1);
    var b := a[l := RawWord(Raw(I64), k)];
    RawComputes(f, inst, b, if inst.l == l then k else 1, if inst.r == l then k else 1);
    assert Tells(f, inst, l, a, b);
  }

  lemma FloatCompareTells(f: Function, p: seq<Function>, inst: Inst, l: LocalId)
    requires VerifyInst(f, p, inst) && inst.Compare? && Has(f, inst.l, Raw(F64)) && l in Operands(inst)
    ensures Tells(f, inst, l, Zeroes(f.locals), Marked(f, l))
  {
    MarkedTyped(f, l);
    hide WellTyped, Zeroes, Compute, Marked, Recorder;
    RawComputes(f, inst, Zeroes(f.locals), 0, 0);
    RawComputes(f, inst, Marked(f, l), if inst.l == l then 1 else 0, if inst.r == l then 1 else 0);
  }

  lemma OperandIsRead(f: Function, p: seq<Function>, inst: Inst, l: LocalId)
    requires VerifyInst(f, p, inst) && l in Operands(inst) && l < |f.locals| && f.locals[l] != Never
    requires !Cancels(f, inst)
    ensures IsRead(f, inst, l)
  {
    hide VerifyInst, Tells, Cancels, Zeroes, Marked, Compared, Operated;
    if RawOperator(f, inst) {
      if inst.BinOp? {
        RawBinOpTells(f, p, inst, l);
      } else if Has(f, inst.l, Raw(I64)) {
        IntCompareTells(f, p, inst, l);
      } else {
        FloatCompareTells(f, p, inst, l);
      }
    } else {
      match inst
      case Call(_, _, _) => CallTells(f, p, inst, l);
      case CallBuiltin(_, _, _) => CallTells(f, p, inst, l);
      case Coerce(_, _, _, _, _) => CoerceTells(f, p, inst, l);
      case Print(_, _) => PrintTells(f, p, inst, l);
      case Raise(_) => RaiseTells(f, p, inst, l);
      case BinOp(_, _, _, _) => TaggedOperatorTells(f, p, inst, l);
      case Compare(_, _, _, _) => TaggedOperatorTells(f, p, inst, l);
      case Unary(_, _, _) => SingleTells(f, p, inst, l);
      case Truthy(_, _) => SingleTells(f, p, inst, l);
      case IsInstance(_, _, _) => SingleTells(f, p, inst, l);
      case _ => MemoryTells(f, p, inst, l);
    }
  }

  // ---- and nothing else is ----

  /** The difference of a register and itself is zero, and it compares with itself as equals do. */
  lemma CancelledIsNotRead(f: Function, inst: Inst, a: Locals, b: Locals)
    requires Cancels(f, inst) && WellTyped(f.locals, a) && WellTyped(f.locals, b)
    ensures !inst.Call?
    ensures Compute(Recorder(), f.locals, inst, a, []).effect == Compute(Recorder(), f.locals, inst, b, []).effect
  {
    hide HasShape, Recorder;
    assert HasRepr(Read(a, inst.l), Raw(I64)) && HasRepr(Read(b, inst.l), Raw(I64));
  }

  lemma OnlyNull(f: Function, l: LocalId, a: Locals, b: Locals)
    requires WellTyped(f.locals, a) && WellTyped(f.locals, b) && SameBut(a, b, l)
    requires l < |f.locals| && f.locals[l] == Never
    ensures a == b
  {
    hide HasShape;
    assert HasRepr(a[l], Never) && HasRepr(b[l], Never);
  }

  /**
   The operand table is exact: a local is in it exactly when what the instruction does can depend on the word it holds.
   A local that can hold nothing but null, and a machine integer less or against itself, make no difference.
   */
  lemma OperandsAreRead(f: Function, p: seq<Function>, inst: Inst, l: LocalId)
    requires VerifyInst(f, p, inst) && l < |f.locals|
    ensures IsRead(f, inst, l) <==> l in Operands(inst) && f.locals[l] != Never && !Cancels(f, inst)
  {
    hide VerifyInst, Cancels, Operands, Compute, Recorder;
    if IsRead(f, inst, l) {
      var a, b :| Tells(f, inst, l, a, b);
      if l !in Operands(inst) {
        OperandsSuffice(Recorder(), f.locals, inst, a, b, []);
      } else if f.locals[l] == Never {
        OnlyNull(f, l, a, b);
      } else if Cancels(f, inst) {
        CancelledIsNotRead(f, inst, a, b);
      }
    } else if l in Operands(inst) && f.locals[l] != Never && !Cancels(f, inst) {
      OperandIsRead(f, p, inst, l);
    }
  }

  // ---- terminators ----

  ghost predicate TermTells(f: Function, t: Terminator, l: LocalId, a: Locals, b: Locals) {
    WellTyped(f.locals, a) && WellTyped(f.locals, b) && SameBut(a, b, l) &&
    !SameWay(LeaveBlock(Recorder(), Block([], t, None), f.ret, Falls(a, [])),
             LeaveBlock(Recorder(), Block([], t, None), f.ret, Falls(b, [])))
  }

  /** A terminator's operands are exactly the locals that can turn which way it goes or what it returns. */
  lemma TermOperandsAreRead(f: Function, t: Terminator, l: LocalId)
    requires VerifyTerm(f, t) && l < |f.locals|
    ensures (exists a, b :: TermTells(f, t, l, a, b)) <==>
      l in TermOperands(t) && f.locals[l] != Never && !(t.Branch? && t.thn == t.els)
  {
    hide Zeroes, WellTyped, Marked, Recorder, HasShape;
    if a, b :| TermTells(f, t, l, a, b) {
      if l !in TermOperands(t) {
        TermOperandsSuffice(Recorder(), Block([], t, None), f.ret, a, b, []);
      } else if f.locals[l] == Never {
        OnlyNull(f, l, a, b);
      }
    } else if l in TermOperands(t) && f.locals[l] != Never && !(t.Branch? && t.thn == t.els) {
      MarkedTyped(f, l);
      assert TermTells(f, t, l, Zeroes(f.locals), Marked(f, l));
    }
  }

  // ---- side effects ----

  /** From zeroed registers, the instruction yields a word and leaves no record. */
  ghost predicate Unnoticed(f: Function, inst: Inst) {
    var e := Compute(Recorder(), f.locals, inst, Zeroes(f.locals), []).effect;
    e.Yields? && e.world == []
  }

  lemma RawIsNoticed(f: Function, p: seq<Function>, inst: Inst)
    requires VerifyInst(f, p, inst) && inst.BinOp? && RawOperator(f, inst)
    ensures HasSideEffects(inst, f.locals) <==> !Unnoticed(f, inst)
  {
    hide Compute, HasShape, FloorArith.RawFloorDiv, FloorArith.RawFloorMod;
    RawComputes(f, inst, Zeroes(f.locals), 0, 0);
  }

  lemma OperatorIsNoticed(f: Function, p: seq<Function>, inst: Inst)
    requires VerifyInst(f, p, inst) && !(inst.BinOp? && RawOperator(f, inst))
    requires inst.BinOp? || inst.Compare? || inst.Unary? || inst.Truthy? || inst.Coerce? || inst.IsInstance?
    ensures HasSideEffects(inst, f.locals) <==> !Unnoticed(f, inst)
  {
    hide HasShape, RawIntBin, RawFloatBin, IntOp, CmpInt;
  }

  lemma OtherIsNoticed(f: Function, p: seq<Function>, inst: Inst)
    requires VerifyInst(f, p, inst) && !inst.Call?
    requires !(inst.BinOp? || inst.Compare? || inst.Unary? || inst.Truthy? || inst.Coerce? || inst.IsInstance?)
    ensures HasSideEffects(inst, f.locals) <==> !Unnoticed(f, inst)
  {
    hide HasShape, Printed, Carried, ValuesAt, ConstWord;
  }

  /** The effect table is exact: what it calls effectful does show, and what it calls pure does not. */
  lemma SideEffectsAreNoticed(f: Function, p: seq<Function>, inst: Inst)
    requires VerifyInst(f, p, inst) && !inst.Call?
    ensures HasSideEffects(inst, f.locals) <==> !Unnoticed(f, inst)
  {
    hide VerifyInst, Unnoticed, HasSideEffects, Has;
    match inst
    case BinOp(_, _, _, _) =>
      if RawOperator(f, inst) {
        RawIsNoticed(f, p, inst);
      } else {
        OperatorIsNoticed(f, p, inst);
      }
    case Compare(_, _, _, _) => OperatorIsNoticed(f, p, inst);
    case Unary(_, _, _) => OperatorIsNoticed(f, p, inst);
    case Truthy(_, _) => OperatorIsNoticed(f, p, inst);
    case Coerce(_, _, _, _, _) => OperatorIsNoticed(f, p, inst);
    case IsInstance(_, _, _) => OperatorIsNoticed(f, p, inst);
    case _ => OtherIsNoticed(f, p, inst);
  }
}
