/**
 The MIR verifier: every instruction's operand and result representations match
 its typed signature, and every id is in range. `Verified` is "returns no error".
 */
module Verify {
  import opened Wrappers
  import opened Mir

  predicate Has(f: Function, l: LocalId, r: Repr) {
    l < |f.locals| && f.locals[l] == r
  }

  predicate HasOpt(f: Function, o: Option<LocalId>, r: Repr) {
    o.Some? ==> Has(f, o.value, r)
  }

  /** Only a tagged value or a class instance may be dereferenced as one. */
  predicate InstanceBase(f: Function, l: LocalId) {
    l < |f.locals| && (f.locals[l].Tagged? || (f.locals[l].Heap? && f.locals[l].shape.Class?))
  }

  predicate ConstFitsRepr(c: Const, r: Repr) {
    match c
    case StrLit(_) => r == Heap(Str)
    case BytesLit(_) => r == Heap(Bytes)
    case BigIntLit(_) => r == Heap(BigInt)
    case IntLit(_) => r.Tagged? || (r.Raw? && !r.kind.F64?)
    case FloatLit(_) => r == Raw(F64)
    case _ => r == Tagged
  }

  predicate BinOpRepr(op: BinaryOp, r: Repr) {
    match r
    case Tagged => true
    case Raw(F64) => op.Add? || op.Sub? || op.Mul? || op.Div?
    case Raw(I64) => op.Add? || op.Sub? || op.Mul? || op.Mod? || op.FloorDiv?
    case _ => false
  }

  predicate ArgsMatch(f: Function, args: seq<LocalId>, params: seq<Repr>) {
    |args| == |params| && forall i :: 0 <= i < |args| ==> Has(f, args[i], params[i])
  }

  predicate VerifyInst(f: Function, funcs: seq<Function>, inst: Inst) {
    match inst
    case Const(dst, val) => dst < |f.locals| && ConstFitsRepr(val, f.locals[dst])
    case Coerce(dst, src, from, to, checked) =>
      Has(f, src, from) && Has(f, dst, to) &&
      (if checked then IsLegalCheckedCoercion(from, to) else ClassifyCoercion(from, to).Some?)
    case BinOp(dst, op, l, r) =>
      l < |f.locals| && Has(f, r, f.locals[l]) && Has(f, dst, f.locals[l]) && BinOpRepr(op, f.locals[l])
    case Unary(dst, op, o) =>
      if op == Neg && Has(f, o, Raw(F64)) then Has(f, dst, Raw(F64))
      else Has(f, o, Tagged) && Has(f, dst, if op == Not then Raw(I8) else Tagged)
    case Compare(dst, _, l, r) =>
      l < |f.locals| && Has(f, r, f.locals[l]) && Has(f, dst, Raw(I8)) &&
      (f.locals[l] == Tagged || f.locals[l] == Raw(I64) || f.locals[l] == Raw(F64))
    case Truthy(dst, o) => Has(f, o, Tagged) && Has(f, dst, Raw(I8))
    case Call(ret, func, args) =>
      func < |funcs| && ArgsMatch(f, args, funcs[func].params) && HasOpt(f, ret, funcs[func].ret)
    case CallBuiltin(ret, _, args) =>
      (forall i :: 0 <= i < |args| ==> Has(f, args[i], Tagged)) && HasOpt(f, ret, Tagged)
    case GetField(dst, base, _) => InstanceBase(f, base) && Has(f, dst, Tagged)
    case SetField(base, _, value) => InstanceBase(f, base) && Has(f, value, Tagged)
    case GetFieldNamed(dst, base, _) => Has(f, base, Tagged) && Has(f, dst, Tagged)
    case IsInstance(dst, value, _) => Has(f, value, Tagged) && Has(f, dst, Raw(I8))
    case CellGet(dst, cell) => Has(f, cell, Tagged) && Has(f, dst, Tagged)
    case CellSet(cell, value) => Has(f, cell, Tagged) && Has(f, value, Tagged)
    case GlobalGet(dst, _) => Has(f, dst, Tagged)
    case GlobalSet(_, value) => Has(f, value, Tagged)
    case Print(kind, arg) =>
      (match kind
       case PrintNewline => arg.None?
       case PrintSep => arg.None?
       case PrintNone => arg.None?
       case PrintStr => arg.Some? && Has(f, arg.value, Tagged)
       case PrintObj => arg.Some? && Has(f, arg.value, Tagged)
       case PrintFloat => arg.Some? && Has(f, arg.value, Raw(F64))
       case PrintBool => arg.Some? && Has(f, arg.value, Raw(I8))
       case PrintInt => arg.Some? && Has(f, arg.value, Raw(I64)))
    case AssertFail => true
    case Raise(RaiseBuiltin(_, msg)) => HasOpt(f, msg, Tagged)
    case Raise(RaiseCustom(_, msg, instance)) => HasOpt(f, msg, Tagged) && Has(f, instance, Tagged)
    case Raise(RaiseInstance(exc)) => Has(f, exc, Tagged)
    case Raise(Reraise) => true
    case LineMarker(_) => true
  }

  predicate Diverges(inst: Inst) {
    inst.Raise? || inst.AssertFail?
  }

  /** A diverging instruction is the last of its block, before `Unreachable`. */
  predicate RaiseShape(b: Block) {
    forall i :: 0 <= i < |b.insts| && Diverges(b.insts[i]) ==> i + 1 == |b.insts| && b.term.Unreachable?
  }

  predicate VerifyTerm(f: Function, t: Terminator) {
    match t
    case Return(o) => HasOpt(f, o, f.ret)
    case Jump(t) => t < |f.blocks|
    case Branch(cond, a, b) => Has(f, cond, Raw(I8)) && a < |f.blocks| && b < |f.blocks|
    case Unreachable => true
  }

  predicate VerifyHandler(f: Function, bi: BlockId, h: Option<BlockId>) {
    h.Some? ==> h.value < |f.blocks| && h.value != f.entry && h.value != bi
  }

  predicate VerifyBlock(f: Function, funcs: seq<Function>, bi: BlockId)
    requires bi < |f.blocks|
  {
    var b := f.blocks[bi];
    VerifyHandler(f, bi, b.handler) &&
    (forall i :: 0 <= i < |b.insts| ==> VerifyInst(f, funcs, b.insts[i])) &&
    RaiseShape(b) &&
    VerifyTerm(f, b.term)
  }

  predicate Verified(f: Function, funcs: seq<Function>) {
    |f.params| <= |f.locals| &&
    (forall i :: 0 <= i < |f.params| ==> f.locals[i] == f.params[i]) &&
    f.entry < |f.blocks| &&
    forall bi :: 0 <= bi < |f.blocks| ==> VerifyBlock(f, funcs, bi)
  }

  predicate VerifiedProgram(funcs: seq<Function>) {
    forall i :: 0 <= i < |funcs| ==> Verified(funcs[i], funcs)
  }

  lemma VerifiedInstInRange(f: Function, funcs: seq<Function>, inst: Inst)
    requires VerifyInst(f, funcs, inst)
    ensures InstInRange(inst, |f.locals|)
  {
    match inst
    case Raise(k) =>
      match k {
        case RaiseBuiltin(_, msg) =>
        case RaiseCustom(_, msg, instance) =>
        case RaiseInstance(e) =>
        case Reraise =>
      }
    case _ =>
  }

  /** A verified function never makes a pass index out of its tables. */
  lemma VerifiedInRange(f: Function, funcs: seq<Function>)
    requires Verified(f, funcs)
    ensures InRange(f)
  {
    forall bi | 0 <= bi < |f.blocks|
      ensures BlockInRange(f.blocks[bi], |f.locals|, |f.blocks|)
    {
      assert VerifyBlock(f, funcs, bi);
      var b := f.blocks[bi];
      forall i | 0 <= i < |b.insts|
        ensures InstInRange(b.insts[i], |f.locals|)
      {
        VerifiedInstInRange(f, funcs, b.insts[i]);
      }
    }
  }
}
