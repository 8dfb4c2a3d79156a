/** Stock result types shared by the other modules. */
module Wrappers {
  datatype Option<+T> = None | Some(value: T)

  datatype Result<+T, +E> = Ok(value: T) | Err(error: E)
}

/**
 The mid-level IR: a control-flow graph of mutable, representation-typed locals.
 Every block may name a handler block that any raising instruction in it jumps to.
 */
module Mir {
  import opened Wrappers

  type LocalId = nat
  type BlockId = nat
  type FuncId = nat
  type ClassId = nat

  /** The 64-bit machine integers a constant can carry. */
  type I64 = n: int | -0x8000_0000_0000_0000 <= n < 0x8000_0000_0000_0000

  /** An IEEE double, known only by its bits. */
  datatype Ieee = Ieee(bits: nat)

  // ---- representations ----

  datatype RawKind = F64 | I64 | I32 | I8

  datatype HeapShape =
    | Str
    | Bytes
    | BigInt
    | List(elem: Repr)
    | Dict(key: Repr, val: Repr)
    | Set(elem: Repr)
    | Tuple(elems: seq<Repr>)
    | TupleVar(elem: Repr)
    | Class(classId: ClassId)
    | RuntimeObj(tag: nat)
    | Iterator(elem: Repr)

  datatype SigRepr = SigRepr(params: seq<Repr>, ret: Repr)

  datatype Repr =
    | Raw(kind: RawKind)
    | Tagged
    | Heap(shape: HeapShape)
    | FuncPtr(sig: SigRepr)
    | Closure(sig: SigRepr)
    | Never

  /** What may hold a pointer into the collected heap. */
  predicate IsGcRoot(r: Repr) {
    r.Tagged? || r.Heap? || r.Closure?
  }

  /** Does a raising runtime guard exist for this heap shape? */
  predicate HasDynCheck(s: HeapShape) {
    !s.BigInt? && !s.Iterator?
  }

  // ---- instructions ----

  datatype Const =
    | StrLit(id: nat)
    | BytesLit(id: nat)
    | IntLit(n: I64)
    | BigIntLit(id: nat)
    | FloatLit(x: Ieee)
    | BoolLit(b: bool)
    | NoneLit
    | NullPtr
    | Unbound

  /** `InPlace(k)` stands for the eleven augmented-assignment operators. */
  datatype BinaryOp =
    | Add | Sub | Mul | MatMul | Div | FloorDiv | Mod | Pow
    | BitAnd | BitOr | BitXor | Shl | Shr
    | InPlace(which: nat)

  datatype UnaryOp = Neg | Pos | Invert | Not

  datatype CmpOp = Eq | NotEq | Lt | LtE | Gt | GtE

  datatype PrintKind = PrintStr | PrintInt | PrintFloat | PrintBool | PrintNone | PrintObj | PrintSep | PrintNewline

  datatype RaiseKind =
    | RaiseBuiltin(tag: nat, msg: Option<LocalId>)
    | RaiseCustom(cls: ClassId, msg: Option<LocalId>, instance: LocalId)
    | RaiseInstance(exc: LocalId)
    | Reraise

  /** One or two instructions of every effect class the analyses distinguish. */
  datatype Inst =
    | Const(dst: LocalId, val: Const)
    | Coerce(dst: LocalId, src: LocalId, from: Repr, to: Repr, checked: bool)
    | BinOp(dst: LocalId, op: BinaryOp, l: LocalId, r: LocalId)
    | Unary(dst: LocalId, uop: UnaryOp, operand: LocalId)
    | Compare(dst: LocalId, cmp: CmpOp, l: LocalId, r: LocalId)
    | Truthy(dst: LocalId, operand: LocalId)
    | Call(ret: Option<LocalId>, func: FuncId, args: seq<LocalId>)
    | CallBuiltin(ret: Option<LocalId>, builtin: nat, args: seq<LocalId>)
    | GetField(dst: LocalId, base: LocalId, slot: nat)
    | SetField(base: LocalId, slot: nat, value: LocalId)
    | GetFieldNamed(dst: LocalId, base: LocalId, nameHash: nat)
    | IsInstance(dst: LocalId, value: LocalId, cls: ClassId)
    | CellGet(dst: LocalId, cell: LocalId)
    | CellSet(cell: LocalId, value: LocalId)
    | GlobalGet(dst: LocalId, varId: nat)
    | GlobalSet(varId: nat, value: LocalId)
    | Print(kind: PrintKind, arg: Option<LocalId>)
    | AssertFail
    | Raise(exc: RaiseKind)
    | LineMarker(line: nat)

  datatype Terminator =
    | Return(result: Option<LocalId>)
    | Jump(target: BlockId)
    | Branch(cond: LocalId, thn: BlockId, els: BlockId)
    | Unreachable

  datatype Block = Block(insts: seq<Inst>, term: Terminator, handler: Option<BlockId>)

  datatype Function = Function(params: seq<Repr>, ret: Repr, locals: seq<Repr>, blocks: seq<Block>, entry: BlockId)

  // ---- def, use and effect tables ----

  function OptSeq(o: Option<LocalId>): seq<LocalId> {
    match o
    case None => []
    case Some(l) => [l]
  }

  /** The local an instruction writes, if any. */
  function Dst(inst: Inst): Option<LocalId> {
    match inst
    case Call(ret, _, _) => ret
    case CallBuiltin(ret, _, _) => ret
    case SetField(_, _, _) => None
    case CellSet(_, _) => None
    case GlobalSet(_, _) => None
    case Print(_, _) => None
    case AssertFail => None
    case Raise(_) => None
    case LineMarker(_) => None
    case _ => Some(inst.dst)
  }

  /** The operands an instruction reads, in visiting order. */
  function Operands(inst: Inst): seq<LocalId> {
    match inst
    case Const(_, _) => []
    case Coerce(_, src, _, _, _) => [src]
    case BinOp(_, _, l, r) => [l, r]
    case Unary(_, _, o) => [o]
    case Compare(_, _, l, r) => [l, r]
    case Truthy(_, o) => [o]
    case Call(_, _, args) => args
    case CallBuiltin(_, _, args) => args
    case GetField(_, base, _) => [base]
    case SetField(base, _, value) => [base, value]
    case GetFieldNamed(_, base, _) => [base]
    case IsInstance(_, value, _) => [value]
    case CellGet(_, cell) => [cell]
    case CellSet(cell, value) => [cell, value]
    case GlobalGet(_, _) => []
    case GlobalSet(_, value) => [value]
    case Print(_, arg) => OptSeq(arg)
    case AssertFail => []
    case Raise(RaiseBuiltin(_, msg)) => OptSeq(msg)
    case Raise(RaiseCustom(_, msg, instance)) => OptSeq(msg) + [instance]
    case Raise(RaiseInstance(exc)) => [exc]
    case Raise(Reraise) => []
    case LineMarker(_) => []
  }

  function TermOperands(t: Terminator): seq<LocalId> {
    match t
    case Return(o) => OptSeq(o)
    case Branch(cond, _, _) => [cond]
    case Jump(_) => []
    case Unreachable => []
  }

  function Uses(inst: Inst): set<LocalId> {
    set l | l in Operands(inst)
  }

  function TermUses(t: Terminator): set<LocalId> {
    set l | l in TermOperands(t)
  }

  function DstSet(inst: Inst): set<LocalId> {
    match Dst(inst)
    case None => {}
    case Some(d) => {d}
  }

  predicate NonRaw(locals: seq<Repr>, l: LocalId) {
    l < |locals| && !locals[l].Raw?
  }

  /** May executing this instruction trigger a collection? */
  predicate MayAllocate(inst: Inst, locals: seq<Repr>) {
    match inst
    case Const(_, val) => val.StrLit? || val.BytesLit? || val.BigIntLit?
    case Coerce(_, _, from, to, checked) =>
      checked || ClassifyCoercion(from, to) == Some(BoxFloat) || ClassifyCoercion(from, to) == Some(TagInt)
    case BinOp(_, op, l, r) => NonRaw(locals, l) || NonRaw(locals, r) || op == Div
    case Compare(_, _, l, r) => NonRaw(locals, l) || NonRaw(locals, r)
    case Unary(_, _, o) => NonRaw(locals, o)
    case Truthy(_, o) => NonRaw(locals, o)
    case GetField(_, base, _) => base < |locals| && locals[base].Tagged?
    case SetField(base, _, _) => base < |locals| && locals[base].Tagged?
    case IsInstance(_, _, _) => false
    case CellGet(_, _) => false
    case CellSet(_, _) => false
    case GlobalGet(_, _) => false
    case GlobalSet(_, _) => false
    case LineMarker(_) => false
    case Call(_, _, _) => true
    case CallBuiltin(_, _, _) => true
    case GetFieldNamed(_, _, _) => true
    case Print(_, _) => true
    case AssertFail => true
    case Raise(_) => true
  }

  /** Has executing this instruction an effect outside its own destination? */
  predicate HasSideEffects(inst: Inst, locals: seq<Repr>) {
    match inst
    case Const(_, _) => false
    case Coerce(_, _, _, _, checked) => checked
    case BinOp(_, op, l, r) =>
      NonRaw(locals, l) || NonRaw(locals, r) ||
      !(op.Add? || op.Sub? || op.Mul? || op.BitAnd? || op.BitOr? || op.BitXor?)
    case Unary(_, _, o) => NonRaw(locals, o)
    case Compare(_, _, l, r) => NonRaw(locals, l) || NonRaw(locals, r)
    case Truthy(_, o) => NonRaw(locals, o)
    case GetField(_, base, _) => base < |locals| && locals[base].Tagged?
    case IsInstance(_, _, _) => false
    case CellGet(_, _) => false
    case GlobalGet(_, _) => false
    case Call(_, _, _) => true
    case CallBuiltin(_, _, _) => true
    case SetField(_, _, _) => true
    case CellSet(_, _) => true
    case GlobalSet(_, _) => true
    case GetFieldNamed(_, _, _) => true
    case Print(_, _) => true
    case AssertFail => true
    case Raise(_) => true
    case LineMarker(_) => true
  }

  // ---- the coercion legality table ----

  datatype Coercion = Noop | TaggedToHeap | BoxFloat | UnboxFloat | TagInt | UntagInt | TagBool | UntagBool

  predicate SameContainerFamily(a: HeapShape, b: HeapShape) {
    match (a, b)
    case (List(_), List(_)) => true
    case (Dict(_, _), Dict(_, _)) => true
    case (Set(_), Set(_)) => true
    case (TupleVar(_), TupleVar(_)) => true
    case (Tuple(x), Tuple(y)) => |x| == |y|
    case (Tuple(_), TupleVar(_)) => true
    case (TupleVar(_), Tuple(_)) => true
    case (Iterator(_), Iterator(_)) => true
    case _ => false
  }

  function ClassifyCoercion(from: Repr, to: Repr): Option<Coercion> {
    if from == to then Some(Noop)
    else
      match (from, to)
      case (Heap(a), Heap(b)) => if SameContainerFamily(a, b) then Some(Noop) else None
      case (Heap(_), Tagged) => Some(Noop)
      case (Tagged, Heap(_)) => Some(TaggedToHeap)
      case (Closure(_), Tagged) => Some(Noop)
      case (Tagged, Closure(_)) => Some(TaggedToHeap)
      case (Raw(F64), Tagged) => Some(BoxFloat)
      case (Tagged, Raw(F64)) => Some(UnboxFloat)
      case (Raw(I8), Tagged) => Some(TagBool)
      case (Tagged, Raw(I8)) => Some(UntagBool)
      case (Raw(I64), Tagged) => Some(TagInt)
      case (Tagged, Raw(I64)) => Some(UntagInt)
      case _ => None
  }

  predicate IsLegalCheckedCoercion(from: Repr, to: Repr) {
    from.Tagged? &&
    match to
    case Raw(k) => k.F64? || k.I64? || k.I8?
    case Heap(shape) => HasDynCheck(shape)
    case _ => false
  }

  // ---- control flow ----

  function HandlerSeq(b: Block): seq<BlockId> {
    match b.handler
    case None => []
    case Some(h) => [h]
  }

  function TermTargets(t: Terminator): seq<BlockId> {
    match t
    case Return(_) => []
    case Unreachable => []
    case Jump(t) => [t]
    case Branch(_, a, b) => [a, b]
  }

  /** A block's terminator targets, then its handler edge. */
  function Successors(b: Block): seq<BlockId> {
    TermTargets(b.term) + HandlerSeq(b)
  }

  /** What every pass relies on and the verifier guarantees: ids are in range. */
  ghost predicate InstInRange(inst: Inst, n: nat) {
    (forall l :: l in Operands(inst) ==> l < n) && (Dst(inst).Some? ==> Dst(inst).value < n)
  }

  ghost predicate BlockInRange(b: Block, nlocals: nat, nblocks: nat) {
    (forall i :: 0 <= i < |b.insts| ==> InstInRange(b.insts[i], nlocals)) &&
    (forall l :: l in TermOperands(b.term) ==> l < nlocals) &&
    (forall s :: s in Successors(b) ==> s < nblocks)
  }

  ghost predicate InRange(f: Function) {
    f.entry < |f.blocks| &&
    forall b :: 0 <= b < |f.blocks| ==> BlockInRange(f.blocks[b], |f.locals|, |f.blocks|)
  }
}
