/**
 What a MIR program does: a fuel-indexed evaluator over an arbitrary world. The
 runtime library is a parameter, a record of functions whose types say which
 calls may raise and which may touch the world; so every theorem about the
 evaluator holds for every runtime of that shape. Results are compared exactly:
 value, final world (which carries the event trace), raise, trap or out of fuel.

 The front end promises two things no check repeats: raw arithmetic stays in range,
 and an unchecked narrowing meets a value of its shape. The machine does not look:
 it raises on overflow and moves the bits. A watched run does look, and stops at the
 first watched instruction whose promise is broken.
 */
module Semantics {
  import opened Wrappers
  import opened Mir
  import opened BitOps
  import FloorArith
  import Tagging

  /** Tagged integers are one value whatever their encoding; `Big` is the boxed form. */
  datatype Word =
    | Fix(n: int) | Big(n: int) | BoolW(b: bool) | NoneW | NullW | UnboundW
    | FloatBox(x: Ieee) | StrObj(id: nat) | BytesObj(id: nat) | Obj(id: nat, kind: Kind)
    | RawF64(x: Ieee) | RawI64(i: I64) | RawI32(bits: nat) | RawI8(bits: nat) | CodeAddr(sig: SigRepr)

  /** What a heap object physically is. An instance carries its class and all its ancestors. */
  datatype Kind =
    | StrK | BytesK | BigIntK | ListK | DictK | SetK | TupleK | IteratorK
    | ClosureK(sig: SigRepr) | InstanceK(ancestors: set<ClassId>) | RuntimeK(tag: nat)

  predicate IsValue(w: Word) {
    !(w.RawF64? || w.RawI64? || w.RawI32? || w.RawI8? || w.CodeAddr?)
  }

  type Value = w: Word | IsValue(w) witness NoneW

  /** A mathematical integer as a tagged value: a fixnum exactly when it fits. */
  function IntValue(n: int): Value {
    if Tagging.IntFits(n) then Fix(n) else Big(n)
  }

  function AsInt(w: Word): Option<int> {
    match w
    case Fix(n) => Some(n)
    case Big(n) => Some(n)
    case _ => None
  }

  /** IEEE arithmetic, left abstract; folding and the machine share it. */
  datatype FloatOps = FloatOps(
    add: (Ieee, Ieee) -> Ieee, sub: (Ieee, Ieee) -> Ieee, mul: (Ieee, Ieee) -> Ieee, div: (Ieee, Ieee) -> Ieee,
    neg: Ieee -> Ieee, cmp: (CmpOp, Ieee, Ieee) -> bool, zero: Ieee)

  datatype Outcome<V, W> = Done(value: V, world: W) | Raised(world: W)

  /** What a print call hands over. */
  datatype Shown = ShowNothing | ShowValue(v: Value) | ShowInt(i: I64) | ShowFloat(x: Ieee) | ShowBit(b: bool)

  /** What a register of the wrong class reads as. It could be anything; no verified run depends on it. */
  datatype Junk = Junk(value: Value, whole: I64, double: Ieee, bit: bool)

  /** The runtime library. Only functions returning an `Outcome` can raise. */
  datatype Runtime<!W> = Runtime(
    junk: Junk,
    fp: FloatOps,
    objBin: (BinaryOp, Value, Value, W) -> Outcome<Value, W>,
    objUnary: (UnaryOp, Value, W) -> Outcome<Value, W>,
    objCmp: (CmpOp, Value, Value, W) -> Outcome<bool, W>,
    truthy: (Value, W) -> Outcome<bool, W>,
    unboxFloat: (Value, W) -> Outcome<Ieee, W>,
    unboxInt: (Value, W) -> Outcome<I64, W>,
    unboxBool: (Value, W) -> Outcome<bool, W>,
    checkShape: (HeapShape, Value, W) -> Outcome<Value, W>,
    loadFloat: Value -> Ieee,
    shiftInt: Value -> I64,
    shiftBool: Value -> bool,
    builtin: (nat, seq<Value>, W) -> Outcome<Value, W>,
    getField: (Value, nat, W) -> Value,
    getFieldTagged: (Value, nat, W) -> Outcome<Value, W>,
    setField: (Value, nat, Value, W) -> W,
    setFieldTagged: (Value, nat, Value, W) -> Outcome<(), W>,
    getNamed: (Value, nat, W) -> Outcome<Value, W>,
    isInstance: (Value, ClassId, W) -> bool,
    cellGet: (Value, W) -> Value,
    cellSet: (Value, Value, W) -> W,
    globalGet: (nat, W) -> Value,
    globalSet: (nat, Value, W) -> W,
    show: (PrintKind, Shown, W) -> Outcome<(), W>,
    raise: (RaiseKind, seq<Value>, W) -> W,
    assertFail: W -> W,
    zeroDivision: W -> W,
    rawOverflow: (BinaryOp, I64, I64, W) -> W,
    mark: (nat, W) -> W)

  // ---- reading registers ----

  function AsValue(j: Junk, w: Word): Value {
    if IsValue(w) then w else j.value
  }

  function AsI64(j: Junk, w: Word): I64 {
    if w.RawI64? then w.i else j.whole
  }

  function AsFloat(j: Junk, w: Word): Ieee {
    if w.RawF64? then w.x else j.double
  }

  function AsBit(j: Junk, w: Word): bool {
    if w.RawI8? then w.bits != 0 else j.bit
  }

  function KindOf(w: Word): Option<Kind> {
    match w
    case StrObj(_) => Some(StrK)
    case BytesObj(_) => Some(BytesK)
    case Big(_) => Some(BigIntK)
    case Obj(_, kind) => Some(kind)
    case _ => None
  }

  /** A closure is physically a tuple; element types and arity are compile-time metadata only. */
  predicate KindFits(k: Kind, s: HeapShape) {
    match s
    case Str => k.StrK?
    case Bytes => k.BytesK?
    case BigInt => k.BigIntK?
    case List(_) => k.ListK?
    case Dict(_, _) => k.DictK?
    case Set(_) => k.SetK?
    case Tuple(_) => k.TupleK? || k.ClosureK?
    case TupleVar(_) => k.TupleK? || k.ClosureK?
    case Iterator(_) => k.IteratorK?
    case Class(c) => k.InstanceK? && c in k.ancestors
    case RuntimeObj(tag) => k == RuntimeK(tag)
  }

  /** Null, or an object of the shape's family. */
  predicate HasShape(w: Word, s: HeapShape) {
    w.NullW? || (KindOf(w).Some? && KindFits(KindOf(w).value, s))
  }

  /** The words a local of this representation may hold. */
  predicate HasRepr(w: Word, r: Repr) {
    match r
    case Raw(F64) => w.RawF64?
    case Raw(I64) => w.RawI64?
    case Raw(I32) => w.RawI32? && w.bits < 0x1_0000_0000
    case Raw(I8) => w.RawI8? && w.bits < 0x100
    case Tagged => IsValue(w)
    case Heap(shape) => HasShape(w, shape)
    case Closure(sig) => w.NullW? || KindOf(w) == Some(ClosureK(sig))
    case FuncPtr(sig) => w.NullW? || w == CodeAddr(sig)
    case Never => w.NullW?
  }

  /** What an undefined register of this class reads as. */
  function ZeroWord(r: Repr): (w: Word)
    ensures HasRepr(w, r)
  {
    match r
    case Raw(F64) => RawF64(Ieee(0))
    case Raw(I64) => RawI64(0)
    case Raw(I32) => RawI32(0)
    case Raw(I8) => RawI8(0)
    case _ => NullW
  }

  // ---- instructions without calls ----

  function ConstWord(c: Const, r: Repr): Word {
    match c
    case IntLit(n) =>
      (match r
       case Raw(I8) => RawI8(Tagging.MaskedImm(8, n))
       case Raw(I32) => RawI32(Tagging.MaskedImm(32, n))
       case Raw(_) => RawI64(n)
       case _ => IntValue(n))
    case FloatLit(x) => RawF64(x)
    case BoolLit(b) => BoolW(b)
    case NoneLit => NoneW
    case NullPtr => NullW
    case Unbound => UnboundW
    case StrLit(id) => StrObj(id)
    case BytesLit(id) => BytesObj(id)
    case BigIntLit(id) => Obj(id, BigIntK)
  }

  function CmpInt(op: CmpOp, a: int, b: int): bool {
    match op
    case Eq => a == b
    case NotEq => a != b
    case Lt => a < b
    case LtE => a <= b
    case Gt => a > b
    case GtE => a >= b
  }

  function BoolInt(b: bool): int {
    if b then 1 else 0
  }

  /** The integer operators the runtime computes without raising, on unbounded integers. */
  function IntOp(op: BinaryOp, a: int, b: int): Option<int> {
    match op
    case Add => Some(a + b)
    case Sub => Some(a - b)
    case Mul => Some(a * b)
    case BitAnd => Some(Bitwise(AndT, a, b))
    case BitOr => Some(Bitwise(OrT, a, b))
    case BitXor => Some(Bitwise(XorT, a, b))
    case _ => None
  }

  function TaggedBin<W>(rt: Runtime<W>, op: BinaryOp, a: Value, b: Value, w: W): Outcome<Value, W> {
    if AsInt(a).Some? && AsInt(b).Some? && IntOp(op, AsInt(a).value, AsInt(b).value).Some?
    then Done(IntValue(IntOp(op, AsInt(a).value, AsInt(b).value).value), w)
    else rt.objBin(op, a, b, w)
  }

  function TaggedCmp<W>(rt: Runtime<W>, op: CmpOp, a: Value, b: Value, w: W): Outcome<bool, W> {
    if AsInt(a).Some? && AsInt(b).Some? then Done(CmpInt(op, AsInt(a).value, AsInt(b).value), w)
    else if a.BoolW? && b.BoolW? then Done(CmpInt(op, BoolInt(a.b), BoolInt(b.b)), w)
    else rt.objCmp(op, a, b, w)
  }

  function TaggedTruthy<W>(rt: Runtime<W>, a: Value, w: W): Outcome<bool, W> {
    if AsInt(a).Some? then Done(AsInt(a).value != 0, w)
    else if a.BoolW? then Done(a.b, w)
    else if a.NoneW? then Done(false, w)
    else rt.truthy(a, w)
  }

  /** `Traps` is a machine trap, or an instruction code generation refuses. */
  datatype Effect<W> = Yields(word: Word, world: W) | Raises(world: W) | Traps

  function OfOutcome<W>(o: Outcome<Value, W>): Effect<W> {
    match o
    case Done(v, w) => Yields(v, w)
    case Raised(w) => Raises(w)
  }

  function OfBool<W>(o: Outcome<bool, W>): Effect<W> {
    match o
    case Done(b, w) => Yields(RawI8(BitVal(b)), w)
    case Raised(w) => Raises(w)
  }

  function OfNegated<W>(o: Outcome<bool, W>): Effect<W> {
    match o
    case Done(b, w) => Yields(RawI8(BitVal(!b)), w)
    case Raised(w) => Raises(w)
  }

  function OfUnit<W>(o: Outcome<(), W>): Effect<W> {
    match o
    case Done(_, w) => Yields(NullW, w)
    case Raised(w) => Raises(w)
  }

  predicate InI64(n: int) {
    -TWO63 <= n < TWO63
  }

  /** The overflow flag sends an operation to the runtime, which raises. */
  function InRangeOr<W>(n: int, w: W, raised: W): Effect<W> {
    if InI64(n) then Yields(RawI64(n), w) else Raises(raised)
  }

  /** Sums, differences and products raise on overflow; the truncating division traps where the machine does. */
  function RawIntBin<W>(rt: Runtime<W>, op: BinaryOp, a: I64, b: I64, w: W): Effect<W> {
    match op
    case Add => InRangeOr(a + b, w, rt.rawOverflow(op, a, b, w))
    case Sub => InRangeOr(a - b, w, rt.rawOverflow(op, a, b, w))
    case Mul => InRangeOr(a * b, w, rt.rawOverflow(op, a, b, w))
    case Mod => if FloorArith.Divides(a, b) then Yields(RawI64(FloorArith.RawFloorMod(a, b)), w) else Traps
    case FloorDiv => if FloorArith.Divides(a, b) then Yields(RawI64(FloorArith.RawFloorDiv(a, b)), w) else Traps
    case _ => Traps
  }

  function RawFloatBin<W>(rt: Runtime<W>, op: BinaryOp, a: Ieee, b: Ieee, w: W): Effect<W> {
    match op
    case Add => Yields(RawF64(rt.fp.add(a, b)), w)
    case Sub => Yields(RawF64(rt.fp.sub(a, b)), w)
    case Mul => Yields(RawF64(rt.fp.mul(a, b)), w)
    case Div => if rt.fp.cmp(Eq, b, rt.fp.zero) then Raises(rt.zeroDivision(w)) else Yields(RawF64(rt.fp.div(a, b)), w)
    case _ => Traps
  }

  function CheckedCoerce<W>(rt: Runtime<W>, to: Repr, v: Value, w: W): Effect<W> {
    match to
    case Raw(F64) =>
      if v.FloatBox? then Yields(RawF64(v.x), w)
      else (match rt.unboxFloat(v, w) case Done(x, w') => Yields(RawF64(x), w') case Raised(w') => Raises(w'))
    case Raw(I64) =>
      if v.Fix? && InI64(v.n) then Yields(RawI64(v.n), w)
      else (match rt.unboxInt(v, w) case Done(i, w') => Yields(RawI64(i), w') case Raised(w') => Raises(w'))
    case Raw(I8) =>
      if v.BoolW? then Yields(RawI8(BitVal(v.b)), w) else OfBool(rt.unboxBool(v, w))
    case Heap(shape) => OfOutcome(rt.checkShape(shape, v, w))
    case _ => Traps
  }

  /** Unchecked bridges move, box or reinterpret bits; they never raise. */
  function UncheckedCoerce<W>(rt: Runtime<W>, from: Repr, to: Repr, a: Word, w: W): Effect<W> {
    match ClassifyCoercion(from, to)
    case None => Traps
    case Some(BoxFloat) => Yields(FloatBox(AsFloat(rt.junk, a)), w)
    case Some(UnboxFloat) => Yields(RawF64(if a.FloatBox? then a.x else rt.loadFloat(AsValue(rt.junk, a))), w)
    case Some(TagInt) => Yields(IntValue(AsI64(rt.junk, a)), w)
    case Some(UntagInt) => Yields(RawI64(if a.Fix? && InI64(a.n) then a.n else rt.shiftInt(AsValue(rt.junk, a))), w)
    case Some(TagBool) => Yields(BoolW(AsBit(rt.junk, a)), w)
    case Some(UntagBool) => Yields(RawI8(BitVal(if a.BoolW? then a.b else rt.shiftBool(AsValue(rt.junk, a)))), w)
    case Some(_) => Yields(a, w)
  }

  function ReprOf(reprs: seq<Repr>, l: LocalId): Repr {
    if l < |reprs| then reprs[l] else Tagged
  }

  function RawOnly(k: RaiseKind): RaiseKind {
    match k
    case RaiseBuiltin(tag, msg) => RaiseBuiltin(tag, if msg.Some? then Some(0) else None)
    case RaiseCustom(cls, msg, _) => RaiseCustom(cls, if msg.Some? then Some(0) else None, 0)
    case RaiseInstance(_) => RaiseInstance(0)
    case Reraise => Reraise
  }

  type Locals = seq<Word>

  function Read(locals: Locals, l: LocalId): Word {
    if l < |locals| then locals[l] else NullW
  }

  function ReadAll(locals: Locals, ls: seq<LocalId>): seq<Word> {
    seq(|ls|, i requires 0 <= i < |ls| => Read(locals, ls[i]))
  }

  function ReadOpt(locals: Locals, o: Option<LocalId>): Word {
    if o.Some? then Read(locals, o.value) else NullW
  }

  function ValueAt(j: Junk, locals: Locals, l: LocalId): Value {
    AsValue(j, Read(locals, l))
  }

  function IntAt(j: Junk, locals: Locals, l: LocalId): I64 {
    AsI64(j, Read(locals, l))
  }

  function FloatAt(j: Junk, locals: Locals, l: LocalId): Ieee {
    AsFloat(j, Read(locals, l))
  }

  function BitAt(j: Junk, locals: Locals, l: LocalId): bool {
    AsBit(j, Read(locals, l))
  }

  function ValuesAt(j: Junk, locals: Locals, ls: seq<LocalId>): seq<Value> {
    seq(|ls|, i requires 0 <= i < |ls| => ValueAt(j, locals, ls[i]))
  }

  function Printed(j: Junk, kind: PrintKind, arg: Option<LocalId>, locals: Locals): Shown {
    match kind
    case PrintStr => ShowValue(AsValue(j, ReadOpt(locals, arg)))
    case PrintObj => ShowValue(AsValue(j, ReadOpt(locals, arg)))
    case PrintInt => ShowInt(AsI64(j, ReadOpt(locals, arg)))
    case PrintFloat => ShowFloat(AsFloat(j, ReadOpt(locals, arg)))
    case PrintBool => ShowBit(AsBit(j, ReadOpt(locals, arg)))
    case _ => ShowNothing
  }

  /** The message, if any, and the exception object, as the raising function takes them. */
  function Carried(j: Junk, k: RaiseKind, locals: Locals): seq<Value> {
    match k
    case RaiseBuiltin(_, msg) => if msg.Some? then [ValueAt(j, locals, msg.value)] else []
    case RaiseCustom(_, msg, instance) =>
      (if msg.Some? then [ValueAt(j, locals, msg.value)] else []) + [ValueAt(j, locals, instance)]
    case RaiseInstance(exc) => [ValueAt(j, locals, exc)]
    case Reraise => []
  }

  /** What an instruction comes to, and the local a yielded word goes to. */
  datatype Deed<W> = Deed(to: Option<LocalId>, effect: Effect<W>)

  /** One instruction other than a call, in the locals and the world it finds. */
  function Compute<W>(rt: Runtime<W>, reprs: seq<Repr>, inst: Inst, locals: Locals, w: W): Deed<W> {
    var j := rt.junk;
    match inst
    case Const(dst, val) => Deed(Some(dst), Yields(ConstWord(val, ReprOf(reprs, dst)), w))
    case Coerce(dst, src, from, to, checked) =>
      Deed(Some(dst), if checked then CheckedCoerce(rt, to, ValueAt(j, locals, src), w)
                      else UncheckedCoerce(rt, from, to, Read(locals, src), w))
    case BinOp(dst, op, l, r) =>
      Deed(Some(dst),
        match ReprOf(reprs, l)
        case Raw(F64) => RawFloatBin(rt, op, FloatAt(j, locals, l), FloatAt(j, locals, r), w)
        case Raw(_) => RawIntBin(rt, op, IntAt(j, locals, l), IntAt(j, locals, r), w)
        case _ => OfOutcome(TaggedBin(rt, op, ValueAt(j, locals, l), ValueAt(j, locals, r), w)))
    case Unary(dst, op, o) =>
      Deed(Some(dst),
        if ReprOf(reprs, o).Raw? then Yields(RawF64(rt.fp.neg(FloatAt(j, locals, o))), w)
        else if op == Not then OfNegated(TaggedTruthy(rt, ValueAt(j, locals, o), w))
        else OfOutcome(rt.objUnary(op, ValueAt(j, locals, o), w)))
    case Compare(dst, op, l, r) =>
      Deed(Some(dst),
        match ReprOf(reprs, l)
        case Raw(F64) => Yields(RawI8(BitVal(rt.fp.cmp(op, FloatAt(j, locals, l), FloatAt(j, locals, r)))), w)
        case Raw(_) => Yields(RawI8(BitVal(CmpInt(op, IntAt(j, locals, l), IntAt(j, locals, r)))), w)
        case _ => OfBool(TaggedCmp(rt, op, ValueAt(j, locals, l), ValueAt(j, locals, r), w)))
    case Truthy(dst, o) =>
      Deed(Some(dst),
        if ReprOf(reprs, o).Raw? then Yields(RawI8(BitVal(BitAt(j, locals, o))), w)
        else OfBool(TaggedTruthy(rt, ValueAt(j, locals, o), w)))
    case Call(ret, _, _) => Deed(ret, Traps)
    case CallBuiltin(ret, k, args) => Deed(ret, OfOutcome(rt.builtin(k, ValuesAt(j, locals, args), w)))
    case GetField(dst, base, slot) =>
      Deed(Some(dst),
        if ReprOf(reprs, base).Tagged? then OfOutcome(rt.getFieldTagged(ValueAt(j, locals, base), slot, w))
        else Yields(rt.getField(ValueAt(j, locals, base), slot, w), w))
    case SetField(base, slot, value) =>
      Deed(None,
        if ReprOf(reprs, base).Tagged?
        then OfUnit(rt.setFieldTagged(ValueAt(j, locals, base), slot, ValueAt(j, locals, value), w))
        else Yields(NullW, rt.setField(ValueAt(j, locals, base), slot, ValueAt(j, locals, value), w)))
    case GetFieldNamed(dst, base, h) => Deed(Some(dst), OfOutcome(rt.getNamed(ValueAt(j, locals, base), h, w)))
    case IsInstance(dst, value, cls) =>
      Deed(Some(dst), Yields(RawI8(BitVal(rt.isInstance(ValueAt(j, locals, value), cls, w))), w))
    case CellGet(dst, cell) => Deed(Some(dst), Yields(rt.cellGet(ValueAt(j, locals, cell), w), w))
    case CellSet(cell, value) =>
      Deed(None, Yields(NullW, rt.cellSet(ValueAt(j, locals, cell), ValueAt(j, locals, value), w)))
    case GlobalGet(dst, id) => Deed(Some(dst), Yields(rt.globalGet(id, w), w))
    case GlobalSet(id, value) => Deed(None, Yields(NullW, rt.globalSet(id, ValueAt(j, locals, value), w)))
    case Print(kind, arg) => Deed(None, OfUnit(rt.show(kind, Printed(j, kind, arg, locals), w)))
    case AssertFail => Deed(None, Raises(rt.assertFail(w)))
    case Raise(k) => Deed(None, Raises(rt.raise(RawOnly(k), Carried(j, k, locals), w)))
    case LineMarker(line) => Deed(None, Yields(NullW, rt.mark(line, w)))
  }

  // ---- promises ----

  /** Which instructions of which functions a run watches. */
  type Watch = (FuncId, Inst) -> bool

  function Unwatched(): Watch {
    (_, _) => false
  }

  /** An instruction without effects that does not yield, or bridges a word to a shape it does not have. */
  predicate BreaksPromise<W>(inst: Inst, reprs: seq<Repr>, e: Effect<W>) {
    !HasSideEffects(inst, reprs) && (!e.Yields? || (inst.Coerce? && !HasRepr(e.word, inst.to)))
  }

  // ---- blocks, functions, programs ----

  type Program = seq<Function>

  function Write(locals: Locals, o: Option<LocalId>, w: Word): Locals {
    if o.Some? && o.value < |locals| then locals[o.value := w] else locals
  }

  /** How a run of instructions ends: falls through, raises mid-block, or stops the program. */
  datatype Flow<W> =
    | Falls(locals: Locals, world: W)
    | Throws(locals: Locals, world: W)
    | Stops(why: Final<W>)

  datatype Exit<W> = Ends(why: Final<W>) | Goes(block: BlockId, locals: Locals, world: W)

  datatype Final<W> =
    | Returned(value: Word, world: W)
    | Escaped(world: W)
    | Trapped
    | BrokenPromise
    | OutOfFuel

  function EntryLocals(f: Function, args: seq<Word>): Locals {
    seq(|f.locals|, l requires 0 <= l < |f.locals| => if l < |args| then args[l] else ZeroWord(f.locals[l]))
  }

  function EvalFunc<W>(rt: Runtime<W>, m: Watch, p: Program, fuel: nat, id: FuncId, args: seq<Word>, w: W): Final<W>
    decreases fuel, 1, 0
  {
    if id >= |p| then Trapped else EvalBlock(rt, m, p, fuel, id, p[id].entry, EntryLocals(p[id], args), w)
  }

  function EvalBlock<W>(rt: Runtime<W>, m: Watch, p: Program, fuel: nat, id: FuncId, b: BlockId, locals: Locals,
        w: W): Final<W>
    requires id < |p|
    decreases fuel, 0, 0
  {
    if fuel == 0 then OutOfFuel
    else if b >= |p[id].blocks| then Trapped
    else
      var flow := EvalInsts(rt, m, p, fuel - 1, id, p[id].locals, p[id].blocks[b].insts, locals, w);
      match LeaveBlock(rt, p[id].blocks[b], p[id].ret, flow)
      case Ends(why) => why
      case Goes(b', locals', w') => EvalBlock(rt, m, p, fuel - 1, id, b', locals', w')
  }

  /** Where control goes when a block's instructions have fallen through, raised or stopped. */
  function LeaveBlock<W>(rt: Runtime<W>, blk: Block, ret: Repr, flow: Flow<W>): Exit<W> {
    match flow
    case Stops(why) => Ends(why)
    case Throws(locals, w) => if blk.handler.Some? then Goes(blk.handler.value, locals, w) else Ends(Escaped(w))
    case Falls(locals, w) =>
      match blk.term
      case Return(o) => Ends(Returned(if o.Some? then Read(locals, o.value) else ZeroWord(ret), w))
      case Jump(t) => Goes(t, locals, w)
      case Branch(c, thn, els) => Goes(if BitAt(rt.junk, locals, c) then thn else els, locals, w)
      case Unreachable => Ends(Trapped)
  }

  function EvalInsts<W>(rt: Runtime<W>, m: Watch, p: Program, fuel: nat, id: FuncId, reprs: seq<Repr>,
        insts: seq<Inst>, locals: Locals, w: W): Flow<W>
    decreases fuel, 2, |insts|
  {
    if insts == [] then Falls(locals, w)
    else
      match EvalInst(rt, m, p, fuel, id, reprs, insts[0], locals, w)
      case Falls(locals', w') => EvalInsts(rt, m, p, fuel, id, reprs, insts[1..], locals', w')
      case Throws(locals', w') => Throws(locals', w')
      case Stops(why) => Stops(why)
  }

  function EvalInst<W>(rt: Runtime<W>, m: Watch, p: Program, fuel: nat, id: FuncId, reprs: seq<Repr>, inst: Inst,
        locals: Locals, w: W): Flow<W>
    decreases fuel, 2, 0
  {
    if inst.Call? then
      match EvalFunc(rt, m, p, fuel, inst.func, ReadAll(locals, inst.args), w)
      case Returned(v, w') => Falls(Write(locals, inst.ret, v), w')
      case Escaped(w') => Throws(locals, w')
      case why => Stops(why)
    else Settle(m(id, inst), reprs, inst, locals, Compute(rt, reprs, inst, locals, w))
  }

  /** What an instruction's effect does to the locals and to control. */
  function Settle<W>(watched: bool, reprs: seq<Repr>, inst: Inst, locals: Locals, d: Deed<W>): Flow<W> {
    if watched && BreaksPromise(inst, reprs, d.effect) then Stops(BrokenPromise)
    else
      match d.effect
      case Yields(v, w) => Falls(Write(locals, d.to, v), w)
      case Raises(w) => Throws(locals, w)
      case Traps => Stops(Trapped)
  }

  // ---- watching changes nothing but where a run stops ----

  /** A watched run that breaks no promise is the machine's run. */
  lemma WatchedInst<W(!new)>(rt: Runtime<W>, m: Watch, p: Program, fuel: nat, id: FuncId, reprs: seq<Repr>, inst: Inst,
        locals: Locals, w: W)
    requires EvalInst(rt, m, p, fuel, id, reprs, inst, locals, w) != Stops(BrokenPromise)
    ensures EvalInst(rt, Unwatched(), p, fuel, id, reprs, inst, locals, w) ==
      EvalInst(rt, m, p, fuel, id, reprs, inst, locals, w)
    decreases fuel, 2, 0
  {
    hide Compute, EvalFunc, ReadAll, BreaksPromise;
    if inst.Call? {
      WatchedFunc(rt, m, p, fuel, inst.func, ReadAll(locals, inst.args), w);
    }
  }

  lemma {:induction false} WatchedInsts<W(!new)>(rt: Runtime<W>, m: Watch, p: Program, fuel: nat, id: FuncId,
        reprs: seq<Repr>, insts: seq<Inst>, locals: Locals, w: W)
    requires EvalInsts(rt, m, p, fuel, id, reprs, insts, locals, w) != Stops(BrokenPromise)
    ensures EvalInsts(rt, Unwatched(), p, fuel, id, reprs, insts, locals, w) ==
      EvalInsts(rt, m, p, fuel, id, reprs, insts, locals, w)
    decreases fuel, 2, |insts|
  {
    hide EvalInst;
    if insts == [] {
    } else {
      WatchedInst(rt, m, p, fuel, id, reprs, insts[0], locals, w);
      var step := EvalInst(rt, m, p, fuel, id, reprs, insts[0], locals, w);
      if step.Falls? {
        WatchedInsts(rt, m, p, fuel, id, reprs, insts[1..], step.locals, step.world);
      }
    }
  }

  lemma WatchedBlock<W(!new)>(rt: Runtime<W>, m: Watch, p: Program, fuel: nat, id: FuncId, b: BlockId,
        locals: Locals, w: W)
    requires id < |p| && EvalBlock(rt, m, p, fuel, id, b, locals, w) != BrokenPromise
    ensures EvalBlock(rt, Unwatched(), p, fuel, id, b, locals, w) == EvalBlock(rt, m, p, fuel, id, b, locals, w)
    decreases fuel, 0, 0
  {
    hide EvalInsts;
    if fuel > 0 && b < |p[id].blocks| {
      var blk := p[id].blocks[b];
      WatchedInsts(rt, m, p, fuel - 1, id, p[id].locals, blk.insts, locals, w);
      var e := LeaveBlock(rt, blk, p[id].ret, EvalInsts(rt, m, p, fuel - 1, id, p[id].locals, blk.insts, locals, w));
      if e.Goes? {
        WatchedBlock(rt, m, p, fuel - 1, id, e.block, e.locals, e.world);
      }
    }
  }

  lemma WatchedFunc<W(!new)>(rt: Runtime<W>, m: Watch, p: Program, fuel: nat, id: FuncId, args: seq<Word>, w: W)
    requires EvalFunc(rt, m, p, fuel, id, args, w) != BrokenPromise
    ensures EvalFunc(rt, Unwatched(), p, fuel, id, args, w) == EvalFunc(rt, m, p, fuel, id, args, w)
    decreases fuel, 1, 0
  {
    if id < |p| {
      WatchedBlock(rt, m, p, fuel, id, p[id].entry, EntryLocals(p[id], args), w);
    }
  }

  // ---- a run that watches nothing breaks nothing ----

  lemma {:induction false} UnwatchedInsts<W(!new)>(rt: Runtime<W>, p: Program, fuel: nat, id: FuncId,
        reprs: seq<Repr>, insts: seq<Inst>, locals: Locals, w: W)
    ensures EvalInsts(rt, Unwatched(), p, fuel, id, reprs, insts, locals, w) != Stops(BrokenPromise)
    decreases fuel, 2, |insts|
  {
    hide Compute, EvalFunc, ReadAll, BreaksPromise;
    if insts == [] {
    } else {
      if insts[0].Call? {
        UnwatchedFunc(rt, p, fuel, insts[0].func, ReadAll(locals, insts[0].args), w);
      }
      var step := EvalInst(rt, Unwatched(), p, fuel, id, reprs, insts[0], locals, w);
      if step.Falls? {
        UnwatchedInsts(rt, p, fuel, id, reprs, insts[1..], step.locals, step.world);
      }
    }
  }

  lemma UnwatchedBlock<W(!new)>(rt: Runtime<W>, p: Program, fuel: nat, id: FuncId, b: BlockId, locals: Locals, w: W)
    requires id < |p|
    ensures EvalBlock(rt, Unwatched(), p, fuel, id, b, locals, w) != BrokenPromise
    decreases fuel, 0, 0
  {
    hide EvalInsts;
    if fuel > 0 && b < |p[id].blocks| {
      var blk := p[id].blocks[b];
      UnwatchedInsts(rt, p, fuel - 1, id, p[id].locals, blk.insts, locals, w);
      var flow := EvalInsts(rt, Unwatched(), p, fuel - 1, id, p[id].locals, blk.insts, locals, w);
      var e := LeaveBlock(rt, blk, p[id].ret, flow);
      if e.Goes? {
        UnwatchedBlock(rt, p, fuel - 1, id, e.block, e.locals, e.world);
      }
    }
  }

  lemma UnwatchedFunc<W(!new)>(rt: Runtime<W>, p: Program, fuel: nat, id: FuncId, args: seq<Word>, w: W)
    ensures EvalFunc(rt, Unwatched(), p, fuel, id, args, w) != BrokenPromise
    decreases fuel, 1, 0
  {
    if id < |p| {
      UnwatchedBlock(rt, p, fuel, id, p[id].entry, EntryLocals(p[id], args), w);
    }
  }
}
