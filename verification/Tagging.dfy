/** The low-bit tag scheme: a 61-bit fixnum, bool, none or sentinel in one 64-bit word. */
module Tagging {
  import opened Wrappers
  import opened Mir
  import opened BitOps

  const TAG_MASK := 7
  const INT_TAG := 1
  const BOOL_TAG := 3
  const NONE_TAG := 5
  const RESERVED_TAG := 7

  /** `i64::MIN >> 3` and `i64::MAX >> 3`. */
  const INT_MIN := -0x1000_0000_0000_0000
  const INT_MAX := 0x0FFF_FFFF_FFFF_FFFF

  predicate IntFits(n: int) {
    INT_MIN <= n <= INT_MAX
  }

  // ---- machine shifts ----

  function Shl3(v: I64): I64 {
    Wrap(v * 8)
  }

  /** Arithmetic shift right: floor division by eight. */
  function Sar3(v: I64): I64 {
    v / 8
  }

  /** The check generated code makes before tagging a machine integer inline. */
  predicate FitsCheck(v: I64) {
    Sar3(Shl3(v)) == v
  }

  /** The inline tagging path: shift, then or the tag in. */
  function TagInt(v: I64): I64 {
    I64Op(OrT, Shl3(v), INT_TAG)
  }

  /** `Value::from_int`, on the unsigned bits. */
  function FromInt(v: I64): nat {
    WordOp(OrT, 64, (ToUnsigned(v) * 8) % TWO64, INT_TAG)
  }

  /** `Value::unwrap_int`. */
  function UnwrapInt(bits: nat): I64 {
    Sar3(Wrap(bits))
  }

  /** Codegen's immediate for a constant; `None` needs a runtime constructor. */
  function TaggedImmediate(c: Const): Option<I64> {
    match c
    case IntLit(n) => if IntFits(n) then Some(I64Op(OrT, Shl3(n), INT_TAG)) else None
    case BoolLit(b) => Some(I64Op(OrT, if b then 8 else 0, BOOL_TAG))
    case NoneLit => Some(NONE_TAG)
    case NullPtr => Some(0)
    case Unbound => Some(RESERVED_TAG)
    case _ => None
  }

  /** Reading a word back by its tag bits. */
  function DecodeImmediate(bits: I64): Option<Const> {
    var tag := I64Op(AndT, bits, TAG_MASK);
    if tag == INT_TAG then Some(IntLit(Sar3(bits)))
    else if tag == BOOL_TAG then Some(BoolLit(Sar3(bits) % 2 == 1))
    else if bits == NONE_TAG then Some(NoneLit)
    else if bits == RESERVED_TAG then Some(Unbound)
    else if bits == 0 then Some(NullPtr)
    else None
  }

  /** `masked_imm` for a narrow register: the low bits, read back unsigned. */
  function MaskedImm(bits: nat, n: I64): nat
    requires bits == 8 || bits == 32
  {
    if bits == 8 then n % 0x100 else n % 0x1_0000_0000
  }

  // ---- the encodings agree ----

  lemma ShlExact(v: I64)
    requires IntFits(v)
    ensures Shl3(v) == v * 8
  {
    WrapOfRange(v * 8);
  }

  lemma ShlIsMultiple(v: I64)
    ensures Shl3(v) % 8 == 0
  {
    var n := v * 8;
    assert n % TWO64 == n - TWO64 * (n / TWO64);
    assert TWO64 == 8 * 0x2000_0000_0000_0000;
  }

  /** The inline overflow check accepts exactly the 61-bit range. */
  lemma FitsCheckIsIntFits(v: I64)
    ensures FitsCheck(v) <==> IntFits(v)
  {
    if IntFits(v) {
      ShlExact(v);
    } else {
      var s := Shl3(v);
      assert -TWO63 / 8 <= s / 8 <= (TWO63 - 1) / 8;
    }
  }

  lemma TagIntValue(v: I64)
    ensures TagInt(v) == Shl3(v) + 1
  {
    ShlIsMultiple(v);
    I64OpIsBitwise(OrT, Shl3(v), INT_TAG);
    OrTag(Shl3(v), INT_TAG);
  }

  lemma ToUnsignedOfWrap(n: int)
    ensures ToUnsigned(Wrap(n)) == n % TWO64
  {
  }

  lemma UnsignedMod(v: I64)
    ensures (ToUnsigned(v) * 8) % TWO64 == (v * 8) % TWO64
  {
    if v < 0 {
      var n := v * 8;
      assert ToUnsigned(v) * 8 == n + TWO64 * 8;
      ModUnique(n + TWO64 * 8, TWO64, n / TWO64 + 8, n % TWO64);
    }
  }

  /** The runtime's constructor and the generated code build the same word. */
  lemma FromIntIsTagInt(v: I64)
    ensures Wrap(FromInt(v)) == TagInt(v)
  {
    UnsignedMod(v);
    ToUnsignedOfWrap(v * 8);
  }

  /** Tag then untag is the identity exactly on the fixnum range. */
  lemma TagRoundTrip(v: I64)
    ensures UnwrapInt(FromInt(v)) == v <==> IntFits(v)
    ensures Sar3(TagInt(v)) == v <==> IntFits(v)
  {
    FromIntIsTagInt(v);
    TagIntValue(v);
    ShlIsMultiple(v);
    FitsCheckIsIntFits(v);
    assert Sar3(TagInt(v)) == Sar3(Shl3(v));
  }

  /** What masking and shifting read back out of a tagged word. */
  lemma TaggedWord(x: I64, tag: nat)
    requires x % 8 == 0 && tag < 8
    ensures I64Op(OrT, x, tag) == x + tag
    ensures I64Op(AndT, x + tag, TAG_MASK) == tag
    ensures Sar3(x + tag) == Sar3(x)
  {
    hide I64Op, Bitwise;
    I64OpIsBitwise(OrT, x, tag);
    OrTag(x, tag);
    I64OpIsBitwise(AndT, x + tag, TAG_MASK);
    AndMask(x + tag);
  }

  lemma FixnumRoundTrip(n: I64)
    requires IntFits(n)
    ensures DecodeImmediate(I64Op(OrT, Shl3(n), INT_TAG)) == Some(IntLit(n))
  {
    hide I64Op, Shl3, Sar3;
    ShlExact(n);
    TaggedWord(n * 8, INT_TAG);
    assert Sar3(n * 8) == n by {
      ShiftedBack(n);
    }
  }

  lemma ShiftedBack(n: I64)
    requires IntFits(n)
    ensures Sar3(n * 8) == n
  {
  }

  /** Every immediate decodes to the constant it encodes, so no two constants share a word. */
  lemma {:induction false} ImmediateRoundTrip(c: Const)
    requires TaggedImmediate(c).Some?
    ensures DecodeImmediate(TaggedImmediate(c).value) == Some(c)
  {
    hide I64Op;
    match c
    case IntLit(n) =>
      FixnumRoundTrip(n);
    case BoolLit(b) =>
      TaggedWord(if b then 8 else 0, BOOL_TAG);
    case NoneLit =>
      TaggedWord(0, NONE_TAG);
    case NullPtr =>
      TaggedWord(0, 0);
    case Unbound =>
      TaggedWord(0, RESERVED_TAG);
  }

  /** A constant gets a tagged-integer immediate exactly when it is a fixnum, with the runtime's bits. */
  lemma {:induction false} ImmediateIsFromInt(n: I64)
    ensures TaggedImmediate(IntLit(n)).Some? <==> IntFits(n)
    ensures IntFits(n) ==> TaggedImmediate(IntLit(n)).value == Wrap(FromInt(n))
  {
    FromIntIsTagInt(n);
  }
}

/** Floor division and modulo on machine integers, as straight-line corrected truncation. */
module FloorArith {
  import opened Mir
  import opened BitOps

  function Abs(n: int): nat {
    if n >= 0 then n else -n
  }

  function TruncQuot(a: int, b: int): int
    requires b != 0
  {
    var m := Abs(a) / Abs(b);
    if (a < 0) == (b < 0) then m else -m
  }

  function TruncRem(a: int, b: int): int
    requires b != 0
  {
    var m := Abs(a) % Abs(b);
    if a < 0 then -m else m
  }

  lemma QuotBound(m: nat, c: nat)
    requires c >= 1
    ensures m / c <= m
    ensures c >= 2 ==> m / c <= m / 2
  {
    assert m == c * (m / c) + m % c;
    if c >= 2 {
      assert 2 * (m / c) <= c * (m / c);
    }
  }

  /** The machine traps on a zero divisor and on this one overflow. */
  predicate Divides(a: I64, b: I64) {
    b != 0 && !(a == -TWO63 && b == -1)
  }

  /** Truncating machine division. */
  function SDiv(a: I64, b: I64): I64
    requires Divides(a, b)
  {
    QuotBound(Abs(a), Abs(b));
    TruncQuot(a, b)
  }

  function SRem(a: I64, b: I64): I64
    requires Divides(a, b)
  {
    TruncRem(a, b)
  }

  /** Truncation and floor differ: there is a remainder, on the other side of zero from the divisor. */
  predicate Adjust(r: I64, b: I64) {
    r != 0 && I64Op(XorT, r, b) < 0
  }

  function RawFloorMod(a: I64, b: I64): I64
    requires Divides(a, b)
  {
    var r := SRem(a, b);
    Wrap(r + (if Adjust(r, b) then b else 0))
  }

  function RawFloorDiv(a: I64, b: I64): I64
    requires Divides(a, b)
  {
    var q, r := SDiv(a, b), SRem(a, b);
    Wrap(q - (if Adjust(r, b) then 1 else 0))
  }

  /** Floor division with remainder, the remainder taking the divisor's sign. */
  predicate IsFloorDivMod(a: int, b: int, q: int, r: int) {
    a == b * q + r && (if b > 0 then 0 <= r < b else b < r <= 0)
  }

  lemma {:induction false} FloorDivModUnique(a: int, b: int, q: int, r: int, q': int, r': int)
    requires b != 0 && IsFloorDivMod(a, b, q, r) && IsFloorDivMod(a, b, q', r')
    ensures q == q' && r == r'
  {
    var d := q - q';
    assert b * d == r' - r;
    if b > 0 {
      SmallMultiple(b, d);
    } else {
      assert (-b) * (-d) == r' - r;
      SmallMultiple(-b, -d);
    }
  }

  /** Truncated quotient and remainder, the remainder taking the dividend's sign. */
  lemma TruncatedDivMod(a: int, b: int)
    requires b != 0
    ensures a == b * TruncQuot(a, b) + TruncRem(a, b)
    ensures Abs(TruncRem(a, b)) < Abs(b)
    ensures if a >= 0 then TruncRem(a, b) >= 0 else TruncRem(a, b) <= 0
  {
    var m: int, c: int := Abs(a), Abs(b);
    assert m == c * (m / c) + m % c;
    assert (-c) * (-(m / c)) == c * (m / c);
    assert c * (-(m / c)) == -(c * (m / c));
    assert (-c) * (m / c) == -(c * (m / c));
  }

  /** The sign-xor test: the remainder is nonzero and the signs differ. */
  lemma AdjustMeaning(r: I64, b: I64)
    ensures Adjust(r, b) <==> r != 0 && (r < 0) != (b < 0)
  {
    hide I64Op, Bitwise;
    I64OpIsBitwise(XorT, r, b);
    XorSign(r, b);
  }

  /** Correcting a truncated pair by one divisor gives the floor pair. */
  lemma CorrectedIsFloor(a: int, b: int, q: int, r: int)
    requires b != 0 && a == b * q + r && Abs(r) < Abs(b)
    requires r != 0 && (r < 0) != (b < 0)
    ensures IsFloorDivMod(a, b, q - 1, r + b)
  {
    assert b * (q - 1) == b * q - b;
  }

  /** The correction wraps nothing, and the result is exact floor division with modulus. */
  lemma {:induction false} RawFloorIsFloor(a: I64, b: I64)
    requires Divides(a, b)
    ensures IsFloorDivMod(a, b, RawFloorDiv(a, b), RawFloorMod(a, b))
    ensures RawFloorMod(a, b) == SRem(a, b) + (if Adjust(SRem(a, b), b) then b else 0)
    ensures RawFloorDiv(a, b) == SDiv(a, b) - (if Adjust(SRem(a, b), b) then 1 else 0)
  {
    hide Adjust, Wrap;
    var q, r := SDiv(a, b), SRem(a, b);
    TruncatedDivMod(a, b);
    QuotBound(Abs(a), Abs(b));
    AdjustMeaning(r, b);
    WrapOfRange(q);
    WrapOfRange(r);
    if Adjust(r, b) {
      WrapOfRange(q - 1);
      WrapOfRange(r + b);
      CorrectedIsFloor(a, b, q, r);
    }
  }

  /** The excluded pair is the only one whose floor quotient is not a machine integer. */
  lemma OnlyMinByMinusOneOverflows(a: I64, b: I64, q: int, r: int)
    requires b != 0 && IsFloorDivMod(a, b, q, r)
    ensures -TWO63 <= q < TWO63 <==> !(a == -TWO63 && b == -1)
  {
    if a == -TWO63 && b == -1 {
      FloorDivModUnique(a, b, q, r, TWO63, 0);
    } else {
      RawFloorIsFloor(a, b);
      FloorDivModUnique(a, b, q, r, RawFloorDiv(a, b), RawFloorMod(a, b));
    }
  }
}
