/**
 Bitwise operators twice: on unbounded two's-complement integers, which is what
 the language means, and on 64-bit machine words, which is what folding and the
 generated code compute. On machine integers they agree.
 */
module BitOps {
  import opened Mir

  datatype Table = AndT | OrT | XorT

  predicate Bit(t: Table, x: bool, y: bool) {
    match t
    case AndT => x && y
    case OrT => x || y
    case XorT => x != y
  }

  function BitVal(b: bool): nat {
    if b then 1 else 0
  }

  /** Bits of magnitude left before an integer is all sign bits. */
  function Mag(a: int): nat {
    if a >= 0 then a else -a - 1
  }

  /** The operator on infinitely sign-extended integers. */
  function Bitwise(t: Table, a: int, b: int): int
    decreases Mag(a) + Mag(b)
  {
    if Mag(a) == 0 && Mag(b) == 0 then 0 - BitVal(Bit(t, a == -1, b == -1)) as int
    else 2 * Bitwise(t, a / 2, b / 2) + BitVal(Bit(t, a % 2 == 1, b % 2 == 1))
  }

  function Pow2(k: nat): nat
    ensures Pow2(k) >= 1
  {
    if k == 0 then 1 else 2 * Pow2(k - 1)
  }

  /** The operator on the low `k` bits of two unsigned words. */
  function WordOp(t: Table, k: nat, x: nat, y: nat): nat {
    if k == 0 then 0
    else 2 * WordOp(t, k - 1, x / 2, y / 2) + BitVal(Bit(t, x % 2 == 1, y % 2 == 1))
  }

  const TWO64 := 0x1_0000_0000_0000_0000
  const TWO63 := 0x8000_0000_0000_0000

  function ToUnsigned(a: I64): nat {
    if a >= 0 then a else a + TWO64
  }

  /** The machine integer with these low 64 bits. */
  function Wrap(n: int): I64 {
    var u := n % TWO64;
    if u < TWO63 then u else u - TWO64
  }

  /** A 64-bit machine instruction on two registers. */
  function I64Op(t: Table, a: I64, b: I64): I64 {
    Wrap(WordOp(t, 64, ToUnsigned(a), ToUnsigned(b)))
  }

  lemma HalveMod(a: int, m: int)
    requires m >= 1
    ensures (a % (2 * m)) % 2 == a % 2
    ensures (a % (2 * m)) / 2 == (a / 2) % m
  {
    var q, r := a / (2 * m), a % (2 * m);
    assert a == 2 * (m * q) + r;
    assert a / 2 == m * q + r / 2;
    assert 0 <= r / 2 < m;
    ModUnique(a / 2, m, q, r / 2);
  }

  lemma SmallMultiple(m: int, d: int)
    requires m >= 1 && -m < m * d < m
    ensures d == 0
  {
  }

  lemma ModUnique(a: int, m: int, q: int, r: int)
    requires m >= 1 && a == m * q + r && 0 <= r < m
    ensures a % m == r && a / m == q
  {
    var d := a / m - q;
    assert m * d == r - a % m;
    SmallMultiple(m, d);
  }

  lemma DoubleMod(x: int, m: int, c: int)
    requires m >= 1 && 0 <= c <= 1
    ensures (2 * x + c) % (2 * m) == 2 * (x % m) + c
  {
    assert x == m * (x / m) + x % m;
    assert 2 * x + c == (2 * m) * (x / m) + (2 * (x % m) + c);
    ModUnique(2 * x + c, 2 * m, x / m, 2 * (x % m) + c);
  }

  /** The word operator computes the low bits of the unbounded one. */
  lemma {:induction false} WordOpIsBitwise(t: Table, k: nat, a: int, b: int)
    ensures WordOp(t, k, a % Pow2(k), b % Pow2(k)) == Bitwise(t, a, b) % Pow2(k)
  {
    if k == 0 {
    } else {
      var m := Pow2(k - 1);
      HalveMod(a, m);
      HalveMod(b, m);
      WordOpIsBitwise(t, k - 1, a / 2, b / 2);
      BitwiseStep(t, a, b);
      DoubleMod(Bitwise(t, a / 2, b / 2), m, BitVal(Bit(t, a % 2 == 1, b % 2 == 1)));
    }
  }

  /** The recursion equation also holds where the definition stops. */
  lemma BitwiseStep(t: Table, a: int, b: int)
    ensures Bitwise(t, a, b) == 2 * Bitwise(t, a / 2, b / 2) + BitVal(Bit(t, a % 2 == 1, b % 2 == 1))
  {
  }

  lemma {:induction false} BitwiseRange(t: Table, k: nat, a: int, b: int)
    requires 0 - Pow2(k) as int <= a < Pow2(k) && 0 - Pow2(k) as int <= b < Pow2(k)
    ensures 0 - Pow2(k) as int <= Bitwise(t, a, b) < Pow2(k)
  {
    if k == 0 {
    } else {
      BitwiseRange(t, k - 1, a / 2, b / 2);
      BitwiseStep(t, a, b);
    }
  }

  lemma WrapOfRange(n: int)
    requires -TWO63 <= n < TWO63
    ensures Wrap(n) == n
  {
    if n >= 0 {
      ModUnique(n, TWO64, 0, n);
    } else {
      ModUnique(n, TWO64, -1, n + TWO64);
    }
  }

  lemma WrapOfMod(n: int)
    ensures Wrap(n % TWO64) == Wrap(n)
  {
    ModUnique(n % TWO64, TWO64, 0, n % TWO64);
  }

  lemma Pow2Step(k: nat)
    requires k > 0
    ensures Pow2(0) == 1 && Pow2(k) == 2 * Pow2(k - 1)
  {
  }

  lemma Pow2Values()
    ensures Pow2(63) == TWO63 && Pow2(64) == TWO64
  {
    hide Pow2;
    Pow2Step(1);
    Pow2Add(1, 1);
    Pow2Add(2, 2);
    Pow2Step(64);
    Pow2Add(4, 4);
    Pow2Add(8, 8);
    Pow2Add(16, 16);
    Pow2Add(32, 32);
  }

  /** On machine integers the 64-bit instruction is the mathematical operator. */
  lemma {:induction false} I64OpIsBitwise(t: Table, a: I64, b: I64)
    ensures I64Op(t, a, b) == Bitwise(t, a, b)
  {
    Pow2Values();
    ModUnique(a, TWO64, if a >= 0 then 0 else -1, ToUnsigned(a));
    ModUnique(b, TWO64, if b >= 0 then 0 else -1, ToUnsigned(b));
    WordOpIsBitwise(t, 64, a, b);
    BitwiseRange(t, 63, a, b);
    WrapOfMod(Bitwise(t, a, b));
    WrapOfRange(Bitwise(t, a, b));
  }

  lemma {:induction false} Pow2Add(j: nat, k: nat)
    ensures Pow2(j + k) == Pow2(j) * Pow2(k)
  {
    if j == 0 {
    } else {
      Pow2Add(j - 1, k);
    }
  }

  /** An exclusive or is negative exactly when the signs differ. */
  lemma {:induction false} XorSign(a: int, b: int)
    ensures Bitwise(XorT, a, b) < 0 <==> (a < 0) != (b < 0)
    decreases Mag(a) + Mag(b)
  {
    if Mag(a) == 0 && Mag(b) == 0 {
    } else {
      XorSign(a / 2, b / 2);
    }
  }

  /** Or-ing a tag below eight into a multiple of eight adds it. */
  lemma OrTag(x: int, tag: int)
    requires x % 8 == 0 && 0 <= tag < 8
    ensures Bitwise(OrT, x, tag) == x + tag
  {
    BitwiseStep(OrT, x, tag);
    BitwiseStep(OrT, x / 2, tag / 2);
    BitwiseStep(OrT, x / 4, tag / 4);
    assert x / 2 / 2 == x / 4 && x / 4 / 2 == x / 8 && tag / 2 / 2 == tag / 4 && tag / 4 / 2 == 0;
    OrZero(x / 8);
  }

  lemma {:induction false} OrZero(x: int)
    ensures Bitwise(OrT, x, 0) == x
    decreases Mag(x)
  {
    if Mag(x) == 0 {
    } else {
      OrZero(x / 2);
    }
  }

  /** Masking with 7 is reading the three tag bits. */
  lemma AndMask(x: int)
    ensures Bitwise(AndT, x, 7) == x % 8
  {
    BitwiseStep(AndT, x, 7);
    BitwiseStep(AndT, x / 2, 3);
    BitwiseStep(AndT, x / 4, 1);
    assert x / 2 / 2 == x / 4 && x / 4 / 2 == x / 8;
    AndZero(x / 8);
  }

  lemma {:induction false} AndZero(x: int)
    ensures Bitwise(AndT, x, 0) == 0
    decreases Mag(x)
  {
    if Mag(x) == 0 {
    } else {
      AndZero(x / 2);
    }
  }
}
