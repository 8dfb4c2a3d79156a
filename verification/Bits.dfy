/** Dense bit sets over 64-bit words: in-place word operations that mean set operations. */
module BitSets {
  import opened BitOps

  type Word = n: nat | n < TWO64

  /** Bit `j` of a word: shift it down and look at the lowest bit. */
  predicate TestBit(n: nat, j: nat) {
    if j == 0 then n % 2 == 1 else TestBit(n / 2, j - 1)
  }

  /** A word operator works bit by bit. */
  lemma {:induction false} WordOpBit(t: Table, k: nat, x: nat, y: nat, j: nat)
    requires j < k
    ensures TestBit(WordOp(t, k, x, y), j) == Bit(t, TestBit(x, j), TestBit(y, j))
  {
    var r := WordOp(t, k, x, y);
    assert r / 2 == WordOp(t, k - 1, x / 2, y / 2) && (r % 2 == 1) == Bit(t, x % 2 == 1, y % 2 == 1);
    if j == 0 {
    } else {
      hide WordOp;
      WordOpBit(t, k - 1, x / 2, y / 2, j - 1);
    }
  }

  lemma {:induction false} WordOpFits(t: Table, k: nat, x: nat, y: nat)
    ensures WordOp(t, k, x, y) < Pow2(k)
  {
    if k == 0 {
    } else {
      WordOpFits(t, k - 1, x / 2, y / 2);
    }
  }

  /** Only bit `j` of `1 << j` is set. */
  lemma {:induction false} SingleBit(j: nat, i: nat)
    ensures TestBit(Pow2(j), i) <==> i == j
  {
    if j > 0 && i > 0 {
      SingleBit(j - 1, i - 1);
    } else if j == 0 && i > 0 {
      NoBits(i - 1);
    }
  }

  lemma {:induction false} NoBits(i: nat)
    ensures !TestBit(0, i)
  {
    if i == 0 {
    } else {
      NoBits(i - 1);
    }
  }

  lemma {:induction false} AllBits(k: nat, j: nat)
    requires j < k
    ensures TestBit(Pow2(k) - 1, j)
  {
    if j == 0 {
    } else {
      assert (Pow2(k) - 1) / 2 == Pow2(k - 1) - 1;
      AllBits(k - 1, j - 1);
    }
  }

  function Or(x: Word, y: Word): (r: Word)
    ensures forall j: nat :: j < 64 ==> (TestBit(r, j) <==> TestBit(x, j) || TestBit(y, j))
  {
    Pow2Values();
    WordOpFits(OrT, 64, x, y);
    var r := WordOp(OrT, 64, x, y);
    assert forall j: nat :: j < 64 ==> (TestBit(r, j) <==> TestBit(x, j) || TestBit(y, j)) by {
      forall j: nat | j < 64
        ensures TestBit(r, j) <==> TestBit(x, j) || TestBit(y, j)
      {
        WordOpBit(OrT, 64, x, y, j);
      }
    }
    r
  }

  /** `x & !y`. */
  function AndNot(x: Word, y: Word): (r: Word)
    ensures forall j: nat :: j < 64 ==> (TestBit(r, j) <==> TestBit(x, j) && !TestBit(y, j))
  {
    Pow2Values();
    var inverted := WordOp(XorT, 64, y, TWO64 - 1);
    WordOpFits(AndT, 64, x, inverted);
    var r := WordOp(AndT, 64, x, inverted);
    assert forall j: nat :: j < 64 ==> (TestBit(r, j) <==> TestBit(x, j) && !TestBit(y, j)) by {
      forall j: nat | j < 64
        ensures TestBit(r, j) <==> TestBit(x, j) && !TestBit(y, j)
      {
        WordOpBit(XorT, 64, y, TWO64 - 1, j);
        AllBits(64, j);
        WordOpBit(AndT, 64, x, inverted, j);
      }
    }
    r
  }

  function Shifted(j: nat): (r: Word)
    requires j < 64
    ensures forall i: nat :: TestBit(r, i) <==> i == j
  {
    Pow2Values();
    assert Pow2(j) <= Pow2(63) by { Pow2Grows(j, 63); }
    assert forall i: nat :: TestBit(Pow2(j), i) <==> i == j by {
      forall i: nat
        ensures TestBit(Pow2(j), i) <==> i == j
      {
        SingleBit(j, i);
      }
    }
    Pow2(j)
  }

  lemma {:induction false} Pow2Grows(j: nat, k: nat)
    requires j <= k
    ensures Pow2(j) <= Pow2(k)
  {
    if j >= k {
    } else {
      Pow2Grows(j, k - 1);
    }
  }

  function TrailingZeros(n: nat): nat
    requires n > 0
  {
    if n % 2 == 1 then 0 else 1 + TrailingZeros(n / 2)
  }

  /** The lowest set bit, and nothing below it. */
  lemma {:induction false} LowestBit(n: nat, j: nat)
    requires n > 0
    ensures TestBit(n, TrailingZeros(n)) && (j < TrailingZeros(n) ==> !TestBit(n, j))
  {
    if n % 2 == 1 {
    } else {
      LowestBit(n / 2, if j > 0 then j - 1 else 0);
    }
  }

  lemma {:induction false} LowestFits(n: nat, k: nat)
    requires 0 < n < Pow2(k)
    ensures TrailingZeros(n) < k
  {
    if n % 2 == 1 {
    } else {
      LowestFits(n / 2, k - 1);
    }
  }

  /** `n & (n - 1)` clears exactly the lowest set bit. */
  lemma {:induction false} DropLowest(n: nat, k: nat, j: nat)
    requires n > 0 && j < k
    ensures TestBit(WordOp(AndT, k, n, n - 1), j) <==> TestBit(n, j) && j != TrailingZeros(n)
  {
    hide WordOp;
    WordOpBit(AndT, k, n, n - 1, j);
    if n % 2 == 1 {
      assert n / 2 == (n - 1) / 2;
    } else {
      assert (n - 1) / 2 == n / 2 - 1;
      if j > 0 {
        DropLowest(n / 2, k - 1, j - 1);
        WordOpBit(AndT, k - 1, n / 2, n / 2 - 1, j - 1);
      }
    }
  }

  lemma {:induction false} DroppedIsSmaller(n: nat, k: nat)
    requires 0 < n < Pow2(k)
    ensures WordOp(AndT, k, n, n - 1) < n
  {
    if n % 2 == 1 {
      AndSame(n / 2, k - 1);
      assert (n - 1) / 2 == n / 2;
    } else {
      assert (n - 1) / 2 == n / 2 - 1;
      DroppedIsSmaller(n / 2, k - 1);
    }
  }

  lemma {:induction false} AndSame(n: nat, k: nat)
    requires n < Pow2(k)
    ensures WordOp(AndT, k, n, n) == n
  {
    if k == 0 {
    } else {
      AndSame(n / 2, k - 1);
    }
  }

  /** The members `i < 64 * |words|` a list of words stands for. */
  predicate Has(words: seq<Word>, i: nat) {
    i / 64 < |words| && TestBit(words[i / 64], i % 64)
  }

  /** Different words have a different bit. */
  lemma {:induction false} SomeBitDiffers(x: nat, y: nat, k: nat) returns (j: nat)
    requires x < Pow2(k) && y < Pow2(k) && x != y
    ensures j < k && TestBit(x, j) != TestBit(y, j)
  {
    if x % 2 != y % 2 {
      j := 0;
    } else {
      j := SomeBitDiffers(x / 2, y / 2, k - 1);
      j := j + 1;
    }
  }

  lemma SomeMemberDiffers(a: seq<Word>, b: seq<Word>) returns (i: nat)
    requires |a| == |b| && a != b
    ensures Has(a, i) != Has(b, i)
  {
    Pow2Values();
    var w :| 0 <= w < |a| && a[w] != b[w];
    var j := SomeBitDiffers(a[w], b[w], 64);
    i := 64 * w + j;
    assert i / 64 == w && i % 64 == j;
  }

  class Bits {
    var words: array<Word>

    ghost predicate Holds(i: nat)
      reads this, words
    {
      Has(words[..], i)
    }

    /** Room for `n` members, none of them in. */
    constructor (n: nat)
      ensures fresh(words) && n <= 64 * words.Length < n + 64
      ensures forall i: nat :: !Holds(i)
    {
      words := new Word[(n + 63) / 64](_ => 0);
      new;
      forall i: nat
        ensures !Holds(i)
      {
        NoBits(i % 64);
      }
    }

    method Clone() returns (copy: Bits)
      ensures fresh(copy) && fresh(copy.words) && copy.words[..] == words[..]
    {
      copy := new Bits(0);
      copy.words := new Word[words.Length](i requires 0 <= i < words.Length reads this, words => words[i]);
    }

    method Get(i: nat) returns (b: bool)
      requires i / 64 < words.Length
      ensures b == Holds(i)
    {
      b := TestBit(words[i / 64], i % 64);
    }

    method Set(i: nat)
      requires i / 64 < words.Length
      modifies words
      ensures forall j: nat :: Holds(j) <==> old(Holds(j)) || j == i
    {
      words[i / 64] := Or(words[i / 64], Shifted(i % 64));
    }

    method Clear(i: nat)
      requires i / 64 < words.Length
      modifies words
      ensures forall j: nat :: Holds(j) <==> old(Holds(j)) && j != i
    {
      words[i / 64] := AndNot(words[i / 64], Shifted(i % 64));
    }

    method UnionWith(o: Bits)
      requires o.words != words && o.words.Length == words.Length
      modifies words
      ensures forall j: nat :: Holds(j) <==> old(Holds(j)) || o.Holds(j)
    {
      for w := 0 to words.Length
        invariant forall v: nat, b: nat :: v < w && b < 64 ==>
          (TestBit(words[v], b) <==> TestBit(old(words[v]), b) || TestBit(o.words[v], b))
        invariant forall v: nat :: w <= v < words.Length ==> words[v] == old(words[v])
      {
        words[w] := Or(words[w], o.words[w]);
      }
    }

    /** The dataflow step in place: what is live after and not written joins what is read. */
    method AddUnwritten(after: Bits, written: Bits)
      requires after.words != words && written.words != words
      requires after.words.Length == words.Length == written.words.Length
      modifies words
      ensures forall j: nat :: Holds(j) <==> old(Holds(j)) || (after.Holds(j) && !written.Holds(j))
    {
      for w := 0 to words.Length
        invariant forall v: nat, b: nat :: v < w && b < 64 ==>
          (TestBit(words[v], b) <==>
           TestBit(old(words[v]), b) || (TestBit(after.words[v], b) && !TestBit(written.words[v], b)))
        invariant forall v: nat :: w <= v < words.Length ==> words[v] == old(words[v])
      {
        words[w] := Or(words[w], AndNot(after.words[w], written.words[w]));
      }
    }

    /** Comparing words compares members. */
    method Same(o: Bits) returns (b: bool)
      requires o.words.Length == words.Length
      ensures b <==> forall j: nat :: Holds(j) <==> o.Holds(j)
    {
      b := words[..] == o.words[..];
      if !b {
        ghost var j := SomeMemberDiffers(words[..], o.words[..]);
        assert Holds(j) != o.Holds(j);
      }
    }

    /** The members in ascending order, each once. */
    method Members() returns (members: seq<nat>)
      ensures forall i: nat :: i in members <==> Holds(i)
      ensures forall a: nat, b: nat :: a < b < |members| ==> members[a] < members[b]
    {
      members := [];
      for w := 0 to words.Length
        invariant forall i: nat :: i in members <==> i / 64 < w && Holds(i)
        invariant forall a: nat :: a < |members| ==> members[a] < 64 * w
        invariant forall a: nat, b: nat :: a < b < |members| ==> members[a] < members[b]
      {
        var one := WordMembers(words[w], 64 * w);
        assert forall a: nat :: a < |one| ==> one[a] in one;
        members := members + one;
      }
    }
  }

  /** `bits` is `word` without what is below `from`. */
  ghost predicate Above(bits: nat, word: nat, from: nat) {
    forall j: nat :: j < 64 ==> (TestBit(bits, j) <==> from <= j && TestBit(word, j))
  }

  lemma LowestTaken(bits: Word, word: nat, from: nat)
    requires bits > 0 && Above(bits, word, from)
    ensures var t := TrailingZeros(bits);
      from <= t < 64 && TestBit(word, t) && (forall j: nat :: from <= j < t ==> !TestBit(word, j)) &&
      Above(WordOp(AndT, 64, bits, bits - 1), word, t + 1)
  {
    hide TestBit, TrailingZeros, WordOp;
    Pow2Values();
    var t := TrailingZeros(bits);
    LowestFits(bits, 64);
    LowestBit(bits, t);
    var next := WordOp(AndT, 64, bits, bits - 1);
    forall j: nat | j < 64
      ensures TestBit(next, j) <==> t + 1 <= j && TestBit(word, j)
    {
      DropLowest(bits, 64, j);
      LowestBit(bits, j);
    }
    forall j: nat | from <= j < t
      ensures !TestBit(word, j)
    {
      LowestBit(bits, j);
    }
  }

  /** The members below `from` are listed, in order. */
  ghost predicate Taken(members: seq<nat>, word: nat, base: nat, from: nat) {
    (forall i: nat :: i in members <==> base <= i < base + from && TestBit(word, i - base)) &&
    (forall a: nat, b: nat :: a < b < |members| ==> members[a] < members[b])
  }

  lemma NoneTaken(word: nat, base: nat)
    ensures Taken([], word, base, 0) && Above(word, word, 0)
  {
  }

  lemma TakenStep(members: seq<nat>, word: nat, base: nat, from: nat, t: nat)
    requires Taken(members, word, base, from) && from <= t && TestBit(word, t)
    requires forall j: nat :: from <= j < t ==> !TestBit(word, j)
    ensures Taken(members + [base + t], word, base, t + 1)
  {
    hide TestBit;
    forall a: nat | a < |members|
      ensures members[a] < base + t
    {
      assert members[a] in members;
    }
  }

  lemma AllTaken(members: seq<nat>, word: nat, base: nat, from: nat)
    requires from <= 64 && Taken(members, word, base, from) && Above(0, word, from)
    ensures forall i: nat :: i in members <==> base <= i < base + 64 && TestBit(word, i - base)
    ensures forall a: nat, b: nat :: a < b < |members| ==> members[a] < members[b]
  {
    hide TestBit;
    forall j: nat | from <= j < 64
      ensures !TestBit(word, j)
    {
      NoBits(j);
    }
  }

  /** The set bits of one word from the lowest up, each cleared once taken. */
  method WordMembers(word: Word, base: nat) returns (members: seq<nat>)
    ensures forall i: nat :: i in members <==> base <= i < base + 64 && TestBit(word, i - base)
    ensures forall a: nat, b: nat :: a < b < |members| ==> members[a] < members[b]
  {
    hide TestBit, TrailingZeros, WordOp, Above, Taken;
    Pow2Values();
    members := [];
    var bits: Word := word;
    ghost var from: nat := 0;
    NoneTaken(word, base);
    while bits != 0
      invariant from <= 64 && Taken(members, word, base, from) && Above(bits, word, from)
      decreases bits
    {
      var t := TrailingZeros(bits);
      DroppedIsSmaller(bits, 64);
      LowestTaken(bits, word, from);
      TakenStep(members, word, base, from, t);
      members := members + [base + t];
      bits := WordOp(AndT, 64, bits, bits - 1);
      from := t + 1;
    }
    AllTaken(members, word, base, from);
  }
}
