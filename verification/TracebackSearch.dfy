/** Finding the function an address belongs to: records sorted by where their code starts, and a binary search. */
module TracebackSearch {
  import opened Wrappers
  import opened TracebackTable

  /** Function `i` holds the address. */
  predicate Holds(starts: seq<nat>, fs: seq<FuncTb>, i: nat, pc: nat) {
    i < |starts| && i < |fs| && starts[i] <= pc < starts[i] + fs[i].codeSize
  }

  /** No two functions start at one address, and none runs into another. */
  predicate Apart(starts: seq<nat>, fs: seq<FuncTb>) {
    |starts| == |fs| &&
    forall i: nat, j: nat :: i < |fs| && j < |fs| && i != j ==>
      starts[i] != starts[j] && (starts[i] < starts[j] ==> starts[i] + fs[i].codeSize <= starts[j])
  }

  /** The records in the order sorting by start leaves them. */
  predicate Order(starts: seq<nat>, order: seq<nat>) {
    |order| == |starts| &&
    (forall k: nat :: k < |order| ==> order[k] < |starts|) &&
    (forall i: nat :: i < |starts| ==> i in order) &&
    forall j: nat, k: nat :: j < k < |order| ==> starts[order[j]] <= starts[order[k]]
  }

  /** An address is in at most one function. */
  lemma HoldsOnce(starts: seq<nat>, fs: seq<FuncTb>, i: nat, j: nat, pc: nat)
    requires Apart(starts, fs) && Holds(starts, fs, i, pc) && Holds(starts, fs, j, pc)
    ensures i == j
  {
  }

  /** How many records start at or before the address. */
  method CountUpTo(starts: seq<nat>, order: seq<nat>, pc: nat) returns (n: nat)
    requires Order(starts, order)
    ensures n <= |order|
    ensures forall k: nat :: k < |order| ==> (starts[order[k]] <= pc <==> k < n)
  {
    n := 0;
    var hi := |order|;
    while n < hi
      invariant n <= hi <= |order|
      invariant forall k: nat :: k < n ==> starts[order[k]] <= pc
      invariant forall k: nat :: hi <= k < |order| ==> pc < starts[order[k]]
    {
      var mid := (n + hi) / 2;
      if starts[order[mid]] <= pc {
        n := mid + 1;
      } else {
        hi := mid;
      }
    }
  }

  /** If any function holds the address, it is the last one to start at or before it. */
  lemma HolderIsLast(starts: seq<nat>, fs: seq<FuncTb>, order: seq<nat>, n: nat, i: nat, pc: nat)
    requires Apart(starts, fs) && Order(starts, order) && n <= |order| && Holds(starts, fs, i, pc)
    requires forall k: nat :: k < |order| ==> (starts[order[k]] <= pc <==> k < n)
    ensures n > 0 && order[n - 1] == i
  {
    assert i in order;
    var k: nat :| k < |order| && order[k] == i;
    if k < n - 1 {
      assert starts[order[k]] <= starts[order[n - 1]] <= pc;
    }
  }

  /** What an address should print: the frames of the one function that holds it, or nothing. */
  ghost predicate Prints(starts: seq<nat>, fs: seq<FuncTb>, pc: nat, r: Option<seq<Frame>>)
    requires forall f <- fs :: WellIndexed(f)
  {
    match r
    case None => forall i: nat :: !Holds(starts, fs, i, pc)
    case Some(frames) =>
      exists i: nat :: Holds(starts, fs, i, pc) && frames == FramesFor(fs[i], pc - starts[i])
  }

  /** Resolve an address against the blob of a whole program. */
  method ResolveAddress(b: seq<Byte>, starts: seq<nat>, order: seq<nat>, pc: nat, ghost fs: seq<FuncTb>)
    returns (r: Option<seq<Frame>>)
    requires forall f <- fs :: WellIndexed(f) && SortedByStart(f.locs)
    requires Describes(b, fs, RECORD_SIZE * |fs|, |fs|) && Apart(starts, fs) && Order(starts, order)
    ensures Prints(starts, fs, pc, r)
  {
    hide RecordAt, FramesFor, WellIndexed, SortedByStart, Read32;
    var n := CountUpTo(starts, order, pc);
    forall i: nat | Holds(starts, fs, i, pc)
      ensures n > 0 && order[n - 1] == i
    {
      HolderIsLast(starts, fs, order, n, i, pc);
    }
    if n == 0 {
      return None;
    }
    var rec := order[n - 1];
    assert RecordAt(b, RECORD_SIZE * |fs|, RECORD_SIZE * rec, fs[rec]);
    SizeIsRead(b, RECORD_SIZE * |fs|, RECORD_SIZE * rec, fs[rec]);
    if pc - starts[rec] >= Read32(b, RECORD_SIZE * rec + CODE_SIZE_AT) {
      return None;
    }
    r := Resolve(b, RECORD_SIZE * rec, pc - starts[rec], RECORD_SIZE * |fs|, fs[rec]);
  }

  lemma SizeIsRead(b: seq<Byte>, aux: nat, at: nat, f: FuncTb)
    requires WellIndexed(f) && RecordAt(b, aux, at, f)
    ensures at + RECORD_SIZE <= |b| && Read32(b, at + CODE_SIZE_AT) == f.codeSize
  {
  }

  /** There is one right answer. */
  lemma PrintsOneThing(starts: seq<nat>, fs: seq<FuncTb>, pc: nat, r: Option<seq<Frame>>, s: Option<seq<Frame>>)
    requires (forall f <- fs :: WellIndexed(f)) && Apart(starts, fs)
    requires Prints(starts, fs, pc, r) && Prints(starts, fs, pc, s)
    ensures r == s
  {
    if r.Some? && s.Some? {
      var i: nat :| Holds(starts, fs, i, pc) && r.value == FramesFor(fs[i], pc - starts[i]);
      var j: nat :| Holds(starts, fs, j, pc) && s.value == FramesFor(fs[j], pc - starts[j]);
      HoldsOnce(starts, fs, i, j, pc);
    }
  }
}
