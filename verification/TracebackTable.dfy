/**
 The traceback table: a blob of fixed-size records followed by strings, line ranges and inline chains, and the
 reader that resolves a code offset to the frames it prints.
 */
module TracebackTable {
  import opened Wrappers

  type Byte = n: int | 0 <= n < 256
  type U32 = n: int | 0 <= n < 0x1_0000_0000

  /** Marks a line entry as an inline chain's offset. */
  const INLINE_FLAG: U32 := 0x8000_0000

  const RECORD_SIZE: nat := 32
  const CODE_SIZE_AT: nat := 8
  const NAME_AT: nat := 12
  const FILE_AT: nat := 20
  const LOC_AT: nat := 28
  const LOC_SIZE: nat := 12
  const FRAME_SIZE: nat := 20

  datatype Frame = Frame(name: seq<Byte>, file: seq<Byte>, line: U32)
  datatype Loc = Loc(start: U32, end: U32, line: U32)
  datatype FuncTb = FuncTb(name: seq<Byte>, file: seq<Byte>, codeSize: U32, chains: seq<seq<Frame>>, locs: seq<Loc>)

  /** The cast a length goes through; it wraps. */
  function AsU32(n: nat): U32 {
    n % 0x1_0000_0000
  }

  lemma Exact(n: nat)
    requires n < 0x1_0000_0000
    ensures AsU32(n) == n
  {
  }

  function Le(v: U32): (s: seq<Byte>)
    ensures |s| == 4
  {
    var (b1, b2, b3) := (v / 256, v / 256 / 256, v / 256 / 256 / 256);
    [v % 256, b1 % 256, b2 % 256, b3]
  }

  function Read32(b: seq<Byte>, at: nat): U32
    requires at + 4 <= |b|
  {
    var (b0: int, b1: int, b2: int, b3: int) := (b[at], b[at + 1], b[at + 2], b[at + 3]);
    b0 + 0x100 * b1 + 0x1_0000 * b2 + 0x100_0000 * b3
  }

  lemma BytesOf(v: U32)
    ensures Le(v)[0] as int + 0x100 * Le(v)[1] as int + 0x1_0000 * Le(v)[2] as int + 0x100_0000 * Le(v)[3] as int == v
  {
    var b1 := v / 256;
    var b2 := b1 / 256;
    assert v == 256 * b1 + v % 256 && b1 == 256 * b2 + b1 % 256 && b2 == 256 * (b2 / 256) + b2 % 256;
  }

  lemma ReadLe(b: seq<Byte>, at: nat, v: U32)
    requires at + 4 <= |b| && b[at..at + 4] == Le(v)
    ensures Read32(b, at) == v
  {
    hide Le;
    BytesOf(v);
    assert b[at..at + 4][0] == b[at] && b[at..at + 4][1] == b[at + 1];
    assert b[at..at + 4][2] == b[at + 2] && b[at..at + 4][3] == b[at + 3];
  }

  // ---- what the layout promises about a blob whose auxiliary area starts at `aux` ----

  predicate StrAt(b: seq<Byte>, aux: nat, off: nat, len: nat, s: seq<Byte>) {
    aux <= off && off + len <= |b| && b[off..off + len] == s
  }

  predicate FrameAt(b: seq<Byte>, aux: nat, at: nat, f: Frame) {
    aux <= at && at + FRAME_SIZE <= |b| &&
    StrAt(b, aux, Read32(b, at), Read32(b, at + 4), f.name) &&
    StrAt(b, aux, Read32(b, at + 8), Read32(b, at + 12), f.file) &&
    Read32(b, at + 16) == f.line
  }

  predicate ChainAt(b: seq<Byte>, aux: nat, at: nat, chain: seq<Frame>) {
    aux <= at && at + 4 + FRAME_SIZE * |chain| <= |b| && Read32(b, at) == |chain| &&
    forall k: nat :: k < |chain| ==> FrameAt(b, aux, at + 4 + FRAME_SIZE * k, chain[k])
  }

  /** A flagged line must name one of its function's chains. */
  predicate Indexed(loc: Loc, chains: seq<seq<Frame>>) {
    loc.line >= INLINE_FLAG ==> loc.line - INLINE_FLAG < |chains|
  }

  predicate LocAt(b: seq<Byte>, aux: nat, at: nat, loc: Loc, chains: seq<seq<Frame>>)
    requires Indexed(loc, chains)
  {
    aux <= at && at + LOC_SIZE <= |b| && Read32(b, at) == loc.start && Read32(b, at + 4) == loc.end &&
    if loc.line < INLINE_FLAG then Read32(b, at + 8) == loc.line
    else
      Read32(b, at + 8) >= INLINE_FLAG &&
      ChainAt(b, aux, Read32(b, at + 8) - INLINE_FLAG, chains[loc.line - INLINE_FLAG])
  }

  predicate WellIndexed(f: FuncTb) {
    forall loc <- f.locs :: Indexed(loc, f.chains)
  }

  predicate LocsAt(b: seq<Byte>, aux: nat, at: nat, f: FuncTb)
    requires WellIndexed(f)
  {
    aux <= at && at + LOC_SIZE * |f.locs| <= |b| &&
    forall k: nat :: k < |f.locs| ==> LocAt(b, aux, at + LOC_SIZE * k, f.locs[k], f.chains)
  }

  /** Record `at` of the blob describes `f`. */
  predicate RecordAt(b: seq<Byte>, aux: nat, at: nat, f: FuncTb)
    requires WellIndexed(f)
  {
    at + RECORD_SIZE <= aux <= |b| && HeaderAt(b, aux, at, f) && LineAreaAt(b, aux, Read32(b, at + LOC_AT), f)
  }

  predicate HeaderAt(b: seq<Byte>, aux: nat, at: nat, f: FuncTb) {
    at + RECORD_SIZE <= aux <= |b| && Read32(b, at + CODE_SIZE_AT) == f.codeSize &&
    StrAt(b, aux, Read32(b, at + NAME_AT), Read32(b, at + NAME_AT + 4), f.name) &&
    StrAt(b, aux, Read32(b, at + FILE_AT), Read32(b, at + FILE_AT + 4), f.file)
  }

  predicate LineAreaAt(b: seq<Byte>, aux: nat, at: nat, f: FuncTb)
    requires WellIndexed(f)
  {
    aux <= at && at + 4 <= |b| && Read32(b, at) == |f.locs| && LocsAt(b, aux, at + 4, f)
  }

  // ---- later writes leave earlier ones readable ----

  /** `c` is `b` with bytes appended and only `[from, to)` rewritten. */
  predicate Later(b: seq<Byte>, c: seq<Byte>, from: nat, to: nat) {
    |b| <= |c| && forall p: nat :: p < |b| && (p < from || to <= p) ==> c[p] == b[p]
  }

  lemma PrefixIsLater(b: seq<Byte>, c: seq<Byte>)
    requires b <= c
    ensures Later(b, c, 0, 0)
  {
  }

  lemma LaterTransitive(b: seq<Byte>, c: seq<Byte>, d: seq<Byte>, from: nat, to: nat)
    requires Later(b, c, from, to) && Later(c, d, from, to)
    ensures Later(b, d, from, to)
  {
  }

  lemma LaterWidens(b: seq<Byte>, c: seq<Byte>, from: nat, to: nat, from': nat, to': nat)
    requires Later(b, c, from, to) && (from == to || from' <= from <= to <= to')
    ensures Later(b, c, from', to')
  {
  }

  lemma ReadStays(b: seq<Byte>, c: seq<Byte>, from: nat, to: nat, at: nat)
    requires Later(b, c, from, to) && at + 4 <= |b| && (at + 4 <= from || to <= at)
    ensures Read32(c, at) == Read32(b, at)
  {
  }

  lemma StrStays(b: seq<Byte>, c: seq<Byte>, from: nat, to: nat, aux: nat, off: nat, len: nat, s: seq<Byte>)
    requires Later(b, c, from, to) && to <= aux && StrAt(b, aux, off, len, s)
    ensures StrAt(c, aux, off, len, s)
  {
    assert c[off..off + len] == b[off..off + len];
  }

  lemma ChainStays(b: seq<Byte>, c: seq<Byte>, from: nat, to: nat, aux: nat, at: nat, chain: seq<Frame>)
    requires Later(b, c, from, to) && to <= aux && ChainAt(b, aux, at, chain)
    ensures ChainAt(c, aux, at, chain)
  {
    ReadStays(b, c, from, to, at);
    forall k: nat | k < |chain|
      ensures FrameAt(c, aux, at + 4 + FRAME_SIZE * k, chain[k])
    {
      FrameStays(b, c, from, to, aux, at + 4 + FRAME_SIZE * k, chain[k]);
    }
  }

  lemma FrameStays(b: seq<Byte>, c: seq<Byte>, from: nat, to: nat, aux: nat, at: nat, f: Frame)
    requires Later(b, c, from, to) && to <= aux && FrameAt(b, aux, at, f)
    ensures FrameAt(c, aux, at, f)
  {
    hide Later, StrAt, Read32;
    ReadStays(b, c, from, to, at);
    ReadStays(b, c, from, to, at + 4);
    ReadStays(b, c, from, to, at + 8);
    ReadStays(b, c, from, to, at + 12);
    ReadStays(b, c, from, to, at + 16);
    StrStays(b, c, from, to, aux, Read32(b, at), Read32(b, at + 4), f.name);
    StrStays(b, c, from, to, aux, Read32(b, at + 8), Read32(b, at + 12), f.file);
    assert |b| <= |c| by { LaterGrows(b, c, from, to); }
  }

  lemma LaterGrows(b: seq<Byte>, c: seq<Byte>, from: nat, to: nat)
    requires Later(b, c, from, to)
    ensures |b| <= |c|
  {
  }

  lemma LocStays(b: seq<Byte>, c: seq<Byte>, from: nat, to: nat, aux: nat, at: nat, loc: Loc, chains: seq<seq<Frame>>)
    requires Indexed(loc, chains)
    requires Later(b, c, from, to) && to <= aux && LocAt(b, aux, at, loc, chains)
    ensures LocAt(c, aux, at, loc, chains)
  {
    hide Later, Read32, ChainAt;
    LaterGrows(b, c, from, to);
    ReadStays(b, c, from, to, at);
    ReadStays(b, c, from, to, at + 4);
    ReadStays(b, c, from, to, at + 8);
    if loc.line >= INLINE_FLAG {
      ChainStays(b, c, from, to, aux, Read32(b, at + 8) - INLINE_FLAG, chains[loc.line - INLINE_FLAG]);
    }
  }

  lemma LocsStay(b: seq<Byte>, c: seq<Byte>, from: nat, to: nat, aux: nat, at: nat, f: FuncTb)
    requires WellIndexed(f) && Later(b, c, from, to) && to <= aux && LocsAt(b, aux, at, f)
    ensures LocsAt(c, aux, at, f)
  {
    hide LocAt;
    forall k: nat | k < |f.locs|
      ensures LocAt(c, aux, at + LOC_SIZE * k, f.locs[k], f.chains)
    {
      LocStays(b, c, from, to, aux, at + LOC_SIZE * k, f.locs[k], f.chains);
    }
  }

  lemma HeaderStays(b: seq<Byte>, c: seq<Byte>, from: nat, to: nat, aux: nat, at: nat, f: FuncTb)
    requires Later(b, c, from, to) && to <= aux && HeaderAt(b, aux, at, f)
    requires at + LOC_AT <= from || to <= at
    ensures HeaderAt(c, aux, at, f)
  {
    hide Later, Read32, StrAt;
    LaterGrows(b, c, from, to);
    ReadStays(b, c, from, to, at + CODE_SIZE_AT);
    ReadStays(b, c, from, to, at + NAME_AT);
    ReadStays(b, c, from, to, at + NAME_AT + 4);
    ReadStays(b, c, from, to, at + FILE_AT);
    ReadStays(b, c, from, to, at + FILE_AT + 4);
    StrStays(b, c, from, to, aux, Read32(b, at + NAME_AT), Read32(b, at + NAME_AT + 4), f.name);
    StrStays(b, c, from, to, aux, Read32(b, at + FILE_AT), Read32(b, at + FILE_AT + 4), f.file);
  }

  /** Rewriting one record and appending to the auxiliary area leaves every other record intact. */
  lemma RecordStays(b: seq<Byte>, c: seq<Byte>, from: nat, to: nat, aux: nat, at: nat, f: FuncTb)
    requires WellIndexed(f) && Later(b, c, from, to) && to <= aux
    requires RecordAt(b, aux, at, f) && (at + RECORD_SIZE <= from || to <= at)
    ensures RecordAt(c, aux, at, f)
  {
    hide Later, Read32, HeaderAt, LocsAt;
    LaterGrows(b, c, from, to);
    HeaderStays(b, c, from, to, aux, at, f);
    ReadStays(b, c, from, to, at + LOC_AT);
    ReadStays(b, c, from, to, Read32(b, at + LOC_AT));
    LocsStay(b, c, from, to, aux, Read32(b, at + LOC_AT) + 4, f);
  }

  // ---- the writer ----

  /** Offsets and lengths are exact while the blob stays below 4 GiB. */
  predicate Small(b: seq<Byte>) {
    |b| < 0x1_0000_0000
  }

  /** Below 2 GiB an offset also leaves the flag bit free. */
  predicate FlagFree(b: seq<Byte>) {
    |b| < 0x8000_0000
  }

  /** Every interned string is in the auxiliary area, at the offset it was interned with. */
  predicate Interned(b: seq<Byte>, aux: nat, strings: map<seq<Byte>, U32>) {
    forall s <- strings :: StrAt(b, aux, strings[s], |s|, s)
  }

  lemma InternedStays(b: seq<Byte>, c: seq<Byte>, from: nat, to: nat, aux: nat, strings: map<seq<Byte>, U32>)
    requires Later(b, c, from, to) && to <= aux && Interned(b, aux, strings)
    ensures Interned(c, aux, strings)
  {
    hide StrAt;
    forall s <- strings
      ensures StrAt(c, aux, strings[s], |s|, s)
    {
      StrStays(b, c, from, to, aux, strings[s], |s|, s);
    }
  }

  /** Overwrite four bytes in place. */
  function Patch(b: seq<Byte>, at: nat, v: U32): (c: seq<Byte>)
    requires at + 4 <= |b|
    ensures Later(b, c, at, at + 4) && |c| == |b| && Read32(c, at) == v
  {
    var c := b[..at] + Le(v) + b[at + 4..];
    assert c[at..at + 4] == Le(v);
    ReadLe(c, at, v);
    c
  }

  /** Append one 32-bit value. */
  function Append32(b: seq<Byte>, v: U32): (c: seq<Byte>)
    ensures b <= c && |c| == |b| + 4 && Read32(c, |b|) == v
  {
    var c := b + Le(v);
    assert c[|b|..|b| + 4] == Le(v);
    ReadLe(c, |b|, v);
    c
  }

  /** A string seen before keeps its offset; a new one goes at the end. */
  method Intern(b: seq<Byte>, aux: nat, strings: map<seq<Byte>, U32>, s: seq<Byte>)
    returns (c: seq<Byte>, strings': map<seq<Byte>, U32>, off: U32)
    requires aux <= |b| && (Small(b) ==> Interned(b, aux, strings))
    ensures b <= c && |c| <= |b| + |s|
    ensures Small(c) ==> Interned(c, aux, strings') && StrAt(c, aux, off, AsU32(|s|), s)
  {
    hide Interned, StrAt;
    if s in strings {
      if Small(b) {
        AlreadyInterned(b, aux, strings, s);
      }
      return b, strings, strings[s];
    }
    off := AsU32(|b|);
    c := b + s;
    strings' := strings[s := off];
    if Small(c) {
      NewlyInterned(b, aux, strings, s);
    }
  }

  lemma AlreadyInterned(b: seq<Byte>, aux: nat, strings: map<seq<Byte>, U32>, s: seq<Byte>)
    requires Interned(b, aux, strings) && Small(b) && s in strings
    ensures StrAt(b, aux, strings[s], AsU32(|s|), s)
  {
  }

  lemma NewlyInterned(b: seq<Byte>, aux: nat, strings: map<seq<Byte>, U32>, s: seq<Byte>)
    requires aux <= |b| && Interned(b, aux, strings) && Small(b + s)
    ensures Interned(b + s, aux, strings[s := |b|]) && StrAt(b + s, aux, |b|, |s|, s)
  {
    InternedStays(b, b + s, 0, 0, aux, strings);
    assert (b + s)[|b|..|b| + |s|] == s;
  }

  /** Pad to a multiple of four. */
  method Align(b: seq<Byte>) returns (c: seq<Byte>)
    ensures b <= c && |c| <= |b| + 3 && |c| % 4 == 0
  {
    c := b;
    ghost var end := |b| + (4 - |b| % 4) % 4;
    while |c| % 4 != 0
      invariant b <= c && |c| <= end
      decreases end - |c|
    {
      c := c + [0];
    }
  }

  /** Where a frame's two strings are. */
  datatype Placed = Placed(nameOff: U32, nameLen: U32, fileOff: U32, fileLen: U32)

  predicate PlacedAt(b: seq<Byte>, aux: nat, p: Placed, f: Frame) {
    StrAt(b, aux, p.nameOff, p.nameLen, f.name) && StrAt(b, aux, p.fileOff, p.fileLen, f.file)
  }

  predicate AllPlaced(b: seq<Byte>, aux: nat, ps: seq<Placed>, chain: seq<Frame>) {
    |ps| <= |chain| && forall k: nat :: k < |ps| ==> PlacedAt(b, aux, ps[k], chain[k])
  }

  lemma PlacedStays(b: seq<Byte>, c: seq<Byte>, aux: nat, ps: seq<Placed>, chain: seq<Frame>)
    requires b <= c && AllPlaced(b, aux, ps, chain)
    ensures AllPlaced(c, aux, ps, chain)
  {
    hide StrAt;
    forall k: nat | k < |ps|
      ensures PlacedAt(c, aux, ps[k], chain[k])
    {
      StrStays(b, c, 0, 0, aux, ps[k].nameOff, ps[k].nameLen, chain[k].name);
      StrStays(b, c, 0, 0, aux, ps[k].fileOff, ps[k].fileLen, chain[k].file);
    }
  }

  function StringsSize(chain: seq<Frame>): nat {
    if chain == [] then 0
    else
      var last := chain[|chain| - 1];
      StringsSize(chain[..|chain| - 1]) + |last.name| + |last.file|
  }

  /** The most one chain can take: nothing shared, and all the padding. */
  function ChainSize(chain: seq<Frame>): nat {
    StringsSize(chain) + 3 + 4 + FRAME_SIZE * |chain|
  }

  method PlaceStrings(b: seq<Byte>, aux: nat, strings: map<seq<Byte>, U32>, chain: seq<Frame>)
    returns (c: seq<Byte>, strings': map<seq<Byte>, U32>, ps: seq<Placed>)
    requires aux <= |b| && (Small(b) ==> Interned(b, aux, strings))
    ensures b <= c && |c| <= |b| + StringsSize(chain) && |ps| == |chain|
    ensures Small(c) ==> Interned(c, aux, strings') && AllPlaced(c, aux, ps, chain)
  {
    hide Interned, StrAt;
    c, strings', ps := b, strings, [];
    for i := 0 to |chain|
      invariant b <= c && |c| <= |b| + StringsSize(chain[..i]) && |ps| == i
      invariant Small(c) ==> Interned(c, aux, strings') && AllPlaced(c, aux, ps, chain)
    {
      assert chain[..i + 1][..i] == chain[..i];
      var c1, m1, nameOff := Intern(c, aux, strings', chain[i].name);
      var c2, m2, fileOff := Intern(c1, aux, m1, chain[i].file);
      var p := Placed(nameOff, AsU32(|chain[i].name|), fileOff, AsU32(|chain[i].file|));
      if Small(c2) {
        PlacedStays(c, c2, aux, ps, chain);
        StrStays(c1, c2, 0, 0, aux, nameOff, AsU32(|chain[i].name|), chain[i].name);
      }
      c, strings', ps := c2, m2, ps + [p];
    }
    assert chain[..|chain|] == chain;
  }

  /** Append one frame's five words. */
  method AppendFrame(b: seq<Byte>, aux: nat, p: Placed, f: Frame) returns (c: seq<Byte>)
    requires aux <= |b|
    ensures b <= c && |c| == |b| + FRAME_SIZE
    ensures PlacedAt(b, aux, p, f) ==> FrameAt(c, aux, |b|, f)
  {
    var c1 := Append32(b, p.nameOff);
    var c2 := Append32(c1, p.nameLen);
    var c3 := Append32(c2, p.fileOff);
    var c4 := Append32(c3, p.fileLen);
    c := Append32(c4, f.line);
    if PlacedAt(b, aux, p, f) {
      hide Read32;
      ReadStays(c1, c, 0, 0, |b|);
      ReadStays(c2, c, 0, 0, |b| + 4);
      ReadStays(c3, c, 0, 0, |b| + 8);
      ReadStays(c4, c, 0, 0, |b| + 12);
      StrStays(b, c, 0, 0, aux, p.nameOff, p.nameLen, f.name);
      StrStays(b, c, 0, 0, aux, p.fileOff, p.fileLen, f.file);
    }
  }

  predicate FramesAt(b: seq<Byte>, aux: nat, at: nat, chain: seq<Frame>, n: nat)
    requires n <= |chain|
  {
    forall k: nat :: k < n ==> FrameAt(b, aux, at + FRAME_SIZE * k, chain[k])
  }

  /** The frames of a chain whose strings are placed. */
  method EmitFrames(b: seq<Byte>, aux: nat, ps: seq<Placed>, chain: seq<Frame>) returns (c: seq<Byte>)
    requires aux <= |b| && |ps| == |chain| && (Small(b) ==> AllPlaced(b, aux, ps, chain))
    ensures b <= c && |c| == |b| + FRAME_SIZE * |chain|
    ensures Small(c) ==> FramesAt(c, aux, |b|, chain, |chain|)
  {
    hide PlacedAt, FrameAt, Later;
    c := b;
    for i := 0 to |chain|
      invariant b <= c && |c| == |b| + FRAME_SIZE * i
      invariant Small(c) ==> AllPlaced(c, aux, ps, chain) && FramesAt(c, aux, |b|, chain, i)
    {
      ghost var before := c;
      c := AppendFrame(c, aux, ps[i], chain[i]);
      if Small(c) {
        PlacedStays(before, c, aux, ps, chain);
        FramesStay(before, c, aux, |b|, chain, i);
      }
    }
  }

  lemma FramesStay(b: seq<Byte>, c: seq<Byte>, aux: nat, at: nat, chain: seq<Frame>, n: nat)
    requires b <= c && n <= |chain| && FramesAt(b, aux, at, chain, n)
    ensures FramesAt(c, aux, at, chain, n)
  {
    hide FrameAt;
    forall k: nat | k < n
      ensures FrameAt(c, aux, at + FRAME_SIZE * k, chain[k])
    {
      FrameStays(b, c, 0, 0, aux, at + FRAME_SIZE * k, chain[k]);
    }
  }

  /** Intern a chain's strings, align, then its count and frames. */
  method EmitChain(b: seq<Byte>, aux: nat, strings: map<seq<Byte>, U32>, chain: seq<Frame>)
    returns (c: seq<Byte>, strings': map<seq<Byte>, U32>, off: U32)
    requires aux <= |b| && (Small(b) ==> Interned(b, aux, strings))
    ensures b <= c && |c| <= |b| + ChainSize(chain)
    ensures Small(c) ==> Interned(c, aux, strings') && ChainAt(c, aux, off, chain)
    ensures FlagFree(c) ==> off < INLINE_FLAG
  {
    hide Interned, PlacedAt, StrAt, StringsSize, FrameAt, Read32, Later;
    var c1, m, ps := PlaceStrings(b, aux, strings, chain);
    var c2 := Align(c1);
    off := AsU32(|c2|);
    var c3 := Append32(c2, AsU32(|chain|));
    if Small(c3) {
      PlacedStays(c1, c3, aux, ps, chain);
    }
    c := EmitFrames(c3, aux, ps, chain);
    strings' := m;
    if Small(c) {
      PrefixIsLater(c1, c);
      InternedStays(c1, c, 0, 0, aux, m);
      PrefixIsLater(c3, c);
      ReadStays(c3, c, 0, 0, |c2|);
    }
  }

  function ChainsSize(chains: seq<seq<Frame>>): nat {
    if chains == [] then 0 else ChainsSize(chains[..|chains| - 1]) + ChainSize(chains[|chains| - 1])
  }

  predicate ChainsAt(b: seq<Byte>, aux: nat, offs: seq<U32>, chains: seq<seq<Frame>>) {
    |offs| <= |chains| &&
    forall k: nat :: k < |offs| ==> ChainAt(b, aux, offs[k], chains[k])
  }

  lemma ChainsStay(b: seq<Byte>, c: seq<Byte>, aux: nat, offs: seq<U32>, chains: seq<seq<Frame>>)
    requires b <= c && ChainsAt(b, aux, offs, chains)
    ensures ChainsAt(c, aux, offs, chains)
  {
    hide ChainAt;
    forall k: nat | k < |offs|
      ensures ChainAt(c, aux, offs[k], chains[k])
    {
      ChainStays(b, c, 0, 0, aux, offs[k], chains[k]);
    }
  }

  method EmitChains(b: seq<Byte>, aux: nat, strings: map<seq<Byte>, U32>, chains: seq<seq<Frame>>)
    returns (c: seq<Byte>, strings': map<seq<Byte>, U32>, offs: seq<U32>)
    requires aux <= |b| && (Small(b) ==> Interned(b, aux, strings))
    ensures b <= c && |c| <= |b| + ChainsSize(chains) && |offs| == |chains|
    ensures Small(c) ==> Interned(c, aux, strings') && ChainsAt(c, aux, offs, chains)
    ensures FlagFree(c) ==> forall off <- offs :: off < INLINE_FLAG
  {
    hide Interned, ChainAt, ChainSize;
    c, strings', offs := b, strings, [];
    for i := 0 to |chains|
      invariant b <= c && |c| <= |b| + ChainsSize(chains[..i]) && |offs| == i
      invariant Small(c) ==> Interned(c, aux, strings') && ChainsAt(c, aux, offs, chains)
      invariant FlagFree(c) ==> forall off <- offs :: off < INLINE_FLAG
    {
      assert chains[..i + 1][..i] == chains[..i];
      var c1, m1, off := EmitChain(c, aux, strings', chains[i]);
      if Small(c1) {
        ChainsStay(c, c1, aux, offs, chains);
      }
      c, strings', offs := c1, m1, offs + [off];
    }
    assert chains[..|chains|] == chains;
  }

  predicate TakesFlagBit(loc: Loc, offs: seq<U32>) {
    loc.line >= INLINE_FLAG && loc.line - INLINE_FLAG < |offs| && offs[loc.line - INLINE_FLAG] >= INLINE_FLAG
  }

  lemma FlagsFit(f: FuncTb, offs: seq<U32>)
    requires forall off <- offs :: off < INLINE_FLAG
    ensures forall loc <- f.locs :: !TakesFlagBit(loc, offs)
  {
    forall loc <- f.locs
      ensures !TakesFlagBit(loc, offs)
    {
      assert 0 <= loc.line - INLINE_FLAG < |offs| ==> offs[loc.line - INLINE_FLAG] in offs;
    }
  }

  /** The line area; a flagged line becomes its chain's flagged offset, which must leave the flag bit free. */
  method EmitLocs(b: seq<Byte>, aux: nat, offs: seq<U32>, f: FuncTb) returns (r: Result<seq<Byte>, string>)
    requires aux <= |b| && WellIndexed(f) && |offs| == |f.chains|
    requires Small(b) ==> ChainsAt(b, aux, offs, f.chains)
    ensures r.Err? <==> exists loc <- f.locs :: TakesFlagBit(loc, offs)
    ensures r.Ok? ==> b <= r.value && |r.value| == |b| + LOC_SIZE * |f.locs|
    ensures r.Ok? && Small(r.value) ==> LocsAt(r.value, aux, |b|, f)
  {
    hide ChainAt, Read32, LocAt;
    var c := b;
    for i := 0 to |f.locs|
      invariant b <= c && |c| == |b| + LOC_SIZE * i
      invariant forall k: nat :: k < i ==> !TakesFlagBit(f.locs[k], offs)
      invariant Small(c) ==> forall k: nat :: k < i ==> LocAt(c, aux, |b| + LOC_SIZE * k, f.locs[k], f.chains)
    {
      var loc := f.locs[i];
      assert Indexed(loc, f.chains);
      var line := loc.line;
      if line >= INLINE_FLAG {
        var off := offs[line - INLINE_FLAG];
        if off >= INLINE_FLAG {
          assert TakesFlagBit(loc, offs);
          return Err("traceback table exceeds 2 GiB");
        }
        line := INLINE_FLAG + off;
      }
      ghost var before := c;
      c := AppendLoc(c, loc, line);
      if Small(c) {
        if loc.line >= INLINE_FLAG {
          ChainStays(b, c, 0, 0, aux, line - INLINE_FLAG, f.chains[loc.line - INLINE_FLAG]);
        }
        assert LocAt(c, aux, |before|, loc, f.chains) by {
          LocIs(c, aux, |before|, loc, line, f.chains);
        }
        forall k: nat | k < i
          ensures LocAt(c, aux, |b| + LOC_SIZE * k, f.locs[k], f.chains)
        {
          LocStays(before, c, 0, 0, aux, |b| + LOC_SIZE * k, f.locs[k], f.chains);
        }
      }
    }
    r := Ok(c);
  }

  lemma LocIs(b: seq<Byte>, aux: nat, at: nat, loc: Loc, line: U32, chains: seq<seq<Frame>>)
    requires Indexed(loc, chains) && aux <= at && at + LOC_SIZE <= |b|
    requires Read32(b, at) == loc.start && Read32(b, at + 4) == loc.end && Read32(b, at + 8) == line
    requires loc.line < INLINE_FLAG ==> line == loc.line
    requires loc.line >= INLINE_FLAG ==>
      line >= INLINE_FLAG && ChainAt(b, aux, line - INLINE_FLAG, chains[loc.line - INLINE_FLAG])
    ensures LocAt(b, aux, at, loc, chains)
  {
  }

  function AppendLoc(b: seq<Byte>, loc: Loc, line: U32): (c: seq<Byte>)
    ensures b <= c && |c| == |b| + LOC_SIZE
    ensures Read32(c, |b|) == loc.start && Read32(c, |b| + 4) == loc.end && Read32(c, |b| + 8) == line
  {
    Append32(Append32(Append32(b, loc.start), loc.end), line)
  }

  /** A record's offset-and-length pair for one string. */
  method EmitString(b: seq<Byte>, aux: nat, strings: map<seq<Byte>, U32>, at: nat, s: seq<Byte>)
    returns (c: seq<Byte>, strings': map<seq<Byte>, U32>)
    requires at + 8 <= aux <= |b| && (Small(b) ==> Interned(b, aux, strings))
    ensures Later(b, c, at, at + 8) && |c| <= |b| + |s|
    ensures Small(c) ==> Interned(c, aux, strings') && StrAt(c, aux, Read32(c, at), Read32(c, at + 4), s)
  {
    hide Interned, StrAt, Read32;
    var c1, m, off := Intern(b, aux, strings, s);
    var c2 := Patch(c1, at, off);
    c := Patch(c2, at + 4, AsU32(|s|));
    strings' := m;
    ReadStays(c2, c, at + 4, at + 8, at);
    if Small(c) {
      InternedStays(c1, c, at, at + 8, aux, m);
      StrStays(c1, c, at, at + 8, aux, off, AsU32(|s|), s);
    }
  }

  function FuncSize(f: FuncTb): nat {
    |f.name| + |f.file| + ChainsSize(f.chains) + 3 + 4 + LOC_SIZE * |f.locs|
  }

  /** The fixed fields of a record, except where its line area is. */
  method EmitHeader(b: seq<Byte>, aux: nat, strings: map<seq<Byte>, U32>, at: nat, f: FuncTb)
    returns (c: seq<Byte>, strings': map<seq<Byte>, U32>)
    requires at + RECORD_SIZE <= aux <= |b| && (Small(b) ==> Interned(b, aux, strings))
    ensures Later(b, c, at, at + LOC_AT) && |c| <= |b| + |f.name| + |f.file|
    ensures Small(c) ==> Interned(c, aux, strings') && HeaderAt(c, aux, at, f)
  {
    hide Interned, StrAt, Read32, Later;
    var c0 := Patch(b, at + CODE_SIZE_AT, f.codeSize);
    if Small(b) {
      InternedStays(b, c0, at + CODE_SIZE_AT, at + CODE_SIZE_AT + 4, aux, strings);
    }
    var c1, m1 := EmitString(c0, aux, strings, at + NAME_AT, f.name);
    LaterGrows(c0, c1, at + NAME_AT, at + NAME_AT + 8);
    c, strings' := EmitString(c1, aux, m1, at + FILE_AT, f.file);
    LaterGrows(c1, c, at + FILE_AT, at + FILE_AT + 8);
    LaterWidens(b, c0, at + CODE_SIZE_AT, at + CODE_SIZE_AT + 4, at, at + LOC_AT);
    LaterWidens(c0, c1, at + NAME_AT, at + NAME_AT + 8, at, at + LOC_AT);
    LaterWidens(c1, c, at + FILE_AT, at + FILE_AT + 8, at, at + LOC_AT);
    LaterTransitive(b, c0, c1, at, at + LOC_AT);
    LaterTransitive(b, c1, c, at, at + LOC_AT);
    ReadStays(c0, c1, at + NAME_AT, at + NAME_AT + 8, at + CODE_SIZE_AT);
    ReadStays(c1, c, at + FILE_AT, at + FILE_AT + 8, at + CODE_SIZE_AT);
    ReadStays(c1, c, at + FILE_AT, at + FILE_AT + 8, at + NAME_AT);
    ReadStays(c1, c, at + FILE_AT, at + FILE_AT + 8, at + NAME_AT + 4);
    if Small(c) {
      StrStays(c1, c, at + FILE_AT, at + FILE_AT + 8, aux, Read32(c1, at + NAME_AT), Read32(c1, at + NAME_AT + 4),
               f.name);
    }
  }

  /** Everything for one function: its record, in place, and its part of the auxiliary area, appended. */
  method EmitFunc(b: seq<Byte>, aux: nat, strings: map<seq<Byte>, U32>, at: nat, f: FuncTb)
    returns (r: Result<seq<Byte>, string>, strings': map<seq<Byte>, U32>)
    requires WellIndexed(f) && at + RECORD_SIZE <= aux <= |b| && (Small(b) ==> Interned(b, aux, strings))
    ensures |b| + FuncSize(f) < 0x8000_0000 ==> r.Ok?
    ensures r.Ok? ==> Later(b, r.value, at, at + RECORD_SIZE) && |r.value| <= |b| + FuncSize(f)
    ensures r.Ok? && Small(r.value) ==> Interned(r.value, aux, strings') && RecordAt(r.value, aux, at, f)
  {
    hide Interned, Read32, LocsAt, ChainsAt, ChainsSize, WellIndexed, HeaderAt, Later, AsU32;
    var c2, m2 := EmitHeader(b, aux, strings, at, f);
    LaterGrows(b, c2, at, at + LOC_AT);
    var c3, m3, offs := EmitChains(c2, aux, m2, f.chains);
    var c4 := Align(c3);
    var c5 := Append32(c4, AsU32(|f.locs|));
    if Small(c5) {
      ChainsStay(c3, c5, aux, offs, f.chains);
    }
    if FlagFree(c3) {
      FlagsFit(f, offs);
    }
    var locs := EmitLocs(c5, aux, offs, f);
    strings' := m3;
    if locs.Err? {
      return Err(locs.error), m3;
    }
    var c6 := locs.value;
    var c7 := Patch(c6, at + LOC_AT, AsU32(|c4|));
    r := Ok(c7);
    PrefixIsLater(c2, c6);
    PrefixIsLater(c3, c6);
    PrefixIsLater(c5, c6);
    LaterWidens(b, c2, at, at + LOC_AT, at, at + RECORD_SIZE);
    LaterWidens(c2, c6, 0, 0, at, at + RECORD_SIZE);
    LaterWidens(c6, c7, at + LOC_AT, at + RECORD_SIZE, at, at + RECORD_SIZE);
    LaterTransitive(b, c2, c6, at, at + RECORD_SIZE);
    LaterTransitive(b, c6, c7, at, at + RECORD_SIZE);
    if Small(c7) {
      Exact(|c4|);
      Exact(|f.locs|);
      HeaderStays(c2, c6, 0, 0, aux, at, f);
      HeaderStays(c6, c7, at + LOC_AT, at + RECORD_SIZE, aux, at, f);
      ReadStays(c5, c6, 0, 0, |c4|);
      ReadStays(c6, c7, at + LOC_AT, at + RECORD_SIZE, |c4|);
      InternedStays(c3, c6, 0, 0, aux, m3);
      InternedStays(c6, c7, at + LOC_AT, at + RECORD_SIZE, aux, m3);
      LocsStay(c6, c7, at + LOC_AT, at + RECORD_SIZE, aux, |c5|, f);
    }
  }

  function FuncsSize(fs: seq<FuncTb>): nat {
    if fs == [] then 0 else FuncsSize(fs[..|fs| - 1]) + FuncSize(fs[|fs| - 1])
  }

  /** The most the blob can take. */
  function MaxSize(fs: seq<FuncTb>): nat {
    RECORD_SIZE * |fs| + FuncsSize(fs)
  }

  /** Every function can be read back from the blob. */
  predicate Describes(b: seq<Byte>, fs: seq<FuncTb>, aux: nat, n: nat)
    requires n <= |fs| && forall f <- fs :: WellIndexed(f)
  {
    forall j: nat :: j < n ==> RecordAt(b, aux, RECORD_SIZE * j, fs[j])
  }

  /** The whole table. A blob below 4 GiB describes every function; an input that cannot reach 2 GiB never fails. */
  method EmitTable(fs: seq<FuncTb>) returns (r: Result<Option<seq<Byte>>, string>)
    requires forall f <- fs :: WellIndexed(f)
    ensures fs == [] ==> r == Ok(None)
    ensures MaxSize(fs) < 0x8000_0000 ==> r.Ok?
    ensures fs != [] && r.Ok? ==> r.value.Some? && |r.value.value| <= MaxSize(fs)
    ensures fs != [] && r.Ok? && Small(r.value.value) ==> Describes(r.value.value, fs, RECORD_SIZE * |fs|, |fs|)
  {
    hide RecordAt, FuncSize, WellIndexed, Interned;
    if fs == [] {
      return Ok(None);
    }
    var aux := RECORD_SIZE * |fs|;
    var b: seq<Byte> := seq(aux, _ => 0);
    var strings: map<seq<Byte>, U32> := map[];
    NothingInterned(b, aux);
    for i := 0 to |fs|
      invariant aux <= |b| <= aux + FuncsSize(fs[..i])
      invariant Small(b) ==> Interned(b, aux, strings) && Describes(b, fs, aux, i)
    {
      assert fs[..i + 1][..i] == fs[..i];
      SizeGrows(fs, i + 1);
      var at := RECORD_SIZE * i;
      var one, m := EmitFunc(b, aux, strings, at, fs[i]);
      if one.Err? {
        return Err(one.error);
      }
      if Small(one.value) {
        forall j: nat | j < i
          ensures RecordAt(one.value, aux, RECORD_SIZE * j, fs[j])
        {
          RecordStays(b, one.value, at, at + RECORD_SIZE, aux, RECORD_SIZE * j, fs[j]);
        }
      }
      b, strings := one.value, m;
    }
    assert fs[..|fs|] == fs;
    r := Ok(Some(b));
  }

  lemma NothingInterned(b: seq<Byte>, aux: nat)
    ensures Interned(b, aux, map[])
  {
  }

  lemma {:induction false} SizeGrows(fs: seq<FuncTb>, i: nat)
    requires i <= |fs|
    ensures FuncsSize(fs[..i]) <= FuncsSize(fs)
    decreases |fs|
  {
    hide FuncSize;
    if i == |fs| {
      assert fs[..i] == fs;
    } else {
      assert fs[..|fs| - 1][..i] == fs[..i];
      SizeGrows(fs[..|fs| - 1], i);
    }
  }

  // ---- the reader ----

  /** The line of the first range that contains the offset, or 0. */
  function LineFor(locs: seq<Loc>, off: U32): U32 {
    if locs == [] then 0
    else if locs[0].start <= off < locs[0].end then locs[0].line
    else LineFor(locs[1..], off)
  }

  /** The range at `i` contains the offset and none before it does. */
  ghost predicate FirstContains(locs: seq<Loc>, off: U32, i: nat) {
    i < |locs| && locs[i].start <= off < locs[i].end &&
    forall j: nat :: j < i ==> !(locs[j].start <= off < locs[j].end)
  }

  lemma {:induction false} LineForIsFirst(locs: seq<Loc>, off: U32)
    ensures forall i: nat :: FirstContains(locs, off, i) ==> LineFor(locs, off) == locs[i].line
    ensures (forall i: nat :: !FirstContains(locs, off, i)) ==> LineFor(locs, off) == 0
  {
    if locs == [] {
    } else if locs[0].start <= off < locs[0].end {
      assert FirstContains(locs, off, 0);
    } else {
      LineForIsFirst(locs[1..], off);
      forall i: nat ensures FirstContains(locs, off, i + 1) <==> FirstContains(locs[1..], off, i) {
        assert FirstContains(locs, off, i + 1) ==> forall j: nat :: j < i ==> locs[1..][j] == locs[j + 1];
        assert FirstContains(locs[1..], off, i) ==> forall j: nat :: 0 < j < i + 1 ==> locs[j] == locs[1..][j - 1];
      }
      forall i: nat | FirstContains(locs, off, i) ensures LineFor(locs, off) == locs[i].line {
        assert FirstContains(locs[1..], off, i - 1);
      }
    }
  }

  /** What a code offset in `f` should print: its own frame, or the inline chain in its place. */
  function FramesFor(f: FuncTb, off: U32): seq<Frame>
    requires WellIndexed(f)
  {
    var line := LineFor(f.locs, off);
    if line < INLINE_FLAG then [Frame(f.name, f.file, line)]
    else
      LineIsIndexed(f, off);
      f.chains[line - INLINE_FLAG]
  }

  lemma LineIsIndexed(f: FuncTb, off: U32)
    requires WellIndexed(f)
    ensures LineFor(f.locs, off) >= INLINE_FLAG ==> LineFor(f.locs, off) - INLINE_FLAG < |f.chains|
  {
    LineIsListed(f.locs, off);
  }

  lemma {:induction false} LineIsListed(locs: seq<Loc>, off: U32)
    ensures LineFor(locs, off) == 0 || exists loc <- locs :: loc.line == LineFor(locs, off)
  {
    if locs == [] {
    } else {
      LineIsListed(locs[1..], off);
    }
  }

  predicate SortedByStart(locs: seq<Loc>) {
    forall i: nat, j: nat :: i < j < |locs| ==> locs[i].start <= locs[j].start
  }

  lemma {:induction false} NoneStartsBefore(locs: seq<Loc>, off: U32)
    requires forall loc <- locs :: off < loc.start
    ensures LineFor(locs, off) == 0
  {
    if locs == [] {
    } else {
      NoneStartsBefore(locs[1..], off);
    }
  }

  lemma LineForNone(locs: seq<Loc>, off: U32)
    ensures LineFor(locs[0..], off) == LineFor(locs, off) && LineFor(locs[|locs|..], off) == 0
  {
    assert locs[0..] == locs;
  }

  /** What one range of a sorted list decides about an offset. */
  lemma LineForStep(locs: seq<Loc>, e: nat, off: U32)
    requires SortedByStart(locs) && e < |locs|
    ensures LineFor(locs[e..], off) ==
      if off < locs[e].start then 0 else if off < locs[e].end then locs[e].line else LineFor(locs[e + 1..], off)
  {
    assert locs[e..][0] == locs[e] && locs[e..][1..] == locs[e + 1..];
    if off < locs[e].start {
      assert forall k: nat :: e <= k < |locs| ==> locs[e].start <= locs[k].start;
      NoneStartsBefore(locs[e..], off);
    }
  }

  /** Scan the sorted ranges; `entry` is the one whose line was taken. */
  method FindLine(b: seq<Byte>, locOff: nat, off: U32, ghost aux: nat, ghost f: FuncTb)
    returns (line: U32, ghost entry: nat)
    requires WellIndexed(f) && LineAreaAt(b, aux, locOff, f) && SortedByStart(f.locs)
    ensures LineFor(f.locs, off) < INLINE_FLAG ==> line == LineFor(f.locs, off)
    ensures LineFor(f.locs, off) >= INLINE_FLAG ==>
      entry < |f.locs| && f.locs[entry].line == LineFor(f.locs, off) && line >= INLINE_FLAG &&
      Indexed(f.locs[entry], f.chains) &&
      ChainAt(b, aux, line - INLINE_FLAG, f.chains[f.locs[entry].line - INLINE_FLAG])
  {
    hide ChainAt, Read32, LineFor, SortedByStart;
    LineForNone(f.locs, off);
    var count := Read32(b, locOff);
    line, entry := 0, 0;
    var e := 0;
    while e < count
      invariant e <= count
      invariant LineFor(f.locs, off) == LineFor(f.locs[e..], off)
    {
      var p := locOff + 4 + LOC_SIZE * e;
      assert LocAt(b, aux, p, f.locs[e], f.chains);
      LineForStep(f.locs, e, off);
      if off < Read32(b, p) {
        return;
      }
      if off < Read32(b, p + 4) {
        line, entry := Read32(b, p + 8), e;
        return;
      }
      e := e + 1;
    }
  }

  /** Resolve a code offset against record `at`; offsets at or past the code size belong to no function. */
  method Resolve(b: seq<Byte>, at: nat, off: U32, ghost aux: nat, ghost f: FuncTb) returns (r: Option<seq<Frame>>)
    requires WellIndexed(f) && RecordAt(b, aux, at, f) && SortedByStart(f.locs)
    ensures r == if off < f.codeSize then Some(FramesFor(f, off)) else None
  {
    hide ChainAt, Read32, StrAt, LineAreaAt, LineFor, SortedByStart, WellIndexed;
    if off >= Read32(b, at + CODE_SIZE_AT) {
      return None;
    }
    LineIsIndexed(f, off);
    var line, entry := FindLine(b, Read32(b, at + LOC_AT), off, aux, f);
    if line < INLINE_FLAG {
      var name := ReadStr(b, aux, Read32(b, at + NAME_AT), Read32(b, at + NAME_AT + 4), f.name);
      var file := ReadStr(b, aux, Read32(b, at + FILE_AT), Read32(b, at + FILE_AT + 4), f.file);
      return Some([Frame(name, file, line)]);
    }
    var chain := ReadChain(b, aux, line - INLINE_FLAG, f.chains[f.locs[entry].line - INLINE_FLAG]);
    r := Some(chain);
  }

  function ReadStr(b: seq<Byte>, ghost aux: nat, off: nat, len: nat, ghost s: seq<Byte>): (r: seq<Byte>)
    requires StrAt(b, aux, off, len, s)
    ensures r == s
  {
    b[off..off + len]
  }

  method ReadChain(b: seq<Byte>, ghost aux: nat, off: nat, ghost chain: seq<Frame>) returns (frames: seq<Frame>)
    requires ChainAt(b, aux, off, chain)
    ensures frames == chain
  {
    hide Read32, FrameAt;
    var count := Read32(b, off);
    frames := [];
    for k := 0 to count
      invariant frames == chain[..k]
    {
      var frame := ReadFrame(b, aux, off + 4 + FRAME_SIZE * k, chain[k]);
      frames := frames + [frame];
    }
    assert chain[..count] == chain;
  }

  method ReadFrame(b: seq<Byte>, ghost aux: nat, at: nat, ghost f: Frame) returns (frame: Frame)
    requires FrameAt(b, aux, at, f)
    ensures frame == f
  {
    hide Read32, StrAt;
    var name := ReadStr(b, aux, Read32(b, at), Read32(b, at + 4), f.name);
    var file := ReadStr(b, aux, Read32(b, at + 8), Read32(b, at + 12), f.file);
    frame := Frame(name, file, Read32(b, at + 16));
  }
}
