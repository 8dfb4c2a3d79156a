/** Digit grouping and zero padding of formatted numbers. */
module Grouping {
  import opened Wrappers
  import BitOps

  datatype FormatSpec = FormatSpec(fill: char, align: Option<char>, width: Option<nat>, grouping: Option<char>)

  // ---- grouping, specified from the right ----

  /** Full groups at the right, whatever is left over in front. */
  function Grouped(digits: string, sep: char, group: nat): string
    requires group >= 1
  {
    if |digits| <= group then digits
    else Grouped(digits[..|digits| - group], sep, group) + [sep] + digits[|digits| - group..]
  }

  predicate AtBoundary(rest: nat, group: nat)
    requires group >= 1
  {
    rest % group == 0
  }

  /** The scan emits a separator before every digit whose distance to the end is a multiple of the group. */
  function ScanFrom(digits: string, i: nat, sep: char, group: nat): string
    requires group >= 1 && i <= |digits|
    decreases |digits| - i
  {
    if i == |digits| then ""
    else Emitted(digits[i], i > 0 && AtBoundary(|digits| - i, group), sep) + ScanFrom(digits, i + 1, sep, group)
  }

  function Emitted(digit: char, separated: bool, sep: char): string {
    if separated then [sep, digit] else [digit]
  }

  /** Scanning a prefix that ends on a group boundary leaves the last group for the end. */
  lemma {:induction false} ScanSplits(digits: string, i: nat, sep: char, group: nat)
    requires group >= 1 && |digits| > group && i <= |digits| - group
    ensures ScanFrom(digits, i, sep, group) ==
      ScanFrom(digits[..|digits| - group], i, sep, group) + ScanFrom(digits, |digits| - group, sep, group)
    decreases |digits| - i
  {
    hide AtBoundary, Emitted;
    var cut := |digits| - group;
    var front := digits[..cut];
    if i < cut {
      ScanSplits(digits, i + 1, sep, group);
      assert front[i] == digits[i];
      SameResidue(|digits| - i, group);
      var one := Emitted(digits[i], i > 0 && AtBoundary(|digits| - i, group), sep);
      Associates(one, ScanFrom(front, i + 1, sep, group), ScanFrom(digits, cut, sep, group));
    } else {
      assert ScanFrom(front, i, sep, group) == "";
    }
  }

  lemma Associates(a: string, b: string, c: string)
    ensures a + (b + c) == (a + b) + c
  {
  }

  lemma SameResidue(n: nat, group: nat)
    requires group >= 1 && n >= group
    ensures n % group == (n - group) % group
    ensures AtBoundary(n, group) == AtBoundary(n - group, group)
  {
    var q, r := n / group, n % group;
    assert n == group * q + r;
    assert n - group == group * (q - 1) + r;
    BitOps.ModUnique(n - group, group, q - 1, r);
  }

  /** Inside the last group the scan emits no separator. */
  lemma {:induction false} ScanLastGroup(digits: string, i: nat, sep: char, group: nat)
    requires group >= 1 && i <= |digits| && |digits| - i < group
    ensures ScanFrom(digits, i, sep, group) == digits[i..]
    decreases |digits| - i
  {
    if i >= |digits| {
    } else {
      BitOps.ModUnique(|digits| - i, group, 0, |digits| - i);
      ScanLastGroup(digits, i + 1, sep, group);
      assert digits[i..] == [digits[i]] + digits[i + 1..];
    }
  }

  lemma GroupedStep(digits: string, sep: char, group: nat)
    requires group >= 1
    ensures Grouped(digits, sep, group) ==
      if |digits| <= group then digits
      else Grouped(digits[..|digits| - group], sep, group) + [sep] + digits[|digits| - group..]
  {
  }

  /** The left-to-right scan is grouping from the right. */
  lemma {:induction false} ScanIsGrouped(digits: string, sep: char, group: nat)
    requires group >= 1
    ensures ScanFrom(digits, 0, sep, group) == Grouped(digits, sep, group)
    decreases |digits|
  {
    hide ScanFrom, AtBoundary, Grouped;
    var n := |digits|;
    GroupedStep(digits, sep, group);
    if n <= group {
      ScanOneGroup(digits, sep, group);
    } else {
      ScanSplits(digits, 0, sep, group);
      ScanIsGrouped(digits[..n - group], sep, group);
      ScanFullGroup(digits, n - group, sep, group);
      Associates(Grouped(digits[..n - group], sep, group), [sep], digits[n - group..]);
    }
  }

  /** A number of at most one group is scanned as it is. */
  lemma ScanOneGroup(digits: string, sep: char, group: nat)
    requires group >= 1 && |digits| <= group
    ensures ScanFrom(digits, 0, sep, group) == digits
  {
    if digits == [] {
    } else {
      hide AtBoundary;
      ScanLastGroup(digits, 1, sep, group);
      assert digits == [digits[0]] + digits[1..];
    }
  }

  /** The last full group is scanned with its separator in front. */
  lemma ScanFullGroup(digits: string, i: nat, sep: char, group: nat)
    requires group >= 1 && 0 < i && i + group == |digits|
    ensures ScanFrom(digits, i, sep, group) == [sep] + digits[i..]
  {
    assert AtBoundary(group, group) by {
      BitOps.ModUnique(group, group, 1, 0);
    }
    hide AtBoundary;
    ScanLastGroup(digits, i + 1, sep, group);
    assert digits[i..] == [digits[i]] + digits[i + 1..];
  }

  lemma ScanStep(digits: string, i: nat, before: string, sep: char, group: nat)
    requires group >= 1 && i < |digits|
    ensures before + ScanFrom(digits, i, sep, group) ==
      before + (if i > 0 && AtBoundary(|digits| - i, group) then [sep] else []) + [digits[i]] +
      ScanFrom(digits, i + 1, sep, group)
  {
    hide AtBoundary;
  }

  method InsertGroupingN(digits: string, sep: char, group: nat) returns (out: string)
    requires group >= 1
    ensures out == Grouped(digits, sep, group)
  {
    out := "";
    for i := 0 to |digits|
      invariant out + ScanFrom(digits, i, sep, group) == ScanFrom(digits, 0, sep, group)
    {
      ghost var before := out;
      if i > 0 && AtBoundary(|digits| - i, group) {
        out := out + [sep];
      }
      out := out + [digits[i]];
      ScanStep(digits, i, before, sep, group);
    }
    ScanIsGrouped(digits, sep, group);
  }

  /** `n > 0` digits take `n + (n - 1) / group` characters. */
  function GroupedSize(n: nat, group: nat): nat
    requires group >= 1
  {
    if n == 0 then 0 else n + (n - 1) / group
  }

  lemma {:induction false} GroupedLength(digits: string, sep: char, group: nat)
    requires group >= 1
    ensures |Grouped(digits, sep, group)| == GroupedSize(|digits|, group)
    decreases |digits|
  {
    hide GroupedSize;
    var n := |digits|;
    if n <= group {
      OneGroupSize(n, group);
    } else {
      GroupedLength(digits[..n - group], sep, group);
      AnotherGroup(n, group);
    }
  }

  lemma OneGroupSize(n: nat, group: nat)
    requires group >= 1 && n <= group
    ensures GroupedSize(n, group) == n
  {
    if n > 0 {
      BitOps.ModUnique(n - 1, group, 0, n - 1);
    }
  }

  lemma AnotherGroup(n: nat, group: nat)
    requires group >= 1 && n > group
    ensures GroupedSize(n, group) == GroupedSize(n - group, group) + 1 + group
  {
    var q, r := (n - 1) / group, (n - 1) % group;
    assert n - 1 == group * q + r;
    assert n - group - 1 == group * (q - 1) + r;
    BitOps.ModUnique(n - group - 1, group, q - 1, r);
  }

  function Strip(s: string, sep: char): string {
    if s == "" then "" else (if s[0] == sep then [] else [s[0]]) + Strip(s[1..], sep)
  }

  lemma {:induction false} StripAppend(a: string, b: string, sep: char)
    ensures Strip(a + b, sep) == Strip(a, sep) + Strip(b, sep)
  {
    if a == "" {
      assert a + b == b;
    } else {
      assert (a + b)[1..] == a[1..] + b;
      StripAppend(a[1..], b, sep);
    }
  }

  lemma {:induction false} StripClean(s: string, sep: char)
    requires sep !in s
    ensures Strip(s, sep) == s
  {
    if s == "" {
    } else {
      StripClean(s[1..], sep);
      assert s == [s[0]] + s[1..];
    }
  }

  lemma StripAlone(sep: char)
    ensures Strip([sep], sep) == ""
  {
    assert [sep][1..] == "";
  }

  lemma StripBetween(a: string, b: string, sep: char)
    requires sep !in b
    ensures Strip(a + [sep] + b, sep) == Strip(a, sep) + b
  {
    hide Strip;
    StripAlone(sep);
    StripAppend(a + [sep], b, sep);
    StripAppend(a, [sep], sep);
    StripClean(b, sep);
  }

  /** Removing the separators gives the digits back. */
  lemma {:induction false} StripUndoesGrouping(digits: string, sep: char, group: nat)
    requires group >= 1 && sep !in digits
    ensures Strip(Grouped(digits, sep, group), sep) == digits
    decreases |digits|
  {
    var n := |digits|;
    if n <= group {
      StripClean(digits, sep);
    } else {
      var front, back := digits[..n - group], digits[n - group..];
      StripUndoesGrouping(front, sep, group);
      StripBetween(Grouped(front, sep, group), back, sep);
      assert digits == front + back;
    }
  }

  // ---- splitting a formatted number ----

  datatype Parts = Parts(lead: string, digits: string, rest: string)

  predicate IsSign(c: char) {
    c == '+' || c == '-' || c == ' '
  }

  predicate IsDigit(c: char, hex: bool) {
    '0' <= c <= '9' || (hex && ('a' <= c <= 'f' || 'A' <= c <= 'F'))
  }

  predicate IsRadix(c: char) {
    c == 'x' || c == 'X' || c == 'b' || c == 'B' || c == 'o' || c == 'O'
  }

  /** Sign, then a radix prefix only when both its characters are there. */
  function LeadLength(s: string): (n: nat)
    ensures n <= |s|
  {
    var i := if s != "" && IsSign(s[0]) then 1 else 0;
    if i + 1 < |s| && s[i] == '0' && IsRadix(s[i + 1]) then i + 2 else i
  }

  /** The three parts of a number: its sign and prefix, its longest run of digits, the remainder. */
  predicate Splits(s: string, hex: bool, p: Parts) {
    s == p.lead + p.digits + p.rest && |p.lead| == LeadLength(s) &&
    (forall i :: 0 <= i < |p.digits| ==> IsDigit(p.digits[i], hex)) &&
    (p.rest != "" ==> !IsDigit(p.rest[0], hex))
  }

  lemma NoShorterSplit(s: string, hex: bool, p: Parts, q: Parts)
    requires Splits(s, hex, p) && Splits(s, hex, q)
    ensures |p.digits| >= |q.digits|
  {
    assert forall j :: 0 <= j < |q.digits| ==> s[|q.lead| + j] == q.digits[j];
    assert p.rest != "" ==> s[|p.lead| + |p.digits|] == p.rest[0];
  }

  lemma SplitIsUnique(s: string, hex: bool, p: Parts, q: Parts)
    requires Splits(s, hex, p) && Splits(s, hex, q)
    ensures p == q
  {
    NoShorterSplit(s, hex, p, q);
    NoShorterSplit(s, hex, q, p);
    var n := |p.lead|;
    var m := n + |p.digits|;
    assert p.lead == s[..n] == q.lead;
    assert p.digits == s[n..m] == q.digits;
    assert p.rest == s[m..] == q.rest;
  }

  method SplitNumber(s: string, hex: bool) returns (p: Parts)
    ensures Splits(s, hex, p)
  {
    hide IsDigit, Splits;
    var i := 0;
    if s != "" && IsSign(s[0]) {
      i := 1;
    }
    if i + 1 < |s| && s[i] == '0' && IsRadix(s[i + 1]) {
      i := i + 2;
    }
    var start := i;
    while i < |s| && IsDigit(s[i], hex)
      invariant start <= i <= |s|
      invariant forall k :: start <= k < i ==> IsDigit(s[k], hex)
    {
      i := i + 1;
    }
    p := Parts(s[..start], s[start..i], s[i..]);
    SplitsThere(s, hex, start, i);
  }

  lemma SplitsThere(s: string, hex: bool, start: nat, end: nat)
    requires start == LeadLength(s) <= end <= |s|
    requires forall k :: start <= k < end ==> IsDigit(s[k], hex)
    requires end < |s| ==> !IsDigit(s[end], hex)
    ensures Splits(s, hex, Parts(s[..start], s[start..end], s[end..]))
  {
    hide IsDigit, LeadLength;
    assert s == s[..start] + s[start..end] + s[end..];
    assert forall k :: 0 <= k < end - start ==> s[start..end][k] == s[start + k];
  }

  // ---- padding ----

  function Repeat(c: char, n: nat): (s: string)
    ensures |s| == n && forall i :: 0 <= i < n ==> s[i] == c
  {
    seq(n, _ => c)
  }

  /** How long the sign-and-prefix part is that `=` alignment pads behind. */
  function PadPrefix(s: string): (n: nat)
    ensures n <= |s|
  {
    var i := if s != "" && IsSign(s[0]) then 1 else 0;
    if |s| >= i + 2 && s[i] == '0' && (s[i + 1] == 'x' || s[i + 1] == 'X' || s[i + 1] == 'b' || s[i + 1] == 'o')
    then i + 2 else i
  }

  /** Where the fill goes: how many characters of `s` stay in front, and how much fill goes before and after. */
  function PadPlan(s: string, align: char, pad: nat): (plan: (nat, nat, nat))
    ensures plan.0 <= |s| && plan.1 + plan.2 == pad
  {
    if align == '<' then (0, 0, pad)
    else if align == '^' then (0, pad / 2, pad - pad / 2)
    else if align == '=' then (PadPrefix(s), pad, 0)
    else (0, pad, 0)
  }

  function ApplyPadding(s: string, spec: FormatSpec): string {
    if spec.width.None? || |s| >= spec.width.value then s
    else
      var plan := PadPlan(s, if spec.align.Some? then spec.align.value else '>', spec.width.value - |s|);
      s[..plan.0] + Repeat(spec.fill, plan.1) + s[plan.0..] + Repeat(spec.fill, plan.2)
  }

  /** Only fill is added, around `s` or at one place inside it. */
  predicate PaddedAt(s: string, fill: char, at: nat, front: nat, back: nat, r: string) {
    at <= |s| && r == s[..at] + Repeat(fill, front) + s[at..] + Repeat(fill, back)
  }

  /** Padding reaches exactly the width, and is only fill around and inside the original. */
  lemma PaddingIsExact(s: string, spec: FormatSpec)
    ensures |ApplyPadding(s, spec)| == if spec.width.Some? && spec.width.value > |s| then spec.width.value else |s|
    ensures exists at: nat, front: nat, back: nat :: PaddedAt(s, spec.fill, at, front, back, ApplyPadding(s, spec))
  {
    if spec.width.None? || |s| >= spec.width.value {
      assert PaddedAt(s, spec.fill, 0, 0, 0, ApplyPadding(s, spec));
    } else {
      var plan := PadPlan(s, if spec.align.Some? then spec.align.value else '>', spec.width.value - |s|);
      assert PaddedAt(s, spec.fill, plan.0, plan.1, plan.2, ApplyPadding(s, spec));
    }
  }

  /** Where the text stands in what padding makes of it. */
  ghost predicate StandsAt(s: string, r: string, at: nat) {
    at + |s| <= |r| && r[at..at + |s|] == s
  }

  /** Left alignment starts with the text, right alignment ends with it, and centring puts the odd fill behind. */
  lemma AlignmentPlaces(s: string, spec: FormatSpec)
    requires spec.width.Some? && |s| < spec.width.value
    ensures var r, pad := ApplyPadding(s, spec), spec.width.value - |s|;
      match spec.align
      case Some('<') => StandsAt(s, r, 0)
      case Some('^') => StandsAt(s, r, pad / 2)
      case Some('=') => StandsAt(s[..PadPrefix(s)], r, 0) && StandsAt(s[PadPrefix(s)..], r, PadPrefix(s) + pad)
      case _ => StandsAt(s, r, pad)
  {
    var r, pad := ApplyPadding(s, spec), spec.width.value - |s|;
    var plan := PadPlan(s, if spec.align.Some? then spec.align.value else '>', pad);
    PlacedAround(s, spec.fill, plan.0, plan.1, plan.2);
  }

  lemma PlacedAround(s: string, fill: char, at: nat, front: nat, back: nat)
    requires at <= |s|
    ensures var r := s[..at] + Repeat(fill, front) + s[at..] + Repeat(fill, back);
      StandsAt(s[..at], r, 0) && StandsAt(s[at..], r, at + front) && (at == 0 ==> StandsAt(s, r, front))
  {
    assert s[0..] == s;
  }

  // ---- grouped zero padding ----

  /** The number with `zeros` zeros put in front of its digits, then grouped. */
  function ZeroFilled(p: Parts, zeros: nat, sep: char, group: nat): string
    requires group >= 1
  {
    p.lead + Grouped(Repeat('0', zeros) + p.digits, sep, group) + p.rest
  }

  /** The fewest zeros that reach the width. */
  predicate MinimalZeros(p: Parts, zeros: nat, sep: char, group: nat, width: nat)
    requires group >= 1
  {
    |ZeroFilled(p, zeros, sep, group)| >= width && (zeros > 0 ==> |ZeroFilled(p, zeros - 1, sep, group)| < width)
  }

  lemma OneMoreDigit(n: nat, group: nat)
    requires group >= 1
    ensures 1 <= GroupedSize(n + 1, group) - GroupedSize(n, group) <= 2
  {
    if n > 0 {
      var q, r := (n - 1) / group, (n - 1) % group;
      assert n - 1 == group * q + r;
      if r + 1 < group {
        BitOps.ModUnique(n, group, q, r + 1);
      } else {
        assert n == group * (q + 1) + 0;
        BitOps.ModUnique(n, group, q + 1, 0);
      }
    } else {
      BitOps.ModUnique(0, group, 0, 0);
    }
  }

  lemma ZeroFilledSize(p: Parts, zeros: nat, sep: char, group: nat)
    requires group >= 1
    ensures |ZeroFilled(p, zeros, sep, group)| == |p.lead| + GroupedSize(zeros + |p.digits|, group) + |p.rest|
  {
    hide Grouped;
    GroupedLength(Repeat('0', zeros) + p.digits, sep, group);
  }

  /** One more zero adds one character, or two when it opens a new group. */
  lemma OneMoreZero(p: Parts, zeros: nat, sep: char, group: nat)
    requires group >= 1
    ensures 1 <= |ZeroFilled(p, zeros + 1, sep, group)| - |ZeroFilled(p, zeros, sep, group)| <= 2
  {
    hide ZeroFilled, GroupedSize;
    ZeroFilledSize(p, zeros, sep, group);
    ZeroFilledSize(p, zeros + 1, sep, group);
    OneMoreDigit(zeros + |p.digits|, group);
  }

  /** The overshoot is at most one character, and only to keep a group whole. */
  lemma OvershootIsOne(p: Parts, zeros: nat, sep: char, group: nat, width: nat)
    requires group >= 1 && MinimalZeros(p, zeros, sep, group, width) && zeros > 0
    ensures width <= |ZeroFilled(p, zeros, sep, group)| <= width + 1
  {
    OneMoreZero(p, zeros - 1, sep, group);
  }

  lemma {:induction false} ZerosGrow(p: Parts, j: nat, k: nat, sep: char, group: nat)
    requires group >= 1 && j <= k
    ensures |ZeroFilled(p, j, sep, group)| + (k - j) <= |ZeroFilled(p, k, sep, group)|
    decreases k - j
  {
    if j >= k {
    } else {
      ZerosGrow(p, j, k - 1, sep, group);
      OneMoreZero(p, k - 1, sep, group);
    }
  }

  /** No smaller count reaches the width, so the minimal one is unique. */
  lemma MinimalIsUnique(p: Parts, j: nat, k: nat, sep: char, group: nat, width: nat)
    requires group >= 1 && MinimalZeros(p, j, sep, group, width) && MinimalZeros(p, k, sep, group, width)
    ensures j == k
  {
    if j < k {
      ZerosGrow(p, j, k - 1, sep, group);
    } else if k < j {
      ZerosGrow(p, k, j - 1, sep, group);
    }
  }

  /** Dropping separators and the added zeros gives back the number that was formatted. */
  lemma ZeroFillPreservesValue(s: string, hex: bool, p: Parts, zeros: nat, sep: char, group: nat)
    requires group >= 1 && Splits(s, hex, p) && !IsDigit(sep, hex)
    ensures var mid := Strip(Grouped(Repeat('0', zeros) + p.digits, sep, group), sep);
      |mid| == zeros + |p.digits| && (forall i :: 0 <= i < zeros ==> mid[i] == '0') &&
      p.lead + mid[zeros..] + p.rest == s
  {
    var padded := Repeat('0', zeros) + p.digits;
    forall i | 0 <= i < |padded|
      ensures padded[i] != sep
    {
      assert padded[i] == '0' || IsDigit(padded[i], hex);
    }
    StripUndoesGrouping(padded, sep, group);
    assert padded[zeros..] == p.digits;
  }

  /** With the zero flag the separators run on into the padding; otherwise the grouped number is padded as usual. */
  predicate PaddedNumber(p: Parts, spec: FormatSpec, group: nat, zeros: nat, r: string)
    requires group >= 1 && spec.grouping.Some?
  {
    var filled := ZeroFilled(p, zeros, spec.grouping.value, group);
    if spec.fill == '0' && spec.align == Some('=') && spec.width.Some?
    then MinimalZeros(p, zeros, spec.grouping.value, group, spec.width.value) && r == filled
    else zeros == 0 && r == ApplyPadding(filled, spec)
  }

  lemma NoZeros(p: Parts, sep: char, group: nat)
    requires group >= 1
    ensures ZeroFilled(p, 0, sep, group) == p.lead + Grouped(p.digits, sep, group) + p.rest
  {
    assert Repeat('0', 0) + p.digits == p.digits;
  }

  lemma AnotherZero(digits: string, zeros: nat)
    ensures ['0'] + (Repeat('0', zeros) + digits) == Repeat('0', zeros + 1) + digits
  {
    assert ['0'] + Repeat('0', zeros) == Repeat('0', zeros + 1);
    assert ['0'] + (Repeat('0', zeros) + digits) == ['0'] + Repeat('0', zeros) + digits;
  }

  method GroupAndPad(s: string, spec: FormatSpec, group: nat) returns (r: string)
    requires group >= 1
    ensures spec.grouping.None? ==> r == ApplyPadding(s, spec)
    ensures spec.grouping.Some? ==>
      exists p, zeros: nat :: Splits(s, group == 4, p) && PaddedNumber(p, spec, group, zeros, r)
  {
    hide Grouped, ApplyPadding;
    if spec.grouping.None? {
      return ApplyPadding(s, spec);
    }
    var sep := spec.grouping.value;
    var p := SplitNumber(s, group == 4);
    ghost var zeros: nat := 0;
    NoZeros(p, sep, group);
    if spec.fill == '0' && spec.align == Some('=') && spec.width.Some? {
      var width := spec.width.value;
      var digits := p.digits;
      assert digits == Repeat('0', 0) + p.digits;
      var g := InsertGroupingN(digits, sep, group);
      while |p.lead| + |g| + |p.rest| < width
        invariant digits == Repeat('0', zeros) + p.digits && g == Grouped(digits, sep, group)
        invariant zeros > 0 ==> |ZeroFilled(p, zeros - 1, sep, group)| < width
        decreases width - |p.lead| - |g| - |p.rest|
      {
        OneMoreZero(p, zeros, sep, group);
        AnotherZero(p.digits, zeros);
        digits := ['0'] + digits;
        zeros := zeros + 1;
        g := InsertGroupingN(digits, sep, group);
      }
      r := p.lead + g + p.rest;
    } else {
      var g := InsertGroupingN(p.digits, sep, group);
      r := ApplyPadding(p.lead + g + p.rest, spec);
    }
    assert PaddedNumber(p, spec, group, zeros, r);
  }
}
