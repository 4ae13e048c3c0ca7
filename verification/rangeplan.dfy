/** The byte ranges a download requests, and their text in a range request.
    Both download modes run the same planning loop: chunk `i` covers
    `sizeOfChunk * i .. sizeOfChunk * (i + 1) - 1`, each lower bound being
    the previous upper bound plus one. */
module RangePlan {
  import opened Common
  import opened Decimal

  /** An inclusive byte range `lo..hi` of the remote resource. */
  datatype Range = Range(lo: int, hi: int)

  /** What the C `int` arithmetic of the planning loop needs: both counts are
      `int`s and no `sizeOfChunk * (i + 1)` the loop computes, nor that value
      minus one, leaves the `int` range. The extremes of those products are
      reached at `i + 1 == 1` and `i + 1 == numOfChunks`. */
  predicate PlanFits(n: int, s: int) {
    IsInt32(n) && IsInt32(s) && (n <= 0 || (IsInt32(s * n) && IsInt32(s * n - 1)))
  }

  /** Ranges are back to back: the first starts at byte 0 and every later
      one starts right after its predecessor ends. */
  predicate Contiguous(p: seq<Range>) {
    && (|p| > 0 ==> p[0].lo == 0)
    && forall i :: 0 < i < |p| ==> p[i].lo == p[i - 1].hi + 1
  }

  /** The planning loop from iteration `i`, with `lower` the value the loop
      variable `lowerBound` holds on entry to that iteration. */
  function PlanFrom(n: int, s: int, i: nat, lower: int): (p: seq<Range>)
    requires lower == s * i
    ensures |p| == (if i < n then n - i else 0)
    ensures forall k :: 0 <= k < |p| ==> p[k] == Range(s * (i + k), s * (i + k + 1) - 1)
    decreases n - i
  {
    if i >= n then []
    else
      var upper := s * (i + 1) - 1;
      [Range(lower, upper)] + PlanFrom(n, s, i + 1, upper + 1)
  }

  /** The ranges requested for `n` chunks of `s` bytes. */
  function Plan(n: int, s: int): (p: seq<Range>)
    requires PlanFits(n, s)
    ensures |p| == (if n > 0 then n else 0)
    ensures forall i :: 0 <= i < |p| ==> p[i] == Range(s * i, s * (i + 1) - 1)
    ensures Contiguous(p)
    ensures forall i :: 0 <= i < |p| ==> IsInt32(p[i].lo) && IsInt32(p[i].hi)
  {
    var p := PlanFrom(n, s, 0, 0);
    forall i | 0 <= i < |p|
      ensures IsInt32(p[i].lo) && IsInt32(p[i].hi)
    {
      PlanBoundsFit(n, s, i);
    }
    p
  }

  /** Every product the planning loop forms lies between its values at the
      first and at the last iteration. */
  lemma PlanBoundsFit(n: int, s: int, i: int)
    requires PlanFits(n, s) && 0 <= i < n
    ensures IsInt32(s * i) && IsInt32(s * (i + 1)) && IsInt32(s * (i + 1) - 1)
  {
    var m := n - (i + 1);
    Distribute(s, i, 1);
    Distribute(s, i + 1, m);
    if s >= 0 {
      SignOfProduct(s, i);
      SignOfProduct(s, m);
    } else {
      SignOfProduct(-s, i);
      SignOfProduct(-s, m);
      Negate(s, i);
      Negate(s, m);
    }
  }

  /** With a positive chunk size the ranges are `s` bytes each, in
      ascending order and pairwise disjoint, and together they cover
      `0..s * n - 1`. */
  lemma PlanPartitions(n: int, s: int)
    requires PlanFits(n, s) && s > 0
    ensures var p := Plan(n, s);
      && (forall i :: 0 <= i < |p| ==> p[i].hi - p[i].lo + 1 == s)
      && (forall i, j :: 0 <= i < j < |p| ==> p[i].hi < p[j].lo)
      && (n > 0 ==> p[0].lo == 0 && p[|p| - 1].hi == s * n - 1)
  {
    var p := Plan(n, s);
    forall i | 0 <= i < |p|
      ensures p[i].hi - p[i].lo + 1 == s
    {
      Distribute(s, i, 1);
    }
    forall i, j | 0 <= i < j < |p|
      ensures p[i].hi < p[j].lo
    {
      Distribute(s, i + 1, j - (i + 1));
      SignOfProduct(s, j - (i + 1));
    }
  }

  lemma Distribute(a: int, b: int, c: int)
    ensures a * (b + c) == a * b + a * c
  {
  }

  lemma SignOfProduct(a: int, b: int)
    requires 0 <= a && 0 <= b
    ensures 0 <= a * b
  {
  }

  lemma Negate(a: int, b: int)
    ensures (-a) * b == -(a * b)
  {
  }

  /** The text `setCurlOpt` prints with `"%d-%d"`. For non-negative bounds it
      is a byte-range-spec of section 2.1 of RFC 7233, the `bytes=` unit
      being added by the transport. */
  function RangeText(lo: int, hi: int): string
  {
    IntToText(lo) + "-" + IntToText(hi)
  }

  /** The position of the first `-` in `t`, or `|t|` when there is none. */
  function FirstDash(t: string): (k: nat)
    ensures k <= |t|
    ensures forall j :: 0 <= j < k ==> t[j] != '-'
    ensures k < |t| ==> t[k] == '-'
  {
    if t == [] || t[0] == '-' then 0 else 1 + FirstDash(t[1..])
  }

  /** Reads a range text back: a `%d` rendering of a non-negative lower
      bound, one `-`, and a `%d` rendering of a non-negative upper bound. */
  function ParseRange(t: string): Option<Range>
  {
    var k := FirstDash(t);
    if k == |t| then None
    else
      var a := t[..k];
      var b := t[k + 1..];
      if Canonical(a) && Canonical(b) then Some(Range(TextToNat(a), TextToNat(b))) else None
  }

  lemma DigitsHaveNoDash(s: string)
    requires AllDigits(s)
    ensures forall j :: 0 <= j < |s| ==> s[j] != '-'
  {
  }

  /** For non-negative bounds, splitting the range text at its `-` and reading
      both sides gives back the bounds. */
  lemma RangeTextRoundTrip(lo: int, hi: int)
    requires 0 <= lo && 0 <= hi
    ensures ParseRange(RangeText(lo, hi)) == Some(Range(lo, hi))
  {
    var a := IntToText(lo);
    var b := IntToText(hi);
    var t := RangeText(lo, hi);
    DigitsHaveNoDash(a);
    assert t[|a|] == '-';
    assert forall j :: 0 <= j < |a| ==> t[j] == a[j];
    var k := FirstDash(t);
    assert k == |a|;
    assert t[..k] == a;
    assert t[k + 1..] == b;
    NatTextRoundTrip(lo);
    NatTextRoundTrip(hi);
  }

  /** Conversely, the only texts read as a range are range texts of
      non-negative bounds. */
  lemma ParseRangeOnlyRangeText(t: string)
    requires ParseRange(t).Some?
    ensures var r := ParseRange(t).value;
      0 <= r.lo && 0 <= r.hi && t == RangeText(r.lo, r.hi)
  {
    var k := FirstDash(t);
    var a := t[..k];
    var b := t[k + 1..];
    TextNatRoundTrip(a);
    TextNatRoundTrip(b);
    assert t == a + "-" + b;
  }
}
