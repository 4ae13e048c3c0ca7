/** Small shared vocabulary: bytes, optional values, the C `int` range and
    sequence concatenation. */
module Common {

  /** One octet of a downloaded resource. */
  newtype byte = b: int | 0 <= b < 256

  datatype Option<+T> = None | Some(value: T) {
    /** The carried value, or `default` when there is none. */
    function GetOr(default: T): T {
      match this
      case Some(v) => v
      case None => default
    }
  }

  const INT_MIN: int := -0x8000_0000
  const INT_MAX: int := 0x7fff_ffff

  /** Whether `x` is representable as a 32-bit C `int`. */
  predicate IsInt32(x: int) {
    INT_MIN <= x <= INT_MAX
  }

  /** The concatenation of `ss` in order, with no separators. */
  function Flatten<T>(ss: seq<seq<T>>): seq<T>
  {
    if ss == [] then [] else ss[0] + Flatten(ss[1..])
  }

  /** The total length of all pieces of `ss`. */
  function TotalLength<T>(ss: seq<seq<T>>): nat
  {
    if ss == [] then 0 else |ss[0]| + TotalLength(ss[1..])
  }

  /** Concatenation distributes over appending pieces. */
  lemma {:induction false} FlattenAppend<T>(a: seq<seq<T>>, b: seq<seq<T>>)
    ensures Flatten(a + b) == Flatten(a) + Flatten(b)
  {
    if a == [] {
      assert a + b == b;
    } else {
      assert (a + b)[1..] == a[1..] + b;
      FlattenAppend(a[1..], b);
    }
  }

  /** The concatenation is exactly as long as all pieces together. */
  lemma {:induction false} FlattenLength<T>(ss: seq<seq<T>>)
    ensures |Flatten(ss)| == TotalLength(ss)
  {
    if ss != [] {
      FlattenLength(ss[1..]);
    }
  }

  /** Piece `i` sits in the concatenation right after all earlier pieces. */
  lemma FlattenSegment<T>(ss: seq<seq<T>>, i: int)
    requires 0 <= i < |ss|
    ensures var off := TotalLength(ss[..i]);
      off + |ss[i]| <= |Flatten(ss)| && Flatten(ss)[off..off + |ss[i]|] == ss[i]
  {
    assert ss == ss[..i] + [ss[i]] + ss[i + 1..];
    FlattenAppend(ss[..i] + [ss[i]], ss[i + 1..]);
    FlattenAppend(ss[..i], [ss[i]]);
    FlattenLength(ss[..i]);
    assert Flatten([ss[i]]) == ss[i];
  }

  /** Peeling the first element off a slice. */
  lemma SliceCons<T>(b: seq<T>, i: int, m: int)
    requires 0 <= i < m <= |b|
    ensures b[i..m] == [b[i]] + b[i + 1..m]
  {
  }

  /** A sequence of two or more elements is its first element, its middle
      and its last element. */
  lemma FirstMiddleLast<T>(s: seq<T>)
    requires |s| >= 2
    ensures s == [s[0]] + s[1..|s| - 1] + [s[|s| - 1]]
  {
  }

  lemma AppendAssoc<T>(a: seq<T>, b: seq<T>, c: seq<T>)
    ensures (a + b) + c == a + (b + c)
  {
  }

  /** Dropping the first piece of a concatenation leaves the second. */
  lemma DropAppend<T>(a: seq<T>, b: seq<T>)
    ensures (a + b)[|a|..] == b
  {
  }

  /** The elements strictly between the first and the last. */
  lemma Interior<T>(a: T, m: seq<T>, z: T)
    ensures var s := [a] + m + [z];
      |s| >= 2 && s[1..|s| - 1] == m
  {
    var s := [a] + m + [z];
    assert s[1..|s| - 1] == m;
  }
}
