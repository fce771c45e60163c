/** Stripping the common prefix or suffix of two shapes.

    The source's loops (`while list1[idx] == list2[idx]` and its mirror)
    have no bound: when one list runs out before a mismatch the prefix
    version raises IndexError and the suffix version keeps reading through
    negative indices. `StripCommonPrefixAsWritten` and
    `StripCommonSuffixAsWritten` model that behaviour; the methods
    `StripCommonPrefix` and `StripCommonSuffix` stop at the end of the
    shorter list, and the rest of the model uses them. Extents are compared
    by size, as Python compares a `Dimension` with an `int`. */
module ShapeAlgebra {
  import opened Base
  import opened Dimensions

  /** Length of the longest common prefix, compared by size. */
  function CommonPrefixLen(l1: Shape, l2: Shape): (k: nat)
    ensures k <= |l1| && k <= |l2|
    ensures forall i :: 0 <= i < k ==> l1[i].size == l2[i].size
    ensures k < |l1| && k < |l2| ==> l1[k].size != l2[k].size
  {
    if l1 == [] || l2 == [] || l1[0].size != l2[0].size then 0
    else 1 + CommonPrefixLen(l1[1..], l2[1..])
  }

  /** Length of the longest common suffix, compared by size. */
  function CommonSuffixLen(l1: Shape, l2: Shape): (k: nat)
    ensures k <= |l1| && k <= |l2|
    ensures forall i :: 0 <= i < k ==> Back(l1, i).size == Back(l2, i).size
    ensures k < |l1| && k < |l2| ==> Back(l1, k).size != Back(l2, k).size
  {
    SuffixMatchFrom(l1, l2, 0)
  }

  function SuffixMatchFrom(l1: Shape, l2: Shape, k: nat): (r: nat)
    requires k <= |l1| && k <= |l2|
    ensures k <= r <= |l1| && r <= |l2|
    ensures forall i :: k <= i < r ==> Back(l1, i).size == Back(l2, i).size
    ensures r < |l1| && r < |l2| ==> Back(l1, r).size != Back(l2, r).size
    decreases |l1| - k
  {
    if k < |l1| && k < |l2| && Back(l1, k).size == Back(l2, k).size then SuffixMatchFrom(l1, l2, k + 1)
    else k
  }

  function StripPrefix(l1: Shape, l2: Shape): (Shape, Shape) {
    var k := CommonPrefixLen(l1, l2);
    (l1[k..], l2[k..])
  }

  function StripSuffix(l1: Shape, l2: Shape): (Shape, Shape) {
    var k := CommonSuffixLen(l1, l2);
    (l1[..|l1| - k], l2[..|l2| - k])
  }

  /** strip_common_prefix, bounded by the shorter list. */
  method StripCommonPrefix(l1: Shape, l2: Shape) returns (r1: Shape, r2: Shape)
    ensures (r1, r2) == StripPrefix(l1, l2)
    ensures |l1| - |r1| == |l2| - |r2| >= 0
    ensures r1 == l1[|l1| - |r1|..] && r2 == l2[|l2| - |r2|..]
    ensures SameSizes(l1[..|l1| - |r1|], l2[..|l2| - |r2|])
    ensures r1 != [] && r2 != [] ==> r1[0].size != r2[0].size
    ensures l1 == [] || l2 == [] ==> r1 == l1 && r2 == l2
  {
    if |l1| == 0 || |l2| == 0 {
      return l1, l2;
    }
    var idx := 0;
    while idx < |l1| && idx < |l2| && l1[idx].size == l2[idx].size
      invariant idx <= |l1| && idx <= |l2|
      invariant forall i :: 0 <= i < idx ==> l1[i].size == l2[i].size
      invariant idx <= CommonPrefixLen(l1, l2)
    {
      idx := idx + 1;
    }
    r1, r2 := l1[idx..], l2[idx..];
  }

  /** strip_common_suffix, bounded by the shorter list. */
  method StripCommonSuffix(l1: Shape, l2: Shape) returns (r1: Shape, r2: Shape)
    ensures (r1, r2) == StripSuffix(l1, l2)
    ensures |l1| - |r1| == |l2| - |r2| >= 0
    ensures r1 == l1[..|r1|] && r2 == l2[..|r2|]
    ensures SameSizes(l1[|r1|..], l2[|r2|..])
    ensures r1 != [] && r2 != [] ==> r1[|r1| - 1].size != r2[|r2| - 1].size
    ensures l1 == [] || l2 == [] ==> r1 == l1 && r2 == l2
  {
    if |l1| == 0 || |l2| == 0 {
      assert l1[..|l1|] == l1 && l2[..|l2|] == l2;
      return l1, l2;
    }
    var idx := 0;
    while idx < |l1| && idx < |l2| && Back(l1, idx).size == Back(l2, idx).size
      invariant idx <= |l1| && idx <= |l2|
      invariant idx <= CommonSuffixLen(l1, l2)
    {
      idx := idx + 1;
    }
    r1, r2 := l1[..|l1| - idx], l2[..|l2| - idx];
    var a, b := l1[|r1|..], l2[|r2|..];
    assert |a| == idx == |b|;
    forall i | 0 <= i < idx ensures a[i].size == b[i].size {
      assert a[i] == l1[|l1| - idx + i] == Back(l1, idx - 1 - i);
      assert b[i] == l2[|l2| - idx + i] == Back(l2, idx - 1 - i);
    }
  }

  /** The scan of strip_common_prefix exactly as written: `list1[idx]`
      raises IndexError once either list is exhausted. */
  function PrefixScanAsWritten(l1: Shape, l2: Shape, idx: nat): Result<nat>
    decreases |l1| - idx
  {
    var a :- PyAt(l1, idx);
    var b :- PyAt(l2, idx);
    if a.size == b.size then PrefixScanAsWritten(l1, l2, idx + 1) else Ok(idx)
  }

  function StripCommonPrefixAsWritten(l1: Shape, l2: Shape): Result<(Shape, Shape)> {
    if l1 == [] || l2 == [] then Ok((l1, l2))
    else
      var idx :- PrefixScanAsWritten(l1, l2, 0);
      Ok((Drop(l1, idx), Drop(l2, idx)))
  }

  /** The scan of strip_common_suffix exactly as written: once `idx`
      passes the length of a list, `list[len - idx - 1]` is a negative
      index and reads from the other end, until it falls off that end too. */
  function SuffixScanAsWritten(l1: Shape, l2: Shape, idx: nat): Result<nat>
    decreases 2 * |l1| - idx
  {
    var a :- PyAt(l1, |l1| - idx - 1);
    var b :- PyAt(l2, |l2| - idx - 1);
    if a.size == b.size then SuffixScanAsWritten(l1, l2, idx + 1) else Ok(idx)
  }

  function StripCommonSuffixAsWritten(l1: Shape, l2: Shape): Result<(Shape, Shape)> {
    if l1 == [] || l2 == [] then Ok((l1, l2))
    else
      var idx :- SuffixScanAsWritten(l1, l2, 0);
      Ok((Take(l1, |l1| - idx), Take(l2, |l2| - idx)))
  }

  /** As written, the prefix scan raises IndexError whenever the first list
      is a proper prefix of the second (by size), where the bounded version
      strips the whole first list. */
  lemma {:induction false} PrefixAsWrittenRaisesOnProperPrefix(l1: Shape, l2: Shape)
    requires 0 < |l1| < |l2|
    requires forall i :: 0 <= i < |l1| ==> l1[i].size == l2[i].size
    ensures StripCommonPrefixAsWritten(l1, l2) == Err(IndexOutOfRange)
    ensures StripPrefix(l1, l2) == ([], l2[|l1|..])
  {
    PrefixScanRaises(l1, l2, 0);
    assert CommonPrefixLen(l1, l2) == |l1|;
    assert l1[|l1|..] == [];
  }

  lemma {:induction false} PrefixScanRaises(l1: Shape, l2: Shape, idx: nat)
    requires idx <= |l1| < |l2|
    requires forall i :: 0 <= i < |l1| ==> l1[i].size == l2[i].size
    ensures PrefixScanAsWritten(l1, l2, idx) == Err(IndexOutOfRange)
    decreases |l1| - idx
  {
    if idx < |l1| {
      PrefixScanRaises(l1, l2, idx + 1);
    }
  }

  /** As written, the suffix scan wraps: for `[2, 1]` against `[1, 2, 1]`
      it strips one element from the first list and all three from the
      second, so the removed parts differ, where the bounded version
      strips the common `[2, 1]` from both. */
  lemma SuffixAsWrittenWraps()
    ensures var l1, l2 := [Unflagged(2), Unflagged(1)], [Unflagged(1), Unflagged(2), Unflagged(1)];
      && StripCommonSuffixAsWritten(l1, l2) == Ok(([Unflagged(2)], []))
      && StripSuffix(l1, l2) == ([], [Unflagged(1)])
  {
    var l1, l2 := [Unflagged(2), Unflagged(1)], [Unflagged(1), Unflagged(2), Unflagged(1)];
    assert SuffixScanAsWritten(l1, l2, 3) == Ok(3);
    assert SuffixScanAsWritten(l1, l2, 2) == Ok(3);
    assert SuffixScanAsWritten(l1, l2, 1) == Ok(3);
    assert SuffixScanAsWritten(l1, l2, 0) == Ok(3);
    assert Take(l1, 2 - 3) == [Unflagged(2)];
    assert CommonSuffixLen(l1[..0], l2[..1]) == 0;
    assert CommonSuffixLen(l1[..1], l2[..2]) == 1;
    assert CommonSuffixLen(l1, l2) == 2;
    assert l2[..1] == [Unflagged(1)];
  }
}
