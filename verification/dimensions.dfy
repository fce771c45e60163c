/** The `Dimension` value type (an extent tagged with whether padding was
    applied to it) and the shape-level vocabulary built on it. */
module Dimensions {

  /** An extent that remembers whether it belongs to a padded dimension.
      Arithmetic combines the extents as integers and the flags with OR. */
  datatype Dimension = Dimension(size: int, isPadded: bool) {
    function Add(other: Dimension): Dimension {
      Dimension(size + other.size, isPadded || other.isPadded)
    }
    function Sub(other: Dimension): Dimension {
      Dimension(size - other.size, isPadded || other.isPadded)
    }
    function Mul(other: Dimension): Dimension {
      Dimension(size * other.size, isPadded || other.isPadded)
    }
  }

  /** A logical shape. */
  type Shape = seq<Dimension>

  /** The unresolved-shape sentinel (`INVALID_ID`). */
  const INVALID_ID: int := -1337

  /** A plain integer placed in a logical shape: an extent with no padding flag. */
  function Unflagged(n: int): Dimension {
    Dimension(n, false)
  }

  function Plain(xs: seq<int>): (s: Shape)
    ensures |s| == |xs|
    ensures forall i :: 0 <= i < |xs| ==> s[i] == Unflagged(xs[i])
  {
    seq(|xs|, i requires 0 <= i < |xs| => Unflagged(xs[i]))
  }

  function Sizes(s: Shape): (xs: seq<int>)
    ensures |xs| == |s|
    ensures forall i :: 0 <= i < |s| ==> xs[i] == s[i].size
  {
    seq(|s|, i requires 0 <= i < |s| => s[i].size)
  }

  /** The `i`-th dimension counted from the end (`s[-i - 1]`). */
  function Back(s: Shape, i: nat): Dimension
    requires i < |s|
  {
    s[|s| - 1 - i]
  }

  /** Two shapes with equal extents, whatever their flags. */
  predicate SameSizes(a: Shape, b: Shape) {
    |a| == |b| && forall i :: 0 <= i < |a| ==> a[i].size == b[i].size
  }

  /** `[INVALID_ID] * n` */
  function Sentinel(n: nat): (s: Shape)
    ensures |s| == n
    ensures forall i :: 0 <= i < n ==> s[i] == Unflagged(INVALID_ID)
  {
    Plain(seq(n, _ => INVALID_ID))
  }

  /** `math.prod` */
  function Prod(xs: seq<int>): int {
    if xs == [] then 1 else xs[0] * Prod(xs[1..])
  }

  lemma {:induction false} ProdConcat(xs: seq<int>, ys: seq<int>)
    ensures Prod(xs + ys) == Prod(xs) * Prod(ys)
  {
    if xs != [] {
      assert (xs + ys)[1..] == xs[1..] + ys;
      ProdConcat(xs[1..], ys);
      var a, b, c := xs[0], Prod(xs[1..]), Prod(ys);
      assert Prod(xs + ys) == a * (b * c);
      MulAssoc(a, b, c);
    } else {
      assert xs + ys == ys;
    }
  }

  lemma MulAssoc(a: int, b: int, c: int)
    ensures a * (b * c) == (a * b) * c
  {
  }

  lemma MulLowerBound(a: int, d: int)
    requires a >= 1
    ensures d >= 1 ==> a * d >= a
    ensures d <= -1 ==> a * d <= -a
  {
    assert a * d - a == a * (d - 1);
    assert a * d + a == a * (d + 1);
  }

  lemma ProdSplit(xs: seq<int>, i: nat)
    requires i < |xs|
    ensures Prod(xs) == Prod(xs[..i]) * xs[i] * Prod(xs[i + 1..])
  {
    var tail := [xs[i]] + xs[i + 1..];
    assert xs == xs[..i] + tail;
    ProdConcat(xs[..i], tail);
    assert tail[1..] == xs[i + 1..];
    assert Prod(tail) == xs[i] * Prod(xs[i + 1..]);
    MulAssoc(Prod(xs[..i]), xs[i], Prod(xs[i + 1..]));
  }

  lemma ProdSmall(a: int, b: int, c: int)
    ensures Prod([a]) == a
    ensures Prod([a, b]) == a * b
    ensures Prod([a, b, c]) == a * b * c
  {
    assert [a][1..] == [] && [a, b][1..] == [b] && [a, b, c][1..] == [b, c] && [b, c][1..] == [c];
    assert Prod([b]) == b && Prod([c]) == c;
    assert Prod([b, c]) == b * c;
    assert Prod([a, b, c]) == a * (b * c);
    MulAssoc(a, b, c);
  }

  lemma ProdPositive(xs: seq<int>)
    requires forall i :: 0 <= i < |xs| ==> xs[i] >= 1
    ensures Prod(xs) >= 1
  {
    if xs != [] {
      ProdPositive(xs[1..]);
    }
  }

  lemma SizesPlain(xs: seq<int>)
    ensures Sizes(Plain(xs)) == xs
  {
  }

  lemma SizesConcat(a: Shape, b: Shape)
    ensures Sizes(a + b) == Sizes(a) + Sizes(b)
  {
  }

  /** Arithmetic on dimensions agrees with integer arithmetic on the extents,
      and the result is padded exactly when either operand is. */
  lemma DimensionArithmetic(a: Dimension, b: Dimension)
    ensures a.Add(b).Sub(b).size == a.size
    ensures a.Mul(b).size == b.Mul(a).size && a.Mul(b).isPadded == b.Mul(a).isPadded
    ensures a.Mul(Unflagged(1)) == a
    ensures a.Add(b).isPadded == (a.isPadded || b.isPadded)
    ensures a.Sub(b).isPadded == (a.isPadded || b.isPadded)
    ensures a.Mul(b).isPadded == (a.isPadded || b.isPadded)
  {
  }
}
