/** Padding arithmetic: rounding extents up to their alignment multiplier,
    the pad widths handed to the constant-pad kernel, row-major strides and
    the flagged logical shape of a freshly wrapped buffer. */
module Padding {
  import opened Base
  import opened Dimensions

  /** Alignment multipliers are positive; 1 means "not padded". */
  predicate ValidMultipliers(ms: seq<int>) {
    forall i :: 0 <= i < |ms| ==> ms[i] >= 1
  }

  /** `(n + m - 1) // m * m`: the smallest multiple of `m` that is at least `n`. */
  function RoundUp(n: nat, m: int): (r: nat)
    requires m >= 1
    ensures r % m == 0
    ensures n <= r < n + m
  {
    var q := (n + m - 1) / m;
    assert q * m + (n + m - 1) % m == n + m - 1;
    MultipleMod(q, m);
    q * m
  }

  lemma MultipleMod(q: int, m: int)
    requires m >= 1
    ensures (q * m) % m == 0
  {
    var r, d := (q * m) % m, (q * m) / m;
    assert q * m == d * m + r && 0 <= r < m;
    assert m * (q - d) == r;
    MulLowerBound(m, q - d);
  }

  /** The padded extent of dimension `d`: rounded up when a multiplier is
      given for it, unchanged otherwise. */
  function PaddedExtent(shape: seq<nat>, ms: seq<int>, d: nat): nat
    requires ValidMultipliers(ms) && d < |shape|
  {
    if d < |ms| then RoundUp(shape[d], ms[d]) else shape[d]
  }

  function PaddedShape(shape: seq<nat>, ms: seq<int>): (r: seq<nat>)
    requires ValidMultipliers(ms)
    ensures |r| == |shape|
  {
    seq(|shape|, d requires 0 <= d < |shape| => PaddedExtent(shape, ms, d))
  }

  /** get_padded_shape */
  method GetPaddedShape(shape: seq<nat>, multipliers: seq<int>) returns (padded: seq<nat>)
    requires ValidMultipliers(multipliers)
    ensures padded == PaddedShape(shape, multipliers)
  {
    padded := shape;
    for dim := 0 to |multipliers|
      invariant |padded| == |shape|
      invariant forall d :: 0 <= d < |shape| ==>
                  padded[d] == if d < dim then PaddedExtent(shape, multipliers, d) else shape[d]
    {
      if dim < |padded| {
        padded := padded[dim := RoundUp(padded[dim], multipliers[dim])];
      }
    }
  }

  /** Every multiplied dimension becomes a multiple of its multiplier with
      less than one multiplier of padding; the others and the rank are kept. */
  lemma PaddingBounds(shape: seq<nat>, ms: seq<int>, d: nat)
    requires ValidMultipliers(ms) && d < |shape|
    ensures |PaddedShape(shape, ms)| == |shape|
    ensures d < |ms| ==> PaddedShape(shape, ms)[d] % ms[d] == 0
    ensures d < |ms| ==> 0 <= PaddedShape(shape, ms)[d] - shape[d] < ms[d]
    ensures d >= |ms| ==> PaddedShape(shape, ms)[d] == shape[d]
  {
  }

  /** Multipliers of 1 (the wrapping the dispatcher applies) change nothing. */
  lemma PaddedShapeOnes(shape: seq<nat>, ms: seq<int>)
    requires forall i :: 0 <= i < |ms| ==> ms[i] == 1
    ensures ValidMultipliers(ms) && PaddedShape(shape, ms) == shape
  {
    forall d | 0 <= d < |shape| ensures PaddedShape(shape, ms)[d] == shape[d] {
      if d < |ms| {
        assert RoundUp(shape[d], 1) == shape[d];
      }
    }
  }

  function Ones(n: nat): (ms: seq<int>)
    ensures |ms| == n && forall i :: 0 <= i < n ==> ms[i] == 1
  {
    seq(n, _ => 1)
  }

  /** How much dimension `d` grows when padded. */
  function Growth(shape: seq<nat>, ms: seq<int>, d: nat): int
    requires ValidMultipliers(ms) && d < |shape|
  {
    PaddedExtent(shape, ms, d) - shape[d]
  }

  /** The widths in the layout the constant-pad kernel reads: pairs
      (low, high) starting from the last dimension. */
  function PadWidths(shape: seq<nat>, ms: seq<int>): (pad: seq<int>)
    requires ValidMultipliers(ms)
  {
    var n := |shape|;
    seq(2 * n, k requires 0 <= k < 2 * n => if k % 2 == 0 then 0 else Growth(shape, ms, n - 1 - k / 2))
  }

  /** Entry `k` of the list get_pad fills before reversing it, once the
      multipliers before `dim` have been visited. */
  function FilledEntry(shape: seq<nat>, ms: seq<int>, dim: nat, k: nat): int
    requires ValidMultipliers(ms) && k < 2 * |shape|
  {
    if k % 2 == 0 && k / 2 < dim && k / 2 < |ms| then Growth(shape, ms, k / 2) else 0
  }

  lemma HalfOf(k: nat, dim: nat)
    ensures k / 2 == dim <==> k == 2 * dim || k == 2 * dim + 1
    ensures k % 2 == 0 ==> k == 2 * (k / 2)
  {
  }

  /** get_pad */
  method GetPad(shape: seq<nat>, multipliers: seq<int>) returns (pad: seq<int>)
    requires ValidMultipliers(multipliers)
    ensures pad == PadWidths(shape, multipliers)
  {
    var n := |shape|;
    var buf := new int[2 * n](_ => 0);
    for dim := 0 to |multipliers|
      invariant forall k :: 0 <= k < 2 * n ==> buf[k] == FilledEntry(shape, multipliers, dim, k)
    {
      if dim < n {
        buf[2 * dim] := RoundUp(shape[dim], multipliers[dim]) - shape[dim];
        buf[2 * dim + 1] := 0;
      }
      forall k | 0 <= k < 2 * n ensures buf[k] == FilledEntry(shape, multipliers, dim + 1, k) {
        HalfOf(k, dim);
      }
    }
    pad := ReverseFilled(shape, multipliers, buf[..]);
  }

  /** `pad[::-1]` once every multiplier has been visited. */
  function ReverseFilled(shape: seq<nat>, ms: seq<int>, flat: seq<int>): (pad: seq<int>)
    requires ValidMultipliers(ms)
    requires |flat| == 2 * |shape|
    requires forall k :: 0 <= k < 2 * |shape| ==> flat[k] == FilledEntry(shape, ms, |ms|, k)
    ensures pad == PadWidths(shape, ms)
  {
    var n := |shape|;
    var pad := seq(2 * n, k requires 0 <= k < 2 * n => flat[2 * n - 1 - k]);
    assert forall k :: 0 <= k < 2 * n ==> pad[k] == PadWidths(shape, ms)[k] by {
      forall k | 0 <= k < 2 * n ensures pad[k] == PadWidths(shape, ms)[k] {
        var j := 2 * n - 1 - k;
        assert pad[k] == flat[j] == FilledEntry(shape, ms, |ms|, j);
        if k % 2 == 1 {
          assert j % 2 == 0 && j / 2 == n - 1 - k / 2;
        } else {
          assert j % 2 == 1;
        }
      }
    }
    pad
  }

  /** Padding is appended on the high side only: each dimension gets a zero
      low width and a high width equal to its growth. */
  lemma PadWidthsHighSideOnly(shape: seq<nat>, ms: seq<int>, d: nat)
    requires ValidMultipliers(ms) && d < |shape|
    ensures |PadWidths(shape, ms)| == 2 * |shape|
    ensures PadWidths(shape, ms)[2 * (|shape| - 1 - d)] == 0
    ensures PadWidths(shape, ms)[2 * (|shape| - 1 - d) + 1] == PaddedShape(shape, ms)[d] - shape[d]
  {
    var n := |shape|;
    var k := 2 * (n - 1 - d) + 1;
    assert k / 2 == n - 1 - d;
  }

  /** The extents the constant-pad kernel produces from `shape` and `pad`:
      pair j of `pad` widens dimension `|shape| - 1 - j` on both sides. */
  function ConstantPadShape(shape: seq<nat>, pad: seq<int>): seq<int>
    requires |pad| == 2 * |shape|
  {
    var n := |shape|;
    seq(n, d requires 0 <= d < n => shape[d] + pad[2 * (n - 1 - d)] + pad[2 * (n - 1 - d) + 1])
  }

  /** Padding a buffer with the widths of `PadWidths` yields exactly the
      padded shape, so the wrapper's declared shape and its buffer agree. */
  lemma PadReachesPaddedShape(shape: seq<nat>, ms: seq<int>)
    requires ValidMultipliers(ms)
    ensures ConstantPadShape(shape, PadWidths(shape, ms)) == PaddedShape(shape, ms)
  {
    forall d | 0 <= d < |shape|
      ensures ConstantPadShape(shape, PadWidths(shape, ms))[d] == PaddedShape(shape, ms)[d]
    {
      PadWidthsHighSideOnly(shape, ms, d);
    }
  }

  /** get_strides: the row-major stride of each dimension is the product of
      the extents after it, so the last stride is 1, each stride is the next
      one times the next extent, and the first stride times the first extent
      is the element count. */
  method GetStrides(shape: seq<nat>) returns (strides: seq<int>)
    ensures |strides| == |shape|
    ensures forall i :: 0 <= i < |shape| ==> strides[i] == Prod(shape[i + 1..])
    ensures |shape| > 0 ==> strides[|shape| - 1] == 1
    ensures forall i :: 0 <= i < |shape| - 1 ==> strides[i] == shape[i + 1] * strides[i + 1]
    ensures |shape| > 0 ==> shape[0] * strides[0] == Prod(shape)
  {
    var n := |shape|;
    if n == 0 {
      return [];
    }
    var rev := [1];
    var i := n - 1;
    while i > 0
      invariant 0 <= i <= n - 1
      invariant |rev| == n - i
      invariant forall k :: 0 <= k < |rev| ==> rev[k] == Prod(shape[n - k..])
    {
      assert shape[i..][1..] == shape[i + 1..];
      rev := rev + [rev[|rev| - 1] * shape[i]];
      i := i - 1;
    }
    strides := seq(n, j requires 0 <= j < n => rev[n - 1 - j]);
    assert shape[n..] == [];
    forall i | 0 <= i < n - 1
      ensures strides[i] == shape[i + 1] * strides[i + 1]
    {
      StridesRowMajor(shape, i);
    }
    assert shape[0] * strides[0] == Prod(shape) by {
      assert shape[0] * Prod(shape[1..]) == Prod(shape);
    }
  }

  /** The product of the extents after position `i` is the next extent
      times the product of those after it; the first extent times the
      product of the rest is the element count. */
  lemma {:induction false} StridesRowMajor(shape: seq<nat>, i: nat)
    requires i + 1 < |shape|
    ensures Prod(shape[i + 1..]) == shape[i + 1] * Prod(shape[i + 2..])
    ensures shape[0] * Prod(shape[1..]) == Prod(shape)
  {
    assert shape[i + 1..][1..] == shape[i + 2..];
  }

  /** The flagged shape of a freshly wrapped buffer: its extents, each
      marked padded exactly when its multiplier is not 1. */
  function PaddedDims(shape: seq<nat>, ms: seq<int>): Shape
    requires |shape| <= |ms|
  {
    seq(|shape|, i requires 0 <= i < |shape| => Dimension(shape[i], ms[i] != 1))
  }

  /** create_padded_dims: reading the multiplier of a dimension beyond the
      multiplier list raises IndexError. */
  method CreatePaddedDims(shape: seq<nat>, multipliers: seq<int>) returns (r: Result<Shape>)
    ensures r.Ok? <==> |shape| <= |multipliers|
    ensures r.Err? ==> r.error == IndexOutOfRange
    ensures r.Ok? ==> Sizes(r.value) == shape
    ensures r.Ok? ==> forall i :: 0 <= i < |shape| ==> (r.value[i].isPadded <==> multipliers[i] != 1)
    ensures r.Ok? ==> r.value == PaddedDims(shape, multipliers)
  {
    var dims: Shape := [];
    for i := 0 to |shape|
      invariant i <= |multipliers|
      invariant |dims| == i
      invariant forall k :: 0 <= k < i ==> dims[k] == Dimension(shape[k], multipliers[k] != 1)
    {
      if i >= |multipliers| {
        return Err(IndexOutOfRange);
      }
      dims := dims + [Dimension(shape[i], multipliers[i] != 1)];
    }
    r := Ok(dims);
  }
}
