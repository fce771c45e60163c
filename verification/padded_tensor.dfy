/** The padded tensor at shape level: construction (padding the buffer up to
    the multipliers and recording the logical shape), the multi-dimensional
    slice, and unpadding back to the logical extents. Buffers are represented
    by their shapes only. */
module PaddedTensors {
  import opened Base
  import opened Dimensions
  import opened Padding

  // ---------------------------------------------------------------------
  // slice_nd

  /** `all(shape[k] == end for k, end in enumerate(ends) if end is not None)`,
      from position `k`, stopping at the first mismatch. */
  function ExtentsMatchFrom(shape: seq<nat>, ends: seq<Option<int>>, k: nat): Result<bool>
    decreases |ends| - k
  {
    if k >= |ends| then Ok(true)
    else if ends[k].None? then ExtentsMatchFrom(shape, ends, k + 1)
    else if k >= |shape| then Err(IndexOutOfRange)
    else if shape[k] != ends[k].value then Ok(false)
    else ExtentsMatchFrom(shape, ends, k + 1)
  }

  /** One dimension of the slicing loop. */
  function SliceDim(cur: seq<nat>, k: nat, start: Option<int>, end: Option<int>): Result<seq<nat>> {
    if start.None? || end.None? then Ok(cur)
    else if k >= |cur| then Err(IndexOutOfRange)
    else if end.value == cur[k] then Ok(cur)
    else if start.value < 0 || end.value > cur[k] then Err(AssertionFailed)
    else if start.value >= end.value then Err(InvalidSliceRange)
    else Ok(cur[k := end.value - start.value])
  }

  function SlicedFrom(cur: seq<nat>, starts: seq<Option<int>>, ends: seq<Option<int>>, k: nat): Result<seq<nat>>
    decreases |starts| - k
  {
    if k >= |starts| || k >= |ends| then Ok(cur)
    else
      var next :- SliceDim(cur, k, starts[k], ends[k]);
      SlicedFrom(next, starts, ends, k + 1)
  }

  /** The shape slice_nd produces from a tensor of shape `shape`. */
  function SliceNdShape(shape: seq<nat>, starts: seq<Option<int>>, ends: seq<Option<int>>): Result<seq<nat>> {
    if |starts| != |ends| then Err(AssertionFailed)
    else
      var same :- ExtentsMatchFrom(shape, ends, 0);
      if same then Ok(shape) else SlicedFrom(shape, starts, ends, 0)
  }

  /** slice_nd */
  method SliceNd(shape: seq<nat>, starts: seq<Option<int>>, ends: seq<Option<int>>) returns (r: Result<seq<nat>>)
    ensures r == SliceNdShape(shape, starts, ends)
  {
    if |starts| != |ends| {
      return Err(AssertionFailed);
    }
    var same := true;
    var k := 0;
    while k < |ends| && same
      invariant k <= |ends|
      invariant ExtentsMatchFrom(shape, ends, 0) == if same then ExtentsMatchFrom(shape, ends, k) else Ok(false)
    {
      if ends[k].Some? {
        if k >= |shape| {
          return Err(IndexOutOfRange);
        }
        same := shape[k] == ends[k].value;
      }
      k := k + 1;
    }
    if same {
      return Ok(shape);
    }
    var input: seq<nat> := shape;
    for dimIdx := 0 to |starts|
      invariant SlicedFrom(shape, starts, ends, 0) == SlicedFrom(input, starts, ends, dimIdx)
    {
      var start, end := starts[dimIdx], ends[dimIdx];
      if start.Some? && end.Some? {
        if dimIdx >= |input| {
          return Err(IndexOutOfRange);
        }
        if end.value != input[dimIdx] {
          if start.value < 0 || end.value > input[dimIdx] {
            return Err(AssertionFailed);
          }
          if !(start.value < end.value) {
            return Err(InvalidSliceRange);
          }
          var extent: nat := end.value - start.value;
          input := input[dimIdx := extent];
        }
      }
    }
    r := Ok(input);
  }

  /** When every given end equals its extent the input is returned as is. */
  lemma {:induction false} SliceSkipsMatchingEnds(shape: seq<nat>, starts: seq<Option<int>>, ends: seq<Option<int>>)
    requires |starts| == |ends|
    requires forall k :: 0 <= k < |ends| && ends[k].Some? ==> k < |shape| && ends[k].value == shape[k]
    ensures SliceNdShape(shape, starts, ends) == Ok(shape)
  {
    ExtentsMatchAll(shape, ends, 0);
  }

  lemma {:induction false} ExtentsMatchAll(shape: seq<nat>, ends: seq<Option<int>>, k: nat)
    requires forall j :: k <= j < |ends| && ends[j].Some? ==> j < |shape| && ends[j].value == shape[j]
    ensures ExtentsMatchFrom(shape, ends, k) == Ok(true)
    decreases |ends| - k
  {
    if k < |ends| {
      ExtentsMatchAll(shape, ends, k + 1);
    }
  }

  /** Whether dimension `j` is cut: both bounds given and the end differs
      from the extent. */
  predicate Cut(shape: seq<nat>, starts: seq<Option<int>>, ends: seq<Option<int>>, j: nat)
    requires j < |starts| && j < |ends| && j < |shape|
  {
    starts[j].Some? && ends[j].Some? && ends[j].value != shape[j]
  }

  /** The slicing loop succeeds exactly when every dimension with both
      bounds exists and every cut satisfies `0 <= start < end <= extent`; it
      keeps the rank, gives each cut dimension the extent `end - start` and
      leaves the others alone. */
  lemma {:induction false} SlicedFromMeaning(cur: seq<nat>, starts: seq<Option<int>>, ends: seq<Option<int>>, k: nat)
    requires |starts| == |ends| && k <= |ends|
    ensures SlicedFrom(cur, starts, ends, k).Ok? <==>
      forall j :: k <= j < |ends| && starts[j].Some? && ends[j].Some? ==>
        j < |cur| && (ends[j].value == cur[j] || 0 <= starts[j].value < ends[j].value <= cur[j])
    ensures SlicedFrom(cur, starts, ends, k).Ok? ==>
      var r := SlicedFrom(cur, starts, ends, k).value;
      && |r| == |cur|
      && forall j :: 0 <= j < |cur| ==>
           r[j] == if k <= j < |ends| && Cut(cur, starts, ends, j) then ends[j].value - starts[j].value else cur[j]
    decreases |ends| - k
  {
    if k < |ends| {
      var step := SliceDim(cur, k, starts[k], ends[k]);
      if step.Ok? {
        SlicedFromMeaning(step.value, starts, ends, k + 1);
      }
    }
  }

  /** The three ways a cut can be rejected, on a single dimension of 8. */
  lemma SliceRejections()
    ensures SliceNdShape([8], [Some(-1)], [Some(4)]) == Err(AssertionFailed)
    ensures SliceNdShape([8], [Some(0)], [Some(9)]) == Err(AssertionFailed)
    ensures SliceNdShape([8], [Some(4)], [Some(2)]) == Err(InvalidSliceRange)
    ensures SliceNdShape([8], [Some(0)], [Some(5)]) == Ok([5])
    ensures SliceNdShape([8], [Some(0), Some(0)], [Some(5)]) == Err(AssertionFailed)
  {
    assert ExtentsMatchFrom([8], [Some(4)], 0) == Ok(false);
    assert ExtentsMatchFrom([8], [Some(9)], 0) == Ok(false);
    assert ExtentsMatchFrom([8], [Some(2)], 0) == Ok(false);
    assert ExtentsMatchFrom([8], [Some(5)], 0) == Ok(false);
    assert [8][0 := 5] == [5];
    assert SliceDim([8], 0, Some(0), Some(5)) == Ok([5]);
    assert SlicedFrom([5], [Some(0)], [Some(5)], 1) == Ok([5]);
  }

  // ---------------------------------------------------------------------
  // unpad

  /** `[0] * len(orig_shape)`. */
  function ZeroStarts(n: nat): (starts: seq<Option<int>>)
    ensures |starts| == n && forall j :: 0 <= j < n ==> starts[j] == Some(0)
  {
    seq(n, _ => Some(0))
  }

  /** `list(orig_shape)`: the logical extents as slice ends. */
  function LogicalEnds(orig: Shape): (ends: seq<Option<int>>)
    ensures |ends| == |orig| && forall j :: 0 <= j < |orig| ==> ends[j] == Some(orig[j].size)
  {
    seq(|orig|, i requires 0 <= i < |orig| => Some(orig[i].size))
  }

  /** The shape `unpad` returns: the sentinel is refused, otherwise the
      buffer is sliced from 0 to each logical extent. */
  function UnpadShape(tensor: seq<nat>, orig: Shape): Result<seq<nat>> {
    if INVALID_ID in Sizes(orig) then Err(UnresolvedShape)
    else SliceNdShape(tensor, ZeroStarts(|orig|), LogicalEnds(orig))
  }

  /** The logical shape fits the buffer: no longer than its rank, and each
      extent either equals the buffer's or is positive and no larger. */
  predicate FitsInside(tensor: seq<nat>, orig: Shape) {
    && |orig| <= |tensor|
    && forall d :: 0 <= d < |orig| ==> orig[d].size == tensor[d] || 0 < orig[d].size <= tensor[d]
  }

  /** Unpadding succeeds exactly when the logical shape holds no sentinel
      and fits the buffer; the result then has the logical extents,
      followed by the buffer's extents beyond the logical rank. */
  lemma UnpadMeaning(tensor: seq<nat>, orig: Shape)
    ensures UnpadShape(tensor, orig).Ok? <==> INVALID_ID !in Sizes(orig) && FitsInside(tensor, orig)
    ensures UnpadShape(tensor, orig).Ok? ==>
      && |UnpadShape(tensor, orig).value| == |tensor|
      && (forall d :: 0 <= d < |orig| ==> UnpadShape(tensor, orig).value[d] == orig[d].size)
      && (forall d :: |orig| <= d < |tensor| ==> UnpadShape(tensor, orig).value[d] == tensor[d])
  {
    if INVALID_ID !in Sizes(orig) {
      var starts := ZeroStarts(|orig|);
      var ends := LogicalEnds(orig);
      var m := ExtentsMatchFrom(tensor, ends, 0);
      ExtentsMatchMeaning(tensor, ends, 0);
      if m.Err? {
        assert |tensor| < |orig|;
      } else if m.value {
        ExtentsMatchAllBack(tensor, ends, 0);
        assert UnpadShape(tensor, orig) == Ok(tensor);
      } else {
        SlicedFromMeaning(tensor, starts, ends, 0);
        assert UnpadShape(tensor, orig) == SlicedFrom(tensor, starts, ends, 0);
        if SlicedFrom(tensor, starts, ends, 0).Ok? && |orig| > 0 {
          var last := |orig| - 1;
          assert starts[last].Some? && ends[last].Some?;
        }
      }
    }
  }

  /** The extents check fails with IndexError only when a given end lies
      beyond the rank; when it answers true every given end is inside the
      rank. */
  lemma {:induction false} ExtentsMatchMeaning(shape: seq<nat>, ends: seq<Option<int>>, k: nat)
    requires forall j :: k <= j < |ends| ==> ends[j].Some?
    ensures ExtentsMatchFrom(shape, ends, k).Err? ==> |shape| < |ends|
    ensures ExtentsMatchFrom(shape, ends, k) == Ok(true) ==> |ends| <= |shape| || k >= |ends|
    decreases |ends| - k
  {
    if k < |ends| && k < |shape| && shape[k] == ends[k].value {
      ExtentsMatchMeaning(shape, ends, k + 1);
    }
  }

  lemma {:induction false} ExtentsMatchAllBack(shape: seq<nat>, ends: seq<Option<int>>, k: nat)
    requires ExtentsMatchFrom(shape, ends, k) == Ok(true)
    ensures forall j :: k <= j < |ends| && ends[j].Some? ==> j < |shape| && ends[j].value == shape[j]
    decreases |ends| - k
  {
    if k < |ends| {
      ExtentsMatchAllBack(shape, ends, k + 1);
    }
  }

  /** A multiple of `m` below `m` is zero. */
  lemma ZeroBelowMultiple(x: nat, m: int)
    requires m >= 1 && x < m && x % m == 0
    ensures x == 0
  {
  }

  /** Unpadding refuses a logical shape that holds the sentinel. */
  lemma UnpadRefusesSentinel(tensor: seq<nat>, orig: Shape, d: nat)
    requires d < |orig| && orig[d].size == INVALID_ID
    ensures UnpadShape(tensor, orig) == Err(UnresolvedShape)
  {
    assert Sizes(orig)[d] == INVALID_ID;
  }

  /** Wrapping a buffer with multipliers and unpadding it gives back the
      buffer's own shape. */
  lemma UnpadAfterWrap(tensor: seq<nat>, ms: seq<int>)
    requires ValidMultipliers(ms) && |tensor| <= |ms|
    ensures UnpadShape(PaddedShape(tensor, ms), PaddedDims(tensor, ms)) == Ok(tensor)
  {
    var padded := PaddedShape(tensor, ms);
    var orig := PaddedDims(tensor, ms);
    forall d | 0 <= d < |orig| ensures orig[d].size == padded[d] || 0 < orig[d].size <= padded[d] {
      PaddingBounds(tensor, ms, d);
      if tensor[d] == 0 {
        ZeroBelowMultiple(padded[d], ms[d]);
      }
    }
    assert Sizes(orig) == tensor;
    UnpadMeaning(padded, orig);
    var r := UnpadShape(padded, orig).value;
    assert r == tensor;
  }

  // ---------------------------------------------------------------------
  // The wrapper

  /** A padded tensor: the buffer it holds (`tensor`), the wrapper's
      declared shape and strides, the multipliers, the logical shape and the
      fill value used for padding. */
  class PaddedTensor {
    var tensorShape: seq<int>
    var shape: seq<nat>
    var strides: seq<int>
    var multipliers: seq<int>
    var origShape: Shape
    var neutralElement: int

    /** `__new__` then `__init__`: the declared shape is the padded shape;
        the logical shape is the given one or the flagged shape of the
        buffer; the buffer is padded on the high side when its shape differs
        from the declared one. */
    constructor (tensor: seq<nat>, multipliers: seq<int>, origShape: Option<Shape>, neutralElement: int)
      requires ValidMultipliers(multipliers)
      requires origShape.Some? || |tensor| <= |multipliers|
      ensures this.shape == PaddedShape(tensor, multipliers)
      ensures |this.strides| == |this.shape|
      ensures forall i :: 0 <= i < |this.shape| ==> this.strides[i] == Prod(this.shape[i + 1..])
      ensures this.multipliers == multipliers
      ensures this.origShape == if origShape.Some? then origShape.value else PaddedDims(tensor, multipliers)
      ensures this.neutralElement == neutralElement
      ensures this.tensorShape == this.shape
    {
      var padded := GetPaddedShape(tensor, multipliers);
      var st := GetStrides(padded);
      shape := padded;
      strides := st;
      this.multipliers := multipliers;
      if origShape.None? {
        var dims := CreatePaddedDims(tensor, multipliers);
        this.origShape := dims.value;
      } else {
        this.origShape := origShape.value;
      }
      this.neutralElement := neutralElement;
      if tensor != padded {
        var pad := GetPad(tensor, multipliers);
        PadReachesPaddedShape(tensor, multipliers);
        tensorShape := ConstantPadShape(tensor, pad);
      } else {
        tensorShape := tensor;
      }
    }

    /** unpad: the buffer sliced down to the logical extents. */
    method Unpad() returns (r: Result<seq<nat>>)
      requires forall i :: 0 <= i < |tensorShape| ==> tensorShape[i] >= 0
      ensures r == UnpadShape(Naturals(tensorShape), origShape)
    {
      var physical := Naturals(tensorShape);
      if INVALID_ID in Sizes(origShape) {
        return Err(UnresolvedShape);
      }
      r := SliceNd(physical, ZeroStarts(|origShape|), LogicalEnds(origShape));
    }
  }

  /** A sequence of non-negative integers as naturals. */
  function Naturals(xs: seq<int>): (ns: seq<nat>)
    requires forall i :: 0 <= i < |xs| ==> xs[i] >= 0
    ensures ns == xs
  {
    seq(|xs|, i requires 0 <= i < |xs| => xs[i] as nat)
  }

  /** `PaddedTensor(tensor, multipliers, orig_shape)`: without a logical
      shape, a buffer of higher rank than the multiplier list makes
      create_padded_dims raise IndexError. */
  method Wrap(tensor: seq<nat>, multipliers: seq<int>, origShape: Option<Shape>, neutralElement: int)
    returns (r: Result<PaddedTensor>)
    requires ValidMultipliers(multipliers)
    ensures r.Ok? <==> origShape.Some? || |tensor| <= |multipliers|
    ensures r.Err? ==> r.error == IndexOutOfRange
    ensures r.Ok? ==> fresh(r.value)
    ensures r.Ok? ==> r.value.shape == r.value.tensorShape == PaddedShape(tensor, multipliers)
    ensures r.Ok? ==> r.value.origShape == if origShape.Some? then origShape.value else PaddedDims(tensor, multipliers)
  {
    if origShape.None? && |tensor| > |multipliers| {
      return Err(IndexOutOfRange);
    }
    var t := new PaddedTensor(tensor, multipliers, origShape, neutralElement);
    r := Ok(t);
  }
}
