/** The shape-inference rules: one per registered op class, each mapping the
    operands of a call (after plain tensors have been wrapped) to the logical
    shapes of its outputs. */
module Rules {
  import opened Base
  import opened Dimensions
  import opened ShapeAlgebra
  import opened ViewRule

  /** An operand of a dispatched call. A wrapped tensor has a physical
      (buffer) shape and a logical shape; a plain tensor only a physical one. */
  datatype Operand =
    | Wrapped(physical: seq<nat>, logical: Shape)
    | PlainTensor(physical: seq<nat>)
    | IntArg(n: int)
    | IntsArg(ns: seq<int>)
    | ListArg(items: seq<Operand>)
    | NoneArg
    | OtherArg

  /** One tag per registered op class. */
  datatype Rule =
    | OnesLike | View | Unsqueeze | Polar | Transpose | Expand
    | ElementwiseUnary | ElementwiseBinary | AddMm | Matmul | Bmm
    | ScaledDotProductAttention | Index | Select | IndexPut
    | SplitWithSizes | Stack | Detach | Embedding | NoOp

  // ---------------------------------------------------------------------
  // Reading operands

  /** `args[i]` */
  function ArgAt(args: seq<Operand>, i: nat): Result<Operand> {
    if i < |args| then Ok(args[i]) else Err(IndexOutOfRange)
  }

  function IntOf(o: Operand): Result<int> {
    if o.IntArg? then Ok(o.n) else Err(MalformedArgument)
  }

  function IntsOf(o: Operand): Result<seq<int>> {
    if o.IntsArg? then Ok(o.ns) else Err(MalformedArgument)
  }

  function ItemsOf(o: Operand): Result<seq<Operand>> {
    if o.ListArg? then Ok(o.items) else Err(MalformedArgument)
  }

  /** `x.orig_shape` */
  function LogicalOf(o: Operand): Result<Shape> {
    if o.Wrapped? then Ok(o.logical) else Err(MissingAttribute)
  }

  /** `x.shape` */
  function PhysicalOf(o: Operand): Result<seq<nat>> {
    if o.Wrapped? || o.PlainTensor? then Ok(o.physical) else Err(MissingAttribute)
  }

  /** `input_shapes[0]`: the logical shape of the first operand. */
  function FirstShape(args: seq<Operand>): Result<Shape> {
    var a :- ArgAt(args, 0);
    if a.Wrapped? then Ok(a.logical) else Err(MalformedArgument)
  }

  // ---------------------------------------------------------------------
  // Axis rules

  /** UnsqueezeOp: a unit extent inserted at the axis, counted over
      `rank + 1` positions when negative. */
  function UnsqueezeShape(s: Shape, dim: int): Shape {
    var d := NormalizeAxis(dim, |s| + 1);
    Take(s, d) + [Unflagged(1)] + Drop(s, d)
  }

  /** TransposeOp: both axes are normalised once, then read and written
      with Python indexing, so a still negative axis counts from the end. */
  function TransposeShape(s: Shape, dim0: int, dim1: int): Result<Shape> {
    var d0, d1 := NormalizeAxis(dim0, |s|), NormalizeAxis(dim1, |s|);
    match (PyIndex(d1, |s|), PyIndex(d0, |s|))
    case (Some(p1), Some(p0)) => Ok(s[p0 := s[p1]][p1 := s[p0]])
    case _ => Err(IndexOutOfRange)
  }

  /** SelectOp: the axis is dropped; a negative `index` reads the axis's
      extent (which can raise) but does not affect the result. */
  function SelectShape(s: Shape, dim: int, index: int): Result<Shape> {
    var d := NormalizeAxis(dim, |s|);
    var extent :- if index < 0 then PyAt(s, d) else Ok(Unflagged(0));
    Ok(Take(s, d) + Drop(s, d + 1))
  }

  /** SplitWithSizesOp: one shape per section, the axis replaced by the
      section's extent. */
  function SplitShapes(s: Shape, sections: seq<int>, dim: int): (r: seq<Shape>)
    ensures |r| == |sections|
  {
    var d := NormalizeAxis(dim, |s|);
    seq(|sections|, i requires 0 <= i < |sections| => Take(s, d) + [Unflagged(sections[i])] + Drop(s, d + 1))
  }

  /** StackOp: the first input's shape with the number of inputs inserted
      at the axis. */
  function StackShape(first: Shape, count: nat, dim: int): Shape {
    var d := NormalizeAxis(dim, |first| + 1);
    Take(first, d) + [Unflagged(count)] + Drop(first, d)
  }

  // ---------------------------------------------------------------------
  // Broadcasting

  /** Python's `max(a, b)`: the first argument unless the second is larger. */
  function LargerDim(a: Dimension, b: Dimension): (m: Dimension)
    ensures m == a || m == b
    ensures m.size >= a.size && m.size >= b.size
    ensures m.size == a.size ==> m == a
  {
    if b.size > a.size then b else a
  }

  /** The dimension `idx` places from the end, 1 beyond the front. */
  function FromEnd(s: Shape, idx: nat): Dimension {
    if idx < |s| then Back(s, idx) else Unflagged(1)
  }

  /** The broadcast of two shapes, aligned from the trailing end. */
  function BroadcastShape(lhs: Shape, rhs: Shape): (r: Shape)
    ensures |r| == if |lhs| >= |rhs| then |lhs| else |rhs|
  {
    var n := if |lhs| >= |rhs| then |lhs| else |rhs|;
    seq(n, i requires 0 <= i < n => LargerDim(FromEnd(lhs, n - 1 - i), FromEnd(rhs, n - 1 - i)))
  }

  /** ElementwiseBinaryOp.infer_shapes: the trailing-aligned loop, then the
      reversal. */
  method Broadcast(lhs: Shape, rhs: Shape) returns (r: Shape)
    ensures r == BroadcastShape(lhs, rhs)
  {
    var n := if |lhs| >= |rhs| then |lhs| else |rhs|;
    var newShape: Shape := [];
    for idx := 0 to n
      invariant |newShape| == idx
      invariant forall k :: 0 <= k < idx ==> newShape[k] == LargerDim(FromEnd(lhs, k), FromEnd(rhs, k))
    {
      var lhsDim := if idx < |lhs| then lhs[|lhs| - idx - 1] else Unflagged(1);
      var rhsDim := if idx < |rhs| then rhs[|rhs| - idx - 1] else Unflagged(1);
      newShape := newShape + [LargerDim(lhsDim, rhsDim)];
    }
    r := seq(n, i requires 0 <= i < n => newShape[n - 1 - i]);
  }

  /** An operand that is not a wrapped tensor broadcasts as shape `[1]`. */
  function BroadcastOperand(o: Operand): Shape {
    if o.Wrapped? then o.logical else [Unflagged(1)]
  }

  // ---------------------------------------------------------------------
  // Matrix products

  /** BmmOp: both shapes unpack into three extents, batches and inner
      extents must agree. */
  function BmmShape(a: Shape, b: Shape): Result<Shape> {
    if |a| != 3 || |b| != 3 then Err(UnpackMismatch)
    else if a[0].size != b[0].size || a[2].size != b[1].size then Err(AssertionFailed)
    else Ok([a[0], a[1], b[2]])
  }

  // ---------------------------------------------------------------------
  // Indexing

  /** One step of IndexOp's loop: position `dimIdx` takes the first logical
      extent of a wrapped index tensor; None leaves it alone. */
  function IndexStep(s: Shape, dimIdx: nat, dim: Operand): Result<Shape> {
    match dim
    case NoneArg => Ok(s)
    case Wrapped(_, l) =>
      var extent :- PyAt(l, 0);
      if dimIdx < |s| then Ok(s[dimIdx := extent]) else Err(IndexOutOfRange)
    case PlainTensor(_) => Err(MissingAttribute)
    case _ => Err(UnsupportedCase)
  }

  function IndexFrom(s: Shape, dims: seq<Operand>, k: nat): Result<Shape>
    decreases |dims| - k
  {
    if k >= |dims| then Ok(s)
    else
      var next :- IndexStep(s, k, dims[k]);
      IndexFrom(next, dims, k + 1)
  }

  function IndexShape(s: Shape, dims: seq<Operand>): Result<Shape> {
    IndexFrom(s, dims, 0)
  }

  /** IndexOp.infer_shapes over the list of index operands. */
  method IndexInfer(s: Shape, dims: seq<Operand>) returns (r: Result<Shape>)
    ensures r == IndexShape(s, dims)
  {
    var mod := s;
    for dimIdx := 0 to |dims|
      invariant IndexShape(s, dims) == IndexFrom(mod, dims, dimIdx)
    {
      match dims[dimIdx] {
        case NoneArg =>
        case Wrapped(_, l) =>
          if |l| == 0 || dimIdx >= |mod| {
            return Err(IndexOutOfRange);
          }
          mod := mod[dimIdx := l[0]];
        case PlainTensor(_) =>
          return Err(MissingAttribute);
        case _ =>
          return Err(UnsupportedCase);
      }
    }
    r := Ok(mod);
  }

  // ---------------------------------------------------------------------
  // The `linear` rule of __torch_function__

  /** As written: strip the common suffix of the input's logical shape and
      the weight's physical shape with the unbounded scan, which wraps
      through negative indices and can raise IndexError, and concatenate
      what remains. */
  function LinearShapeAsWritten(x: Shape, weight: seq<nat>): Result<Shape> {
    var stripped :- StripCommonSuffixAsWritten(x, Plain(weight));
    Ok(stripped.0 + stripped.1)
  }

  /** The shape `linear` produces: the input's leading dimensions followed by
      the weight's output features. */
  function LinearShape(x: Shape, weight: seq<nat>): Result<Shape> {
    if |x| == 0 || |weight| == 0 then Err(IndexOutOfRange)
    else Ok(x[..|x| - 1] + [Unflagged(weight[0])])
  }

  /** The input's shape as the corrected rule reads it: `orig_shape` of a
      padded tensor, the plain shape (unflagged) of a plain tensor. */
  function InputShapeOf(o: Operand): Result<Shape> {
    if o.Wrapped? then Ok(o.logical)
    else if o.PlainTensor? then Ok(Plain(o.physical))
    else Err(MissingAttribute)
  }

  /** As written, over the call's arguments: `args[0].orig_shape` and
      `args[1].shape`, then the unbounded strip. An input that is not a
      padded tensor has no `orig_shape`. */
  function LinearOperandsAsWritten(args: seq<Operand>): Result<Shape> {
    var a0 :- ArgAt(args, 0);
    var x :- LogicalOf(a0);
    var a1 :- ArgAt(args, 1);
    var w :- PhysicalOf(a1);
    LinearShapeAsWritten(x, w)
  }

  /** The corrected rule over the call's arguments: a plain input counts
      with its own shape. */
  function LinearOperands(args: seq<Operand>): Result<Shape> {
    var a0 :- ArgAt(args, 0);
    var x :- InputShapeOf(a0);
    var a1 :- ArgAt(args, 1);
    var w :- PhysicalOf(a1);
    LinearShape(x, w)
  }

  // ---------------------------------------------------------------------
  // The rules

  /** `infer_shapes` of each op class. */
  function Infer(rule: Rule, args: seq<Operand>): Result<seq<Shape>> {
    match rule
    case OnesLike | Polar | ElementwiseUnary | IndexPut | Detach | NoOp =>
      var s :- FirstShape(args);
      Ok([s])
    case View =>
      var orig :- FirstShape(args);
      var a0 :- ArgAt(args, 0);
      var input :- PhysicalOf(a0);
      var a1 :- ArgAt(args, 1);
      var output :- IntsOf(a1);
      var r :- ViewShape(orig, input, output);
      Ok([r])
    case Unsqueeze =>
      var s :- FirstShape(args);
      var a1 :- ArgAt(args, 1);
      var dim :- IntOf(a1);
      Ok([UnsqueezeShape(s, dim)])
    case Transpose =>
      var s :- FirstShape(args);
      var a1 :- ArgAt(args, 1);
      var a2 :- ArgAt(args, 2);
      var dim0 :- IntOf(a1);
      var dim1 :- IntOf(a2);
      var r :- TransposeShape(s, dim0, dim1);
      Ok([r])
    case Expand =>
      var s :- FirstShape(args);
      var a1 :- ArgAt(args, 1);
      var shape :- IntsOf(a1);
      Ok([Plain(shape)])
    case ElementwiseBinary =>
      var a0 :- ArgAt(args, 0);
      var a1 :- ArgAt(args, 1);
      Ok([BroadcastShape(BroadcastOperand(a0), BroadcastOperand(a1))])
    case AddMm | Matmul =>
      var a0 :- ArgAt(args, 0);
      var l0 :- LogicalOf(a0);
      var rows :- PyAt(l0, 0);
      var a1 :- ArgAt(args, 1);
      var l1 :- LogicalOf(a1);
      var cols :- PyAt(l1, 1);
      Ok([[rows, cols]])
    case Bmm =>
      var a0 :- ArgAt(args, 0);
      var l0 :- LogicalOf(a0);
      var _ :- if |l0| == 3 then Ok(l0) else Err(UnpackMismatch);
      var a1 :- ArgAt(args, 1);
      var l1 :- LogicalOf(a1);
      var r :- BmmShape(l0, l1);
      Ok([r])
    case ScaledDotProductAttention =>
      var s :- FirstShape(args);
      Ok([s, Take(s, -1)])
    case Index =>
      var s :- FirstShape(args);
      var a1 :- ArgAt(args, 1);
      var dims :- ItemsOf(a1);
      var r :- IndexShape(s, dims);
      Ok([r])
    case Select =>
      var a0 :- ArgAt(args, 0);
      var s :- LogicalOf(a0);
      var a1 :- ArgAt(args, 1);
      var a2 :- ArgAt(args, 2);
      var dim :- IntOf(a1);
      var index :- IntOf(a2);
      var r :- SelectShape(s, dim, index);
      Ok([r])
    case SplitWithSizes =>
      var s :- FirstShape(args);
      var a1 :- ArgAt(args, 1);
      var a2 :- ArgAt(args, 2);
      var sections :- IntsOf(a1);
      var dim :- IntOf(a2);
      Ok(SplitShapes(s, sections, dim))
    case Stack =>
      var a0 :- ArgAt(args, 0);
      var a1 :- ArgAt(args, 1);
      var dim :- IntOf(a1);
      var items :- ItemsOf(a0);
      var first :- if |items| > 0 then Ok(items[0]) else Err(IndexOutOfRange);
      var f :- LogicalOf(first);
      Ok([StackShape(f, |items|, dim)])
    case Embedding =>
      var weight :- FirstShape(args);
      var a1 :- ArgAt(args, 1);
      var indices :- LogicalOf(a1);
      Ok([indices + Drop(weight, 1)])
  }

  /** PaddedOp.infer_shapes, dispatched on the rule; the view, broadcast and
      index rules run their loops. */
  method InferShapes(rule: Rule, args: seq<Operand>) returns (r: Result<seq<Shape>>)
    ensures r == Infer(rule, args)
  {
    match rule {
      case View =>
        if |args| < 2 || !args[0].Wrapped? {
          return Infer(rule, args);
        }
        if !args[1].IntsArg? {
          return Err(MalformedArgument);
        }
        var v := ViewInfer(args[0].logical, args[0].physical, args[1].ns);
        if v.Err? {
          return Err(v.error);
        }
        r := Ok([v.value]);
      case ElementwiseBinary =>
        if |args| < 2 {
          return Err(IndexOutOfRange);
        }
        var b := Broadcast(BroadcastOperand(args[0]), BroadcastOperand(args[1]));
        r := Ok([b]);
      case Index =>
        if |args| < 2 || !args[0].Wrapped? || !args[1].ListArg? {
          return Infer(rule, args);
        }
        var x := IndexInfer(args[0].logical, args[1].items);
        if x.Err? {
          return Err(x.error);
        }
        r := Ok([x.value]);
      case _ =>
        r := Infer(rule, args);
    }
  }

  // ---------------------------------------------------------------------
  // Properties of the axis rules

  /** Unsqueezing at a valid axis inserts a unit extent there, and selecting
      that axis again gives back the original shape. */
  lemma UnsqueezeSelectInverse(s: Shape, dim: int)
    requires -(|s| + 1) <= dim <= |s|
    ensures var d := NormalizeAxis(dim, |s| + 1);
      && 0 <= d <= |s|
      && |UnsqueezeShape(s, dim)| == |s| + 1
      && UnsqueezeShape(s, dim)[d] == Unflagged(1)
      && SelectShape(UnsqueezeShape(s, dim), d, 0) == Ok(s)
  {
    var d := NormalizeAxis(dim, |s| + 1);
    var u := UnsqueezeShape(s, dim);
    assert u == s[..d] + [Unflagged(1)] + s[d..];
    assert u[..d] == s[..d] && u[d + 1..] == s[d..];
    assert s[..d] + s[d..] == s;
  }

  /** Transposing swaps the two normalised positions and nothing else; it
      succeeds exactly when each axis lies in `[-2 * rank, rank)`, because a
      still negative axis is read from the end; doing it twice restores the
      shape. */
  lemma TransposeSwaps(s: Shape, dim0: int, dim1: int)
    ensures TransposeShape(s, dim0, dim1).Ok? <==> -2 * |s| <= dim0 < |s| && -2 * |s| <= dim1 < |s|
    ensures TransposeShape(s, dim0, dim1).Ok? ==>
      var p0, p1 := PyIndex(NormalizeAxis(dim0, |s|), |s|).value, PyIndex(NormalizeAxis(dim1, |s|), |s|).value;
      var r := TransposeShape(s, dim0, dim1).value;
      && |r| == |s|
      && r[p0] == s[p1] && r[p1] == s[p0]
      && (forall k :: 0 <= k < |s| && k != p0 && k != p1 ==> r[k] == s[k])
      && TransposeShape(r, dim0, dim1) == Ok(s)
  {
    if TransposeShape(s, dim0, dim1).Ok? {
      var p0, p1 := PyIndex(NormalizeAxis(dim0, |s|), |s|).value, PyIndex(NormalizeAxis(dim1, |s|), |s|).value;
      var r := TransposeShape(s, dim0, dim1).value;
      var back := r[p0 := r[p1]][p1 := r[p0]];
      assert forall k :: 0 <= k < |s| ==> back[k] == s[k];
      assert back == s;
      assert TransposeShape(r, dim0, dim1) == Ok(back);
    }
  }

  /** Selecting a valid axis removes exactly that dimension. */
  lemma SelectRemovesAxis(s: Shape, dim: int, index: int)
    requires -|s| <= dim < |s|
    ensures SelectShape(s, dim, index).Ok?
    ensures var d := NormalizeAxis(dim, |s|);
      var r := SelectShape(s, dim, index).value;
      && |r| == |s| - 1
      && (forall k :: 0 <= k < d ==> r[k] == s[k])
      && (forall k :: d <= k < |r| ==> r[k] == s[k + 1])
  {
  }

  /** Splitting yields one shape per section; each keeps the rank and every
      dimension except the split axis, which takes the section's extent. */
  lemma SplitChangesOnlyAxis(s: Shape, sections: seq<int>, dim: int, i: nat)
    requires -|s| <= dim < |s| && i < |sections|
    ensures var d := NormalizeAxis(dim, |s|);
      var r := SplitShapes(s, sections, dim)[i];
      && |r| == |s|
      && r[d] == Unflagged(sections[i])
      && (forall k :: 0 <= k < |s| && k != d ==> r[k] == s[k])
  {
  }

  /** Stacking `count` inputs adds one axis holding `count`, and removing it
      gives back the first input's shape. */
  lemma StackInsertsCount(first: Shape, count: nat, dim: int)
    requires -(|first| + 1) <= dim <= |first|
    ensures var d := NormalizeAxis(dim, |first| + 1);
      var r := StackShape(first, count, dim);
      && |r| == |first| + 1
      && r[d] == Unflagged(count)
      && r[..d] + r[d + 1..] == first
  {
    var d := NormalizeAxis(dim, |first| + 1);
    var r := StackShape(first, count, dim);
    assert r == first[..d] + [Unflagged(count)] + first[d..];
    assert r[..d] == first[..d] && r[d + 1..] == first[d..];
    assert first[..d] + first[d..] == first;
  }

  // ---------------------------------------------------------------------
  // Properties of broadcasting

  /** Each dimension of the broadcast, counted from the end, is the larger
      of the operands' dimensions there, a missing one counting as 1. */
  lemma BroadcastAligned(lhs: Shape, rhs: Shape, k: nat)
    requires k < |BroadcastShape(lhs, rhs)|
    ensures Back(BroadcastShape(lhs, rhs), k) == LargerDim(FromEnd(lhs, k), FromEnd(rhs, k))
  {
  }

  /** Sizes that are equal or 1 at every aligned position (the usual
      broadcasting condition, with positive extents): the broadcast keeps the
      extent that is not 1 at every position. */
  lemma BroadcastConventional(lhs: Shape, rhs: Shape, k: nat)
    requires forall i :: 0 <= i < |lhs| ==> lhs[i].size >= 1
    requires forall i :: 0 <= i < |rhs| ==> rhs[i].size >= 1
    requires FromEnd(lhs, k).size == FromEnd(rhs, k).size || FromEnd(lhs, k).size == 1 || FromEnd(rhs, k).size == 1
    requires k < |BroadcastShape(lhs, rhs)|
    ensures Back(BroadcastShape(lhs, rhs), k).size ==
      (if FromEnd(lhs, k).size == 1 then FromEnd(rhs, k).size else FromEnd(lhs, k).size)
  {
    BroadcastAligned(lhs, rhs, k);
    var a, b := FromEnd(lhs, k), FromEnd(rhs, k);
    if k < |lhs| {
      assert a == lhs[|lhs| - 1 - k];
    }
    if k < |rhs| {
      assert b == rhs[|rhs| - 1 - k];
    }
    assert a.size >= 1 && b.size >= 1;
  }

  /** `(3, 1) + (1, 4)` broadcasts to `(3, 4)`; `(5,) + (3, 5)` to `(3, 5)`;
      a scalar operand counts as `(1,)`. */
  lemma BroadcastExamples()
    ensures BroadcastShape(Plain([3, 1]), Plain([1, 4])) == Plain([3, 4])
    ensures BroadcastShape(Plain([5]), Plain([3, 5])) == Plain([3, 5])
  {
    assert BroadcastShape(Plain([3, 1]), Plain([1, 4]))[0] == Unflagged(3);
    assert BroadcastShape(Plain([5]), Plain([3, 5]))[0] == Unflagged(3);
  }

  /** An operand that is not a padded tensor (here the scalar 2) counts as
      `(1,)`. */
  lemma BroadcastScalarOperand()
    ensures Infer(ElementwiseBinary, [Wrapped([8, 8], Plain([6, 7])), IntArg(2)]) == Ok([Plain([6, 7])])
  {
    assert BroadcastOperand(IntArg(2)) == [Unflagged(1)];
    assert BroadcastShape(Plain([6, 7]), [Unflagged(1)]) == Plain([6, 7]);
  }


  // ---------------------------------------------------------------------
  // Properties of the matrix products

  /** Batched products succeed exactly when both shapes have rank 3 and
      agree on batch and inner extents; the result is `[b, n, p]`. */
  lemma BmmAgreement(a: Shape, b: Shape)
    ensures BmmShape(a, b).Ok? <==>
      |a| == 3 && |b| == 3 && a[0].size == b[0].size && a[2].size == b[1].size
    ensures BmmShape(a, b).Ok? ==> Sizes(BmmShape(a, b).value) == [a[0].size, a[1].size, b[2].size]
    ensures |a| == 3 && |b| == 3 && (a[0].size != b[0].size || a[2].size != b[1].size) ==>
      BmmShape(a, b) == Err(AssertionFailed)
  {
  }

  /** `(5, 2, 3) @ (5, 3, 4)` is `(5, 2, 4)`; `(2, 3) @ (3, 4)` is `(2, 4)`. */
  lemma MatrixProductExamples()
    ensures Infer(Bmm, [Wrapped([5, 2, 3], Plain([5, 2, 3])), Wrapped([5, 3, 4], Plain([5, 3, 4]))]) == Ok([Plain([5, 2, 4])])
    ensures Infer(Bmm, [Wrapped([5, 2, 3], Plain([5, 2, 3])), Wrapped([4, 3, 4], Plain([4, 3, 4]))]) == Err(AssertionFailed)
  {
    assert Plain([5, 2, 3]) == [Unflagged(5), Unflagged(2), Unflagged(3)];
    assert Plain([5, 3, 4]) == [Unflagged(5), Unflagged(3), Unflagged(4)];
    assert Plain([4, 3, 4]) == [Unflagged(4), Unflagged(3), Unflagged(4)];
    assert Plain([5, 2, 4]) == [Unflagged(5), Unflagged(2), Unflagged(4)];
  }

  /** MatmulOp: the rows are the first operand's first logical dimension
      and the columns the second operand's second one; a missing dimension
      raises IndexError. */
  lemma MatmulTakesOuter(a: Shape, b: Shape, pa: seq<nat>, pb: seq<nat>, rest: seq<Operand>)
    ensures |a| >= 1 && |b| >= 2 ==>
      Infer(Matmul, [Wrapped(pa, a), Wrapped(pb, b)] + rest) == Ok([[a[0], b[1]]])
    ensures |a| == 0 || |b| < 2 ==>
      Infer(Matmul, [Wrapped(pa, a), Wrapped(pb, b)] + rest) == Err(IndexOutOfRange)
  {
    var args := [Wrapped(pa, a), Wrapped(pb, b)] + rest;
    assert args[0] == Wrapped(pa, a) && args[1] == Wrapped(pb, b);
  }

  /** `mm` of a `(2, 3)` and a `(3, 4)` matrix is `(2, 4)`. */
  lemma MatmulExample()
    ensures Infer(Matmul, [Wrapped([2, 3], Plain([2, 3])), Wrapped([3, 4], Plain([3, 4]))]) == Ok([Plain([2, 4])])
  {
    assert Plain([2, 3]) == [Unflagged(2), Unflagged(3)];
    assert Plain([3, 4]) == [Unflagged(3), Unflagged(4)];
    assert Plain([2, 4]) == [Unflagged(2), Unflagged(4)];
  }


  /** AddMmOp as written: the first operand is the bias, so the rows come
      from the bias and the columns from the first matrix, not from the
      second. */
  lemma AddMmTakesBiasRows(bias: Shape, mat1: Shape, mat2: Shape, pb: seq<nat>, p1: seq<nat>, p2: seq<nat>)
    requires |bias| >= 1 && |mat1| >= 2
    ensures Infer(AddMm, [Wrapped(pb, bias), Wrapped(p1, mat1), Wrapped(p2, mat2)]) == Ok([[bias[0], mat1[1]]])
  {
  }

  // ---------------------------------------------------------------------
  // Properties of the remaining rules

  /** Attention gives two outputs: the query's shape and that shape without
      its last dimension. */
  lemma AttentionShapes(q: Shape, p: seq<nat>, rest: seq<Operand>)
    requires |q| >= 1
    ensures Infer(ScaledDotProductAttention, [Wrapped(p, q)] + rest) == Ok([q, q[..|q| - 1]])
  {
  }

  /** Embedding: the indices' shape followed by the weight's dimensions
      after the first. */
  lemma EmbeddingRank(weight: Shape, pw: seq<nat>, indices: Shape, pi: seq<nat>)
    requires |weight| >= 1
    ensures Infer(Embedding, [Wrapped(pw, weight), Wrapped(pi, indices)]) == Ok([indices + weight[1..]])
  {
  }

  /** ExpandOp: the requested sizes, unflagged, whatever the input. */
  lemma ExpandTakesRequested(s: Shape, p: seq<nat>, shape: seq<int>, rest: seq<Operand>)
    ensures Infer(Expand, [Wrapped(p, s), IntsArg(shape)] + rest) == Ok([Plain(shape)])
    ensures Sizes(Plain(shape)) == shape
  {
    var args := [Wrapped(p, s), IntsArg(shape)] + rest;
    assert args[0] == Wrapped(p, s) && args[1] == IntsArg(shape);
  }

  /** The shape-preserving rules return the first operand's logical shape. */
  lemma PreservingRules(rule: Rule, s: Shape, p: seq<nat>, rest: seq<Operand>)
    requires rule in {OnesLike, Polar, ElementwiseUnary, IndexPut, Detach, NoOp}
    ensures Infer(rule, [Wrapped(p, s)] + rest) == Ok([s])
  {
  }

  /** Indexing keeps the rank; every position with a wrapped index tensor
      takes that tensor's first logical extent, every other keeps its
      dimension. It succeeds exactly when every index is None or a wrapped
      tensor of positive rank at a position inside the shape. */
  lemma {:induction false} IndexMeaning(s: Shape, dims: seq<Operand>, k: nat)
    requires k <= |dims|
    ensures IndexFrom(s, dims, k).Ok? <==>
      forall j :: k <= j < |dims| ==> dims[j].NoneArg? || (dims[j].Wrapped? && |dims[j].logical| > 0 && j < |s|)
    ensures IndexFrom(s, dims, k).Ok? ==>
      var r := IndexFrom(s, dims, k).value;
      && |r| == |s|
      && forall j :: 0 <= j < |s| ==>
           r[j] == if k <= j < |dims| && dims[j].Wrapped? then dims[j].logical[0] else s[j]
    decreases |dims| - k
  {
    if k < |dims| {
      var step := IndexStep(s, k, dims[k]);
      if step.Ok? {
        IndexMeaning(step.value, dims, k + 1);
      }
    }
  }

  /** For a weight `[out, in]` the scan of the linear rule can only stop
      after 0, 1, 2 or 3 matching positions: the fifth comparison reads
      `weight[-3]`. */
  lemma LinearScanEnds(x: Shape, outFeatures: nat, inFeatures: nat)
    requires |x| >= 1
    ensures SuffixScanAsWritten(x, Plain([outFeatures, inFeatures]), 4) == Err(IndexOutOfRange)
  {
  }

  /** The as-written linear rule gives the intended shape exactly when the
      input's last extent is the weight's input features and the extent
      read next (`x[-2]`, which is `x[0]` again for a 1-D input) differs
      from the output features. */
  lemma LinearAsWrittenAgrees(x: Shape, outFeatures: nat, inFeatures: nat)
    requires |x| >= 1
    ensures var prev := x[if |x| >= 2 then |x| - 2 else 0];
      (LinearShapeAsWritten(x, [outFeatures, inFeatures]) == LinearShape(x, [outFeatures, inFeatures]))
        <==> (x[|x| - 1].size == inFeatures && prev.size != outFeatures)
  {
    var n: int, w := |x|, Plain([outFeatures, inFeatures]);
    var prev := x[if n >= 2 then n - 2 else 0];
    var scan := SuffixScanAsWritten(x, w, 0);
    assert LinearShapeAsWritten(x, [outFeatures, inFeatures]) ==
      if scan.Ok? then Ok(Take(x, n - scan.value) + Take(w, (2 as int) - scan.value)) else Err(scan.error);
    if x[n - 1].size != inFeatures {
      assert scan == Ok(0);
      assert |Take(x, n) + Take(w, 2)| == n + 2;
    } else if prev.size != outFeatures {
      assert SuffixScanAsWritten(x, w, 1) == Ok(1);
      assert scan == Ok(1);
      assert Take(w, 1) == [Unflagged(outFeatures)];
    } else if n == 1 {
      assert SuffixScanAsWritten(x, w, 2) == Err(IndexOutOfRange);
      assert SuffixScanAsWritten(x, w, 1) == Err(IndexOutOfRange);
    } else {
      LinearScanEnds(x, outFeatures, inFeatures);
      var s3 := SuffixScanAsWritten(x, w, 3);
      assert s3.Ok? ==> s3.value == 3 && n >= 3;
      var s2 := SuffixScanAsWritten(x, w, 2);
      assert s2.Ok? ==> (s2.value == 2 || (s2.value == 3 && n >= 3));
      assert PyAt(x, n - 1) == Ok(x[n - 1]) && PyAt(w, 1) == Ok(Unflagged(inFeatures));
      assert PyAt(x, n - 2) == Ok(prev) && PyAt(w, 0) == Ok(Unflagged(outFeatures));
      assert SuffixScanAsWritten(x, w, 1) == s2;
      assert scan == s2;
      if scan.Ok? {
        assert |Take(x, n - scan.value) + Take(w, (2 as int) - scan.value)| == n - 2;
      }
    }
  }

  /** As written, a call whose input is not a padded tensor (only the
      weight is) raises AttributeError at `args[0].orig_shape`, as does a
      weight without `.shape`; these are the only AttributeErrors, and with
      both attributes present the result is the strip of the two shapes. */
  lemma LinearOperandsAsWrittenRaises(args: seq<Operand>)
    ensures LinearOperandsAsWritten(args) == Err(MissingAttribute) <==>
      ((|args| >= 1 && !args[0].Wrapped?) ||
       (|args| >= 2 && args[0].Wrapped? && !args[1].Wrapped? && !args[1].PlainTensor?))
    ensures |args| < 2 && (|args| == 0 || args[0].Wrapped?) ==>
      LinearOperandsAsWritten(args) == Err(IndexOutOfRange)
    ensures |args| >= 2 && args[0].Wrapped? && (args[1].Wrapped? || args[1].PlainTensor?) ==>
      LinearOperandsAsWritten(args) == LinearShapeAsWritten(args[0].logical, args[1].physical)
  {
    if |args| >= 2 && args[0].Wrapped? && (args[1].Wrapped? || args[1].PlainTensor?) {
      LinearStripFailsByIndex(args[0].logical, args[1].physical);
    }
  }

  /** The strip of lines 59-71 fails only with IndexError. */
  lemma LinearStripFailsByIndex(x: Shape, weight: seq<nat>)
    ensures LinearShapeAsWritten(x, weight).Err? ==>
      LinearShapeAsWritten(x, weight).error == IndexOutOfRange
  {
    if x != [] && weight != [] {
      SuffixScanFailsByIndex(x, Plain(weight), 0);
    }
  }

  lemma {:induction false} SuffixScanFailsByIndex(l1: Shape, l2: Shape, idx: nat)
    ensures SuffixScanAsWritten(l1, l2, idx).Err? ==>
      SuffixScanAsWritten(l1, l2, idx).error == IndexOutOfRange
    decreases 2 * |l1| - idx
  {
    var a := PyAt(l1, |l1| - idx - 1);
    var b := PyAt(l2, |l2| - idx - 1);
    if a.Ok? && b.Ok? && a.value.size == b.value.size {
      SuffixScanFailsByIndex(l1, l2, idx + 1);
    }
  }

  /** The corrected rule over arguments: a padded or plain input and a
      weight `[out, in]` give the input's leading dimensions and `out`;
      only an input or weight without a shape raises AttributeError. */
  lemma LinearOperandsMeaning(args: seq<Operand>, outFeatures: nat, inFeatures: nat)
    requires |args| >= 2 && (args[1].Wrapped? || args[1].PlainTensor?)
    requires args[1].physical == [outFeatures, inFeatures]
    ensures args[0].Wrapped? || args[0].PlainTensor? <==> LinearOperands(args) != Err(MissingAttribute)
    ensures args[0].Wrapped? && |args[0].logical| >= 1 ==>
      LinearOperands(args) == Ok(args[0].logical[..|args[0].logical| - 1] + [Unflagged(outFeatures)])
    ensures args[0].PlainTensor? && |args[0].physical| >= 1 ==>
      LinearOperands(args) == Ok(Plain(args[0].physical[..|args[0].physical| - 1] + [outFeatures]))
  {
    if args[0].PlainTensor? && |args[0].physical| >= 1 {
      var p := args[0].physical;
      assert Plain(p)[..|p| - 1] == Plain(p[..|p| - 1]);
      assert Plain(p[..|p| - 1]) + [Unflagged(outFeatures)] == Plain(p[..|p| - 1] + [outFeatures]);
    }
  }

  /** A plain 2-D input with a padded weight: AttributeError as written,
      `[3, 4]` corrected. */
  lemma LinearPlainInputExample()
    ensures var args := [PlainTensor([3, 8]), Wrapped([4, 8], Plain([4, 8]))];
      && LinearOperandsAsWritten(args) == Err(MissingAttribute)
      && LinearOperands(args) == Ok(Plain([3, 4]))
  {
    var args := [PlainTensor([3, 8]), Wrapped([4, 8], Plain([4, 8]))];
    LinearOperandsMeaning(args, 4, 8);
    assert [3, 8][..1] + [4] == [3, 4];
  }

  /** As written, a 1-D input whose extent is both feature counts, or a
      2-D input equal to the weight, runs the scan off the front of both
      lists: IndexError, where torch returns a result. */
  lemma LinearAsWrittenRaises(x: Shape, outFeatures: nat, inFeatures: nat)
    requires || (|x| == 1 && x[0].size == inFeatures == outFeatures)
             || (|x| == 2 && x[0].size == outFeatures && x[1].size == inFeatures)
    ensures LinearShapeAsWritten(x, [outFeatures, inFeatures]) == Err(IndexOutOfRange)
    ensures LinearShape(x, [outFeatures, inFeatures]).Ok?
  {
    var w := Plain([outFeatures, inFeatures]);
    assert w[0] == Unflagged(outFeatures) && w[1] == Unflagged(inFeatures);
    LinearScanEnds(x, outFeatures, inFeatures);
    if |x| == 1 {
      assert SuffixScanAsWritten(x, w, 2) == Err(IndexOutOfRange);
      assert PyAt(x, -1) == Ok(x[0]) && PyAt(w, 0) == Ok(Unflagged(outFeatures));
      assert SuffixScanAsWritten(x, w, 1) == Err(IndexOutOfRange);
      assert PyAt(x, 0) == Ok(x[0]) && PyAt(w, 1) == Ok(Unflagged(inFeatures));
      assert SuffixScanAsWritten(x, w, 0) == Err(IndexOutOfRange);
    } else {
      assert PyAt(x, -2) == Ok(x[0]) && PyAt(w, -2) == Ok(Unflagged(outFeatures));
      assert SuffixScanAsWritten(x, w, 3) == Err(IndexOutOfRange);
      assert PyAt(x, -1) == Ok(x[1]) && PyAt(w, -1) == Ok(Unflagged(inFeatures));
      assert SuffixScanAsWritten(x, w, 2) == Err(IndexOutOfRange);
      assert PyAt(x, 0) == Ok(x[0]) && PyAt(w, 0) == Ok(Unflagged(outFeatures));
      assert SuffixScanAsWritten(x, w, 1) == Err(IndexOutOfRange);
    }
  }

  /** As written, an input whose last two extents are the weight's
      `[out, in]` loses both: the rule returns the leading extents only,
      two fewer than the input's rank, where the intended shape keeps the
      rank. */
  lemma LinearAsWrittenOverStrips(x: Shape, outFeatures: nat, inFeatures: nat)
    requires |x| >= 3
    requires x[|x| - 1].size == inFeatures && x[|x| - 2].size == outFeatures
    requires x[|x| - 3].size != inFeatures
    ensures LinearShapeAsWritten(x, [outFeatures, inFeatures]) == Ok(x[..|x| - 2])
    ensures LinearShape(x, [outFeatures, inFeatures]) == Ok(x[..|x| - 2] + [x[|x| - 2], Unflagged(outFeatures)])
  {
    var n, w := |x|, Plain([outFeatures, inFeatures]);
    assert PyAt(x, n - 3) == Ok(x[n - 3]) && PyAt(w, -1) == Ok(Unflagged(inFeatures));
    assert SuffixScanAsWritten(x, w, 2) == Ok(2);
    assert PyAt(x, n - 2) == Ok(x[n - 2]) && PyAt(w, 0) == Ok(Unflagged(outFeatures));
    assert SuffixScanAsWritten(x, w, 1) == Ok(2);
    assert PyAt(x, n - 1) == Ok(x[n - 1]) && PyAt(w, 1) == Ok(Unflagged(inFeatures));
    assert SuffixScanAsWritten(x, w, 0) == Ok(2);
    assert StripCommonSuffixAsWritten(x, w) == Ok((Take(x, n - 2), Take(w, 0)));
    assert Take(w, 0) == [] && Take(x, n - 2) == x[..n - 2];
    assert LinearShapeAsWritten(x, [outFeatures, inFeatures]) == Ok(Take(x, n - 2) + Take(w, 0));
    assert x[..n - 2] + [] == x[..n - 2];
    assert x[..n - 1] == x[..n - 2] + [x[n - 2]];
    assert x[..n - 1] + [Unflagged(outFeatures)] == x[..n - 2] + [x[n - 2], Unflagged(outFeatures)];
  }

  /** `[2, 4, 8]` through a weight `[4, 8]`: as written the rule yields
      `[2]`; the intended shape is `[2, 4, 4]`. */
  lemma LinearOverStripExample()
    ensures LinearShapeAsWritten(Plain([2, 4, 8]), [4, 8]) == Ok(Plain([2]))
    ensures LinearShape(Plain([2, 4, 8]), [4, 8]) == Ok(Plain([2, 4, 4]))
  {
    var x := Plain([2, 4, 8]);
    LinearAsWrittenOverStrips(x, 4, 8);
    assert x[..1] == Plain([2]);
    assert x[..1] + [x[1], Unflagged(4)] == Plain([2, 4, 4]);
  }

  /** The linear rule keeps the input's leading dimensions and replaces the
      last one by the weight's output features. When the weight's input
      features match the last logical extent and the extent before it
      differs from the output features, the as-written rule agrees; a 1-D
      input with a square weight makes it raise instead. */
  lemma LinearReplacesLast(x: Shape, outFeatures: nat, inFeatures: nat)
    requires |x| >= 1 && x[|x| - 1].size == inFeatures
    requires |x| == 1 || x[|x| - 2].size != outFeatures
    ensures LinearShape(x, [outFeatures, inFeatures]).Ok?
    ensures var r := LinearShape(x, [outFeatures, inFeatures]).value;
      && |r| == |x|
      && r[..|x| - 1] == x[..|x| - 1]
      && r[|x| - 1] == Unflagged(outFeatures)
    ensures |x| >= 2 || inFeatures != outFeatures ==>
      LinearShapeAsWritten(x, [outFeatures, inFeatures]) == LinearShape(x, [outFeatures, inFeatures])
    ensures |x| == 1 && inFeatures == outFeatures ==>
      LinearShapeAsWritten(x, [outFeatures, inFeatures]) == Err(IndexOutOfRange)
  {
    LinearAsWrittenAgrees(x, outFeatures, inFeatures);
    if |x| == 1 && inFeatures == outFeatures {
      LinearAsWrittenRaises(x, outFeatures, inFeatures);
    }
  }
}
