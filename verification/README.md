# Padded tensors: shape bookkeeping

`torch/padded/padded_tensor.py` defines `PaddedTensor`, a tensor subclass.
It stores a buffer whose dimensions are rounded up to multiples of per-dimension
*multipliers*. It also remembers the *logical* (original) shape: a list of
`Dimension`s, each an extent carrying an `is_padded` flag.

For every aten op it intercepts, the wrapper:

1. looks the op up in a table of registered rules;
2. wraps plain tensor arguments;
3. infers the logical shapes of the outputs from the logical shapes of the inputs;
4. runs the kernel on the buffers;
5. wraps the kernel's results with the inferred shapes.

`unpad` slices the buffer back down to the logical extents.

This project models that bookkeeping at shape level and proves properties of it.
Buffers are represented by their shapes only.

| file | module | what it holds |
|---|---|---|
| `base.dfy` | `Base` | the errors the code raises, `Result`/`Option`, Python slicing, indexing and floor division |
| `dimensions.dfy` | `Dimensions` | `Dimension` and its arithmetic, shapes, products |
| `padding.dfy` | `Padding` | `get_padded_shape`, `get_pad`, `get_strides`, `create_padded_dims` |
| `shape_algebra.dfy` | `ShapeAlgebra` | `strip_common_prefix` / `strip_common_suffix` |
| `view.dfy` | `ViewRule` | the view rule and its inner helpers |
| `rules.dfy` | `Rules` | every other `infer_shapes` rule, and the `linear` rule of `__torch_function__` |
| `registry.dfy` | `Registry` | `register_func` and `PADDED_OP_TABLE` |
| `padded_tensor.dfy` | `PaddedTensors` | `slice_nd`, the `PaddedTensor` class, `unpad` |
| `dispatch.dfy` | `Dispatch` | `convert_tensor_args`, `get_tensors_from_padded`, `convert_tensor_results`, `__torch_dispatch__` |

The code that works step by step is modelled as methods with loops:

- the strip loops, `find_mapping`, `apply_mapping`, the `-1` inference and the insertion of ones;
- the padding helpers;
- `slice_nd`;
- the argument and result conversions;
- registration into the table;
- `PaddedTensor.__init__`, a class whose constructor sets its fields.

Each such method is proved equal to a specification function. The properties
are proved about those functions.

Shapes have three representations:

- A physical shape (`.shape` of a buffer) is a `seq<nat>`.
- A logical shape is a `seq<Dimension>`.
- A requested view shape is a `seq<int>`, since it may hold `-1`.

A Python `int` placed in a logical shape is modelled as an unflagged `Dimension`. Only `apply_mapping` tells the two apart. Its as-written version (`ViewRule.MappedShapeAsWritten`) works on entries that are either kind; see Findings.

## Model

| member | source | states |
|---|---|---|
| Dimensions.DimensionArithmetic | torch/padded/padded_tensor.py:34-50 | between two `Dimension`s, the flag of a sum, difference or product equals the OR of the operands' flags, whichever operand carries it. Adding then subtracting gives back the size, `*` is commutative, and an unflagged 1 is neutral for `*`. |
| ShapeAlgebra.CommonSuffixLen | torch/padded/padded_tensor.py:59-71 | the number of trailing positions with equal sizes. The sizes differ at the next position, if both lists have one. |
| ShapeAlgebra.CommonPrefixLen | torch/padded/padded_tensor.py:74-84 | the number of leading positions with equal sizes. The sizes differ at the next position, if both lists have one. |
| ShapeAlgebra.StripCommonSuffix | torch/padded/padded_tensor.py:59-71 | the same number of entries is removed from both lists. The removed parts have equal sizes. Each result is a prefix of its input. The new last entries differ. An empty list leaves both lists unchanged. |
| ShapeAlgebra.StripCommonPrefix | torch/padded/padded_tensor.py:74-84 | the same number of entries is removed from both lists. The removed parts have equal sizes. Each result is a suffix of its input. The new first entries differ. An empty list leaves both lists unchanged. |
| ShapeAlgebra.PrefixAsWrittenRaisesOnProperPrefix | torch/padded/padded_tensor.py:74-84 | the unbounded scan raises IndexError when the first list is a proper, non-empty prefix of the second. The bounded strip then returns `([], rest of the second)`. |
| ShapeAlgebra.SuffixAsWrittenWraps | torch/padded/padded_tensor.py:59-71 | on `[2, 1]` and `[1, 2, 1]` the unbounded scan reads past the front through negative indices and returns `([2], [])`. The bounded strip returns `([], [1])`. |
| PaddedTensors.SliceNd | torch/padded/padded_tensor.py:87-118 | computes the slice_nd result shape: AssertionFailed on unequal bound lists; the input unchanged when every given end equals its extent; otherwise the per-dimension slicing with its errors. |
| PaddedTensors.SliceSkipsMatchingEnds | torch/padded/padded_tensor.py:94-100 | when every given end equals the extent, the input is returned unchanged. |
| PaddedTensors.SlicedFromMeaning | torch/padded/padded_tensor.py:102-116 | slicing succeeds iff every dimension with both bounds exists and each cut has `0 <= start < end <= extent`. The rank is kept. A cut dimension gets `end - start` and the other dimensions are untouched. |
| PaddedTensors.SliceRejections | torch/padded/padded_tensor.py:92-113 | the errors are: a negative start or an end past the extent fails the assertions; `start >= end` raises ValueError; bound lists of different lengths fail the first assertion. |
| PaddedTensors.UnpadMeaning | torch/padded/padded_tensor.py:811-819 | unpad succeeds iff the logical shape holds no sentinel and fits inside the buffer. The result has the logical extents, followed by the buffer's trailing extents. |
| PaddedTensors.UnpadRefusesSentinel | torch/padded/padded_tensor.py:812-815 | a sentinel extent anywhere in the logical shape makes unpad raise. |
| PaddedTensors.UnpadAfterWrap | torch/padded/padded_tensor.py:811-819 | wrapping a buffer with multipliers and then unpadding gives back the buffer's own shape. |
| PaddedTensors.PaddedTensor.constructor | torch/padded/padded_tensor.py:681-739 | the declared shape is the padded shape, with row-major strides. The logical shape is the given one, or else the flagged buffer shape. The fields are set from the arguments. After padding, the buffer has the declared shape. |
| PaddedTensors.PaddedTensor.Unpad | torch/padded/padded_tensor.py:811-819 | equals the unpad specification on the object's buffer and logical shape. |
| PaddedTensors.Wrap | torch/padded/padded_tensor.py:716-730 | construction fails with IndexError exactly when there is no logical shape and the buffer has more dimensions than there are multipliers. Otherwise it yields a fresh tensor with the padded and logical shapes. |
| Padding.RoundUp | torch/padded/padded_tensor.py:600-603 | `(n + m - 1) // m * m` is a multiple of `m` in `[n, n + m)`. |
| Padding.GetPaddedShape | torch/padded/padded_tensor.py:596-604 | equals the padded shape: each dimension covered by a multiplier is rounded up, and the others are kept. |
| Padding.PaddingBounds | torch/padded/padded_tensor.py:596-604 | rank is kept. A dimension with a multiplier becomes a multiple of it and grows by less than it. A dimension without one is unchanged. |
| Padding.PaddedShapeOnes | torch/padded/padded_tensor.py:596-604 | all-1 multipliers leave the shape unchanged. |
| Padding.GetPad | torch/padded/padded_tensor.py:607-616 | equals the pad-width specification: the list filled per dimension, then reversed. |
| Padding.PadWidthsHighSideOnly | torch/padded/padded_tensor.py:607-616 | there are `2 * rank` entries. In reversed order, the low-side entry of each dimension is 0 and its high-side entry is the growth of that dimension. |
| Padding.PadReachesPaddedShape | torch/padded/padded_tensor.py:733-737 | constant padding with those widths yields exactly the padded shape. |
| Padding.GetStrides | torch/padded/padded_tensor.py:586-593 | stride `i` is the product of the extents after `i`. The last stride is 1, and each stride is the next extent times the next stride. The first extent times the first stride is the element count. |
| Padding.CreatePaddedDims | torch/padded/padded_tensor.py:671-676 | fails with IndexError iff the rank exceeds the number of multipliers. Otherwise the sizes are the shape's, and a dimension is flagged iff its multiplier is not 1. |
| ViewRule.GroupEnd | torch/padded/padded_tensor.py:152-161 | the inner loop stops within the input. A zero extent that it divides by raises ZeroDivisionError. |
| ViewRule.FindMapping | torch/padded/padded_tensor.py:145-164 | equals the greedy mapping: per output dimension, consume input dimensions while the remaining quotient is at least the next extent. |
| ViewRule.GreedyMappingConsecutive | torch/padded/padded_tensor.py:145-164 | there is one group per output dimension. The groups, concatenated, are `0, 1, …, k-1`: consecutive, increasing, each index used once. |
| ViewRule.ApplyMapping | torch/padded/padded_tensor.py:166-178 | equals the mapped shape: per group, the product of the group's logical dimensions. |
| ViewRule.GroupProductMeaning | torch/padded/padded_tensor.py:171-176 | the product succeeds iff all indices are in range. Its size is the product of the selected sizes. It is flagged iff some selected dimension is flagged. |
| ViewRule.MappedShapeMeaning | torch/padded/padded_tensor.py:166-178 | one output dimension per group. Its size is the product of the group's logical sizes. Its flag is the OR of the group's flags. |
| ViewRule.GroupProductAsWrittenRaises | torch/padded/padded_tensor.py:47-49 | as written, a group's product raises AttributeError exactly when an unflagged `Dimension` is multiplied into a plain `int`, i.e. it comes right after a plain `int` in the group. Otherwise its size is the size of the product the rest of the model uses. |
| ViewRule.GroupProductAsWrittenOnDimensions | torch/padded/padded_tensor.py:171-176 | when every entry is a `Dimension`, as `create_padded_dims` makes them, the as-written product equals the product the rest of the model uses, flag included. |
| ViewRule.ApplyMappingAsWrittenRaises | torch/padded/padded_tensor.py:166-178 | `[2, 3, Dimension(4, False)]` grouped whole raises AttributeError as written. The product the rest of the model uses is `24`. |
| ViewRule.ViewSpliceThenCollapse | torch/padded/padded_tensor.py:205-271 | an unpadded `[6, 4]` viewed as `[2, 3, 4]` has the logical shape `[2, 3, 4]`; the `2, 3` come from the request. Viewing that as `[24]` groups all three dimensions and gives `[24]`. |
| ViewRule.IndexOf | torch/padded/padded_tensor.py:184-187 | the position of the first occurrence, and none iff the value is absent. |
| ViewRule.MaybeInferMinusOne | torch/padded/padded_tensor.py:180-188 | equals the specification: only the first `-1` is replaced, by the floor quotient of the logical product by the negated product of the candidate. |
| ViewRule.InferMinusOneSpot | torch/padded/padded_tensor.py:180-188 | only the first `-1` changes, and the new entry is unflagged. A zero product raises ZeroDivisionError. |
| ViewRule.InferMinusOneBalances | torch/padded/padded_tensor.py:180-188 | with the other extents positive and dividing the element count, the filled-in shape has the element count of the logical shape. |
| ViewRule.MaybeInsertOnes | torch/padded/padded_tensor.py:190-203 | equals the insert-ones specification. |
| ViewRule.InsertOnesMeaning | torch/padded/padded_tensor.py:190-203 | succeeds iff the logical shape has enough dimensions for the requested non-1 entries. It keeps the requested rank and places a 1 at each requested 1. At every other position `k` it places `orig[idx + m]`, where `m` counts the non-1 entries before `k`, so the logical dimensions appear in order. It preserves the product of the logical dimensions it consumes. |
| ViewRule.ViewInfer | torch/padded/padded_tensor.py:205-271 | equals the view specification across the equal, collapsing and expanding cases. |
| ViewRule.SpliceCandidate | torch/padded/padded_tensor.py:236-249 | the prefix branch runs first; the suffix branch, when it applies, overrides it. |
| ViewRule.ResolveCandidate | torch/padded/padded_tensor.py:251-271 | infer `-1`; if the counts still disagree, insert ones; if they still disagree, return the sentinel. |
| ViewRule.ViewEqualRankVerbatim | torch/padded/padded_tensor.py:213-214 | equal rank returns the requested shape verbatim. |
| ViewRule.ViewCollapseGroups | torch/padded/padded_tensor.py:216-224 | a collapsing view has one dimension per output dimension: the product of a consecutive group of logical dimensions. |
| ViewRule.ViewCollapseUnpaddedExact | torch/padded/padded_tensor.py:216-224 | when the request only merges runs of input dimensions, a collapsing view of an unpadded tensor returns exactly the request. |
| ViewRule.ViewCollapseExample | torch/padded/padded_tensor.py:217-220 | `[32, 32, 32]` to `[1024, 32]` maps to `[[0, 1], [2]]`, so the logical `[16, 16, 16]` becomes `[256, 16]`. |
| ViewRule.ViewCollapseMinusOneGroup | torch/padded/padded_tensor.py:145-164 | a `-1` in a collapsing request consumes no input dimension: `[2, 3, 4]` to `[-1, 12]` gives `[1, 6]`. |
| ViewRule.ViewExpandNoCommonEnd | torch/padded/padded_tensor.py:231-234 | an expanding view that keeps neither the first nor the last extent raises NotImplementedError. |
| ViewRule.ViewExpandOutcome | torch/padded/padded_tensor.py:251-271 | an expanding view yields a shape with the logical element count, or one still holding `-1`, or else the sentinel of the requested rank. |
| ViewRule.ResolvedOutcome | torch/padded/padded_tensor.py:259-271 | the fallback chain after `-1` inference ends in a shape reconciled with the logical shape or in the sentinel of the requested rank, never anything else. |
| ViewRule.ViewExpandKeepsReconciled | torch/padded/padded_tensor.py:236-271 | a spliced candidate that already has the element count is returned as is. |
| ViewRule.ViewExpandSuffixWins | torch/padded/padded_tensor.py:237-249 | when both ends agree the suffix branch decides: logical `[2, 3, 5(P)]` over `[2, 3, 8]` viewed as `[2, 3, 1, 8]` gives `[2, 3, 1, 5(P)]`, not the prefix branch's `[2, 3, 1, 8]`. |
| ViewRule.ViewExpandUnresolved | torch/padded/padded_tensor.py:264-269 | logical `[2, 10(P)]` over `[2, 12]` viewed as `[2, 3, 4]` gives `[INVALID_ID] * 3`. |
| ViewRule.ViewExpandUnpadded | torch/padded/padded_tensor.py:226-271 | the same view of an unpadded `[2, 12]` gives `[2, 3, 4]`. |
| Rules.UnsqueezeSelectInverse | torch/padded/padded_tensor.py:279-286 | the axis is normalised by `rank + 1`. A 1 is inserted there, and removing it gives the input back. |
| Rules.TransposeSwaps | torch/padded/padded_tensor.py:304-318 | succeeds iff both axes lie in `[-2 * rank, rank)`. It swaps the two positions, keeps the rest, and is an involution. |
| Rules.SelectRemovesAxis | torch/padded/padded_tensor.py:438-448 | a valid axis is normalised by `rank` and removed, and the other dimensions keep their order. |
| Rules.SplitShapes | torch/padded/padded_tensor.py:466-479 | one shape per section. |
| Rules.SplitChangesOnlyAxis | torch/padded/padded_tensor.py:466-479 | each shape keeps the rank and every dimension except the split axis, which takes the section's extent. |
| Rules.StackInsertsCount | torch/padded/padded_tensor.py:487-494 | the number of inputs is inserted at the axis normalised by `rank + 1`, and removing it gives the first input's shape. |
| Rules.ExpandTakesRequested | torch/padded/padded_tensor.py:326-330 | the result is the requested sizes, whatever the input. |
| Rules.LargerDim | torch/padded/padded_tensor.py:357 | Python's `max`: the larger operand, and the first one on a tie. |
| Rules.BroadcastShape | torch/padded/padded_tensor.py:353-359 | the rank is the larger rank. |
| Rules.Broadcast | torch/padded/padded_tensor.py:348-359 | equals the broadcast specification. |
| Rules.BroadcastAligned | torch/padded/padded_tensor.py:353-359 | each dimension counted from the end is the larger of the operands' dimensions there, with a missing one counting as 1. |
| Rules.BroadcastConventional | torch/padded/padded_tensor.py:353-359 | under the usual broadcasting condition with positive extents, each position keeps the extent that is not 1. |
| Rules.BroadcastExamples | torch/padded/padded_tensor.py:353-359 | `[3, 1]` with `[1, 4]` gives `[3, 4]`, and `[5]` with `[3, 5]` gives `[3, 5]`. |
| Rules.BroadcastScalarOperand | torch/padded/padded_tensor.py:350-351 | an operand that is not a padded tensor counts as `[1]`. |
| Rules.BmmAgreement | torch/padded/padded_tensor.py:385-392 | succeeds iff both shapes have rank 3 and the batch and inner extents agree. The result is `[b1, n1, p2]`. A disagreement fails the assertion. |
| Rules.MatrixProductExamples | torch/padded/padded_tensor.py:385-392 | bmm of `[5, 2, 3]` and `[5, 3, 4]` gives `[5, 2, 4]`. A batch mismatch fails the assertion. |
| Rules.MatmulExample | torch/padded/padded_tensor.py:376-377 | mm of `[2, 3]` and `[3, 4]` gives `[2, 4]`. |
| Rules.MatmulTakesOuter | torch/padded/padded_tensor.py:376-377 | for all operands, mm gives `[a[0], b[1]]` from the two logical shapes. It raises IndexError when the first has no dimension or the second has fewer than two. |
| Rules.AddMmTakesBiasRows | torch/padded/padded_tensor.py:367-368 | addmm takes its rows from the bias (argument 0) and its columns from argument 1. |
| Rules.AttentionShapes | torch/padded/padded_tensor.py:402-406 | the output shape and the attention shape without the last dimension. |
| Rules.EmbeddingRank | torch/padded/padded_tensor.py:512-519 | the index shape followed by the weight shape without its first dimension. |
| Rules.PreservingRules | torch/padded/padded_tensor.py:129-135 | ones_like (lines 129-135), polar (289-296), the unary class (333-340), index_put_ (451-458), detach (497-504) and the no-op class (522-529) each return the input shape. |
| Rules.IndexInfer | torch/padded/padded_tensor.py:414-430 | equals the index specification. |
| Rules.IndexMeaning | torch/padded/padded_tensor.py:414-430 | succeeds iff every index is None or a padded tensor of positive rank at a position within the shape. Each tensor index replaces its position by its first logical extent, and the rank is kept. |
| Rules.InferShapes | torch/padded/padded_tensor.py:125-528 | equals the rule-by-rule specification of `infer_shapes`. |
| Rules.LinearAsWrittenAgrees | torch/padded/padded_tensor.py:768-775 | for every input of rank at least 1 and weight `[out, in]`, the as-written rule gives the corrected shape iff the input's last extent is `in` and the extent read next, `x[-2]`, is not `out`. |
| Rules.LinearAsWrittenRaises | torch/padded/padded_tensor.py:59-71 | as written, a 1-D input whose extent equals both feature counts raises IndexError, and so does a 2-D input equal to the weight (`[4, 8]` against `[4, 8]`). The corrected rule succeeds on both. |
| Rules.LinearAsWrittenOverStrips | torch/padded/padded_tensor.py:768-775 | as written, an input ending in `[out, in]` whose third-last extent is not `in` loses both: the result is the input without its last two dimensions. The corrected rule keeps the rank. |
| Rules.LinearOverStripExample | torch/padded/padded_tensor.py:768-775 | `[2, 4, 8]` through a weight `[4, 8]` gives `[2]` as written, and `[2, 4, 4]` corrected. |
| Rules.LinearReplacesLast | torch/padded/padded_tensor.py:761-777 | the corrected rule keeps the leading dimensions and puts the output features last. When only the last extents match, the as-written rule agrees, except that a 1-D input with a square weight makes it raise IndexError. |
| Rules.LinearOperandsAsWrittenRaises | torch/padded/padded_tensor.py:768-775 | as written over the call's arguments, AttributeError exactly when the input is not a padded tensor (only the weight is), or the weight has no `.shape`. IndexError when an argument is missing. Otherwise the result is the strip of `args[0].orig_shape` and `args[1].shape`. |
| Rules.LinearOperandsMeaning | torch/padded/padded_tensor.py:766-775 | corrected over the arguments: a padded input gives its logical leading dimensions followed by `out`. A plain input gives its own leading extents followed by `out`. AttributeError only when the input has no shape. |
| Rules.LinearPlainInputExample | torch/padded/padded_tensor.py:768-769 | a plain `[3, 8]` input with a padded `[4, 8]` weight raises AttributeError as written, and gives `[3, 4]` corrected. |
| Registry.Registered | torch/padded/padded_tensor.py:24-26 | every name is bound to the rule, and every other binding is kept. |
| Registry.OpTable.constructor | torch/padded/padded_tensor.py:17 | the table starts empty. |
| Registry.OpTable.Register | torch/padded/padded_tensor.py:20-28 | the table afterwards is the old table with every listed name bound to the rule. |
| Registry.OpTable.Lookup | torch/padded/padded_tensor.py:784-788 | an absent name raises NotImplementedError naming the op; a present one returns its rule. |
| Registry.LookupIn | torch/padded/padded_tensor.py:784-788 | succeeds iff the name is in the table. |
| Registry.BuildPaddedOpTable | torch/padded/padded_tensor.py:129-528 | the table is built by the decorators in order. |
| Registry.RegisterAllBinds | torch/padded/padded_tensor.py:20-28 | a name registered by exactly one class is bound to that class's rule, whatever the order. |
| Registry.RegisterAllKeeps | torch/padded/padded_tensor.py:20-28 | registrations that do not list a name leave its binding, or its absence, alone. |
| Registry.PaddedOpTableView | torch/padded/padded_tensor.py:139 | `view` is bound to the view rule. |
| Registry.PaddedOpTableAddMm | torch/padded/padded_tensor.py:362 | `addmm` is bound to the addmm rule. |
| Registry.PaddedOpTableMiss | torch/padded/padded_tensor.py:784-787 | an unregistered name, `conv2d`, misses. |
| Dispatch.ConvertedArgMeaning | torch/padded/padded_tensor.py:619-637 | a converted plain tensor keeps its shape, and its logical shape is that shape unflagged. Other arguments are unchanged. |
| Dispatch.ConvertTensorArgs | torch/padded/padded_tensor.py:619-637 | each top-level plain tensor is wrapped with all-1 multipliers and every other argument is passed on. |
| Dispatch.UnwrappedIsBare | torch/padded/padded_tensor.py:658-668 | the kernel never sees a padded tensor, and an argument holding none is unchanged. |
| Dispatch.ConversionInvisibleToKernel | torch/padded/padded_tensor.py:790-800 | the kernel receives the same buffers it would have received from the arguments as given. |
| Dispatch.ConvertTensorResults | torch/padded/padded_tensor.py:640-655 | the plain tensor at position `idx` is wrapped with `shapes[idx]` only when `idx < len(shapes)`. Everything else is returned unchanged. |
| Dispatch.UnwrapAfterWrapResults | torch/padded/padded_tensor.py:640-668 | unwrapping the wrapped results gives back the kernel's outputs. |
| Dispatch.Dispatch | torch/padded/padded_tensor.py:780-809 | a missing op raises first. Otherwise dispatch succeeds iff inference succeeds, and it returns one result per kernel output. |
| Dispatch.DispatchPairsShapes | torch/padded/padded_tensor.py:780-809 | each plain tensor output at a position with an inferred shape comes back padded with exactly that logical shape. |
| Dispatch.DispatchCall | torch/padded/padded_tensor.py:780-809 | equals the dispatch specification, against the op table object. |
| Dispatch.DispatchUnregistered | torch/padded/padded_tensor.py:784-787 | on the table the decorators build, `conv2d` raises whatever the arguments and the kernel. |

## Left out

- Multipliers: every multiplier must be at least 1. A zero multiplier makes the code raise ZeroDivisionError. A negative one can give a negative padded extent, or one smaller than the buffer's, and then `get_pad` gives a negative width, which crops.
- `multipliers is None`: this path is not modelled. The `assert type(multipliers) is list` in `__new__` fails first, so it is unreachable.
- Kernels: the aten kernel is a function parameter. `F.pad` and `aten.slice` are represented by the shapes they produce, with `end - start` for a slice. The fill value (`neutral_element`) is stored but has no effect on shapes.
- Buffer metadata: `storage_offset`, device, layout, dtype, `requires_grad` and `_make_wrapper_subclass` are not modelled.
- Aliasing: `return_and_correct_aliasing` and the aliasing of in-place ops are not modelled.
- Pytree: flattening and unflattening are not modelled, and kernel outputs are taken already flattened. `kwargs` are not read by any rule and are not modelled.
- Tensor types: `FakeTensor`, `FunctionalTensor` and `Parameter` are all a plain tensor here.
- Not modelled: `__tensor_flatten__`, `__tensor_unflatten__`, `__repr__`, logging and `log_function_with_shapes`. They affect no shape.
- `utils` is not part of this model.
- Logical shapes are always lists of `Dimension`. The code sometimes builds `torch.Size` objects or mixes plain ints into them, and those can drop the padded flag. Here a plain int is an unflagged `Dimension`, and the model keeps flags where Python may lose them.
- ViewRule.ApplyMapping: it follows the corrected product, reading a plain `int` as an unflagged `Dimension`. It does not raise the AttributeError that the source raises when an unflagged `Dimension` follows a plain `int` in a group; `ViewRule.MappedShapeAsWritten` models that (see Findings).
- Rules.SplitShapes, Rules.UnsqueezeShape, Rules.StackShape: the model does not track whether a logical shape is a Python list or a tuple. `split_with_sizes` returns lists, and those become the outputs' `orig_shape`. Unsqueeze or stack on such an output evaluates list + tuple and raises TypeError in the source. The model returns the shape instead.
- Rules.Infer: a rule that reads `input_shapes[0]` while the first argument is not a padded tensor is reported as MalformedArgument. In Python, the value `tree_map_only` leaves there flows on until a later operation fails.
- Rules.BroadcastConventional: it is stated only for positive extents. `max` on a zero extent against 1 keeps 1, which is not torch's broadcasting rule. The model keeps `max` as written.
- Rules.AddMmTakesBiasRows: the addmm rule takes its rows from argument 0, the bias, as the code does. The bias may have fewer dimensions than the product, and the rule does not use `mat1`'s rows.
- ViewRule.SpliceCandidate, ViewRule.ViewInfer: they use the bounded prefix and suffix strips. Where the source's unbounded prefix scan raises IndexError at line 81, they return a shape. For example, viewing `[2, 3]` as `[2, 3, 1]` gives `[2, 3, 1]` here (see Findings).
- ViewRule.ViewCollapseMinusOneGroup: `find_mapping` compares the `-1` itself against the input extents, so a `-1` in a collapsing request gets an empty group. The model keeps this.

## Findings

| source | as written | input that shows it | evidently intended | confidence | as-written member | corrected member |
|---|---|---|---|---|---|---|
| torch/padded/padded_tensor.py:74-84 | the prefix scan has no bound and raises IndexError when one list is a proper prefix of the other | `strip_common_prefix([2, 3], [2, 3, 1])` (reached by viewing `[2, 3]` as `[2, 3, 1]`) | stop at the shorter length and return `([], [1])` | not executed | ShapeAlgebra.StripCommonPrefixAsWritten, ShapeAlgebra.PrefixAsWrittenRaisesOnProperPrefix | ShapeAlgebra.StripCommonPrefix |
| torch/padded/padded_tensor.py:59-71 | the suffix scan has no bound, so its negative indices wrap past the front of the shorter list | `strip_common_suffix([2, 1], [1, 2, 1])` gives `([2], [])` | stop at the shorter length and return `([], [1])` | not executed | ShapeAlgebra.StripCommonSuffixAsWritten, ShapeAlgebra.SuffixAsWrittenWraps | ShapeAlgebra.StripCommonSuffix |
| torch/padded/padded_tensor.py:768-775 | `linear` strips the whole common suffix of the input's logical shape and the weight shape with the unbounded scan, then concatenates what remains | input `[2, 4, 8]`, weight `[4, 8]` gives `[2]`; input `[4, 8]`, weight `[4, 8]` raises IndexError | the input's leading dimensions followed by the output features: `[2, 4, 4]` and `[4, 4]` | not executed | Rules.LinearShapeAsWritten, Rules.LinearOverStripExample, Rules.LinearAsWrittenOverStrips, Rules.LinearAsWrittenRaises | Rules.LinearShape, Rules.LinearReplacesLast, Rules.LinearAsWrittenAgrees |
| torch/padded/padded_tensor.py:768-769 | `linear` reads `args[0].orig_shape` after the kernel has run. `__torch_function__` also runs when only the weight is a padded tensor | a plain `[3, 8]` input with a padded `[4, 8]` weight: AttributeError | the input's own shape stands in for a missing `orig_shape`, giving `[3, 4]` | not executed | Rules.LinearOperandsAsWritten, Rules.LinearOperandsAsWrittenRaises, Rules.LinearPlainInputExample | Rules.LinearOperands, Rules.LinearOperandsMeaning |
| torch/padded/padded_tensor.py:171-174 | `apply_mapping` computes `input_shape[index] * output_dim`. A plain `int` on the left yields a plain `int`. An unflagged `Dimension` on the left then reads `is_padded` from that `int` (lines 47-49) | an unpadded `[6, 4]` viewed as `[2, 3, 4]` (logical `[2, 3, Dimension(4, False)]`, with the `2, 3` from the request), then viewed as `[24]`: AttributeError | the product of the group with the OR of its flags, `[24]`, treating a plain `int` as unflagged | not executed | ViewRule.MappedShapeAsWritten, ViewRule.ApplyMappingAsWrittenRaises, ViewRule.GroupProductAsWrittenRaises | ViewRule.MappedShape, ViewRule.MappedShapeMeaning, ViewRule.ViewSpliceThenCollapse |
