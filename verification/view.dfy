/** The view rule: given the logical shape of the input, the physical shape
    of its buffer and the shape requested for the physical view, infer the
    logical shape of the result.

    Three regimes, by comparing the ranks of the physical input and the
    request: equal ranks keep the request verbatim; a collapsing view groups
    consecutive input dimensions greedily and multiplies the logical extents
    of each group; an expanding view keeps the common prefix or suffix of the
    logical shape and splices in the differing part of the request, then
    falls back to heuristics and finally to the sentinel shape. */
module ViewRule {
  import opened Base
  import opened Dimensions
  import opened ShapeAlgebra

  /** Groups of input dimensions, one group per requested dimension. */
  type Mapping = seq<seq<nat>>

  /** `[a, a + 1, ..., b - 1]` */
  function Range(a: nat, b: nat): (r: seq<nat>)
    requires a <= b
    ensures |r| == b - a
    ensures forall i :: 0 <= i < b - a ==> r[i] == a + i
  {
    seq(b - a, i requires 0 <= i < b - a => a + i)
  }

  function Flatten(m: Mapping): seq<nat> {
    if m == [] then [] else m[0] + Flatten(m[1..])
  }

  // ---------------------------------------------------------------------
  // find_mapping

  /** Where the group for `target` that starts at `pos` ends: input
      dimensions are taken while the remaining target is at least the next
      extent, dividing the target by each one taken. The target stays
      positive while dimensions are taken, so `/` agrees with Python's `//`. */
  function GroupEnd(input: seq<nat>, pos: nat, target: int): (r: Result<nat>)
    requires pos <= |input|
    ensures r.Ok? ==> pos <= r.value <= |input|
    ensures r.Err? ==> r.error == DivisionByZero
    decreases |input| - pos
  {
    if pos == |input| || target < input[pos] then Ok(pos)
    else if input[pos] == 0 then Err(DivisionByZero)
    else GroupEnd(input, pos + 1, target / input[pos])
  }

  function MappingFrom(input: seq<nat>, output: seq<int>, pos: nat): Result<Mapping>
    requires pos <= |input|
    decreases |output|
  {
    if output == [] then Ok([])
    else
      var e :- GroupEnd(input, pos, output[0]);
      var rest :- MappingFrom(input, output[1..], e);
      Ok([Range(pos, e)] + rest)
  }

  /** The greedy grouping find_mapping computes. */
  function GreedyMapping(input: seq<nat>, output: seq<int>): Result<Mapping> {
    MappingFrom(input, output, 0)
  }

  /** find_mapping */
  method FindMapping(input: seq<nat>, output: seq<int>) returns (r: Result<Mapping>)
    ensures r == GreedyMapping(input, output)
  {
    var mapping: Mapping := [];
    var inputIndex: nat := 0;
    assert output[0..] == output;
    PrefixedNil(MappingFrom(input, output, 0));
    for j := 0 to |output|
      invariant inputIndex <= |input|
      invariant GreedyMapping(input, output) == Prefixed(mapping, MappingFrom(input, output[j..], inputIndex))
    {
      var outputDim := output[j];
      var current: seq<nat> := [];
      ghost var start := inputIndex;
      assert output[j..][0] == output[j] && output[j..][1..] == output[j + 1..];
      while true
        invariant start <= inputIndex <= |input|
        invariant current == Range(start, inputIndex)
        invariant GroupEnd(input, start, output[j]) == GroupEnd(input, inputIndex, outputDim)
        decreases |input| - inputIndex
      {
        if inputIndex >= |input| || outputDim < input[inputIndex] {
          break;
        }
        if input[inputIndex] == 0 {
          return Err(DivisionByZero);
        }
        current := current + [inputIndex];
        outputDim := outputDim / input[inputIndex];
        inputIndex := inputIndex + 1;
      }
      PrefixedTwice(mapping, [current], MappingFrom(input, output[j + 1..], inputIndex));
      mapping := mapping + [current];
    }
    assert mapping + [] == mapping;
    r := Ok(mapping);
  }

  /** The greedy grouping covers the input dimensions in order: one group
      per requested dimension, together forming `0, 1, ..., k - 1` for some
      `k` no larger than the input rank. */
  lemma GreedyMappingConsecutive(input: seq<nat>, output: seq<int>)
    requires GreedyMapping(input, output).Ok?
    ensures var m := GreedyMapping(input, output).value;
      && |m| == |output|
      && |Flatten(m)| <= |input|
      && Flatten(m) == Range(0, |Flatten(m)|)
  {
    MappingFromConsecutive(input, output, 0);
  }

  lemma {:induction false} MappingFromConsecutive(input: seq<nat>, output: seq<int>, pos: nat)
    requires pos <= |input| && MappingFrom(input, output, pos).Ok?
    ensures var m := MappingFrom(input, output, pos).value;
      && |m| == |output|
      && pos + |Flatten(m)| <= |input|
      && Flatten(m) == Range(pos, pos + |Flatten(m)|)
    decreases |output|
  {
    if output != [] {
      var e := GroupEnd(input, pos, output[0]).value;
      MappingFromConsecutive(input, output[1..], e);
      var m := MappingFrom(input, output, pos).value;
      var rest := MappingFrom(input, output[1..], e).value;
      assert m == [Range(pos, e)] + rest;
      assert m[1..] == rest;
      assert Flatten(m) == Range(pos, e) + Flatten(rest);
    }
  }

  // ---------------------------------------------------------------------
  // apply_mapping

  /** The logical dimension of one group: a fold `orig[i] * acc` over the
      group starting from an unflagged 1. */
  function GroupProductFrom(orig: Shape, group: seq<nat>, acc: Dimension): Result<Dimension>
    decreases |group|
  {
    if group == [] then Ok(acc)
    else if group[0] < |orig| then GroupProductFrom(orig, group[1..], orig[group[0]].Mul(acc))
    else Err(IndexOutOfRange)
  }

  function GroupProduct(orig: Shape, group: seq<nat>): Result<Dimension> {
    GroupProductFrom(orig, group, Unflagged(1))
  }

  function MappedShape(orig: Shape, mapping: Mapping): Result<Shape>
    decreases |mapping|
  {
    if mapping == [] then Ok([])
    else
      var d :- GroupProduct(orig, mapping[0]);
      var rest :- MappedShape(orig, mapping[1..]);
      Ok([d] + rest)
  }

  /** apply_mapping */
  method ApplyMapping(orig: Shape, mapping: Mapping) returns (r: Result<Shape>)
    ensures r == MappedShape(orig, mapping)
  {
    var out: Shape := [];
    assert mapping[0..] == mapping;
    PrefixedNil(MappedShape(orig, mapping));
    for j := 0 to |mapping|
      invariant MappedShape(orig, mapping) == Prefixed(out, MappedShape(orig, mapping[j..]))
    {
      assert mapping[j..][0] == mapping[j] && mapping[j..][1..] == mapping[j + 1..];
      var group := mapping[j];
      var dim := Unflagged(1);
      for k := 0 to |group|
        invariant GroupProduct(orig, group) == GroupProductFrom(orig, group[k..], dim)
      {
        assert group[k..][0] == group[k] && group[k..][1..] == group[k + 1..];
        if group[k] >= |orig| {
          return Err(IndexOutOfRange);
        }
        dim := orig[group[k]].Mul(dim);
      }
      assert group[|group|..] == [];
      PrefixedTwice(out, [dim], MappedShape(orig, mapping[j + 1..]));
      out := out + [dim];
    }
    assert out + [] == out;
    r := Ok(out);
  }

  /** The selected extents of `orig`, in group order. */
  function Selected(orig: Shape, group: seq<nat>): (xs: seq<int>)
    requires forall k :: 0 <= k < |group| ==> group[k] < |orig|
    ensures |xs| == |group|
  {
    seq(|group|, k requires 0 <= k < |group| => orig[group[k]].size)
  }

  /** A group's dimension exists exactly when every index is in range; its
      extent is the product of the selected extents and it is padded exactly
      when one of them is. */
  lemma {:induction false} GroupProductMeaning(orig: Shape, group: seq<nat>, acc: Dimension)
    ensures GroupProductFrom(orig, group, acc).Ok? <==> forall k :: 0 <= k < |group| ==> group[k] < |orig|
    ensures GroupProductFrom(orig, group, acc).Ok? ==>
      && GroupProductFrom(orig, group, acc).value.size == Prod(Selected(orig, group)) * acc.size
      && (GroupProductFrom(orig, group, acc).value.isPadded <==>
            acc.isPadded || exists k :: 0 <= k < |group| && orig[group[k]].isPadded)
    decreases |group|
  {
    if group != [] {
      var tail := group[1..];
      if group[0] < |orig| {
        var d := orig[group[0]];
        GroupProductMeaning(orig, tail, d.Mul(acc));
        if GroupProductFrom(orig, group, acc).Ok? {
          assert forall k :: 0 <= k < |tail| ==> tail[k] == group[k + 1];
          assert Selected(orig, group)[1..] == Selected(orig, tail);
          MulAssoc(Prod(Selected(orig, tail)), d.size, acc.size);
          MulAssoc(d.size, Prod(Selected(orig, tail)), acc.size);
          if exists k :: 0 <= k < |tail| && orig[tail[k]].isPadded {
            var k :| 0 <= k < |tail| && orig[tail[k]].isPadded;
            assert orig[group[k + 1]].isPadded;
          }
          if exists k :: 0 <= k < |group| && orig[group[k]].isPadded {
            var k :| 0 <= k < |group| && orig[group[k]].isPadded;
            if k > 0 {
              assert orig[tail[k - 1]].isPadded;
            }
          }
        } else {
          var k :| 0 <= k < |tail| && tail[k] >= |orig|;
          assert group[k + 1] >= |orig|;
        }
      }
    }
  }

  /** Applying a mapping gives one logical dimension per group, each the
      product of the grouped logical extents, padded when any of them is. */
  lemma {:induction false} MappedShapeMeaning(orig: Shape, mapping: Mapping)
    requires MappedShape(orig, mapping).Ok?
    ensures |MappedShape(orig, mapping).value| == |mapping|
    ensures forall j :: 0 <= j < |mapping| ==>
      && (forall k :: 0 <= k < |mapping[j]| ==> mapping[j][k] < |orig|)
      && MappedShape(orig, mapping).value[j].size == Prod(Selected(orig, mapping[j]))
      && (MappedShape(orig, mapping).value[j].isPadded <==>
            exists k :: 0 <= k < |mapping[j]| && orig[mapping[j][k]].isPadded)
    decreases |mapping|
  {
    if mapping != [] {
      MappedShapeMeaning(orig, mapping[1..]);
      GroupProductMeaning(orig, mapping[0], Unflagged(1));
      var r := MappedShape(orig, mapping).value;
      assert r[1..] == MappedShape(orig, mapping[1..]).value;
      forall j | 1 <= j < |mapping|
        ensures mapping[j] == mapping[1..][j - 1] && r[j] == r[1..][j - 1]
      {
      }
    }
  }

  // ---------------------------------------------------------------------
  // apply_mapping over the entries Python actually holds

  /** An entry of a logical shape as Python holds it: a `Dimension` (made by
      `create_padded_dims` or by `apply_mapping`) or a plain `int` (spliced
      in from a requested shape, or a literal a rule inserts). The rest of
      the model reads a plain `int` as an unflagged dimension. */
  datatype Entry = DimEntry(dim: Dimension) | IntEntry(n: int)

  function EntrySize(e: Entry): int {
    match e
    case DimEntry(d) => d.size
    case IntEntry(n) => n
  }

  /** The dimension the rest of the model uses for an entry. */
  function AsDimension(e: Entry): Dimension {
    match e
    case DimEntry(d) => d
    case IntEntry(n) => Unflagged(n)
  }

  function AsShape(es: seq<Entry>): (s: Shape)
    ensures |s| == |es|
    ensures forall i :: 0 <= i < |es| ==> s[i] == AsDimension(es[i])
  {
    seq(|es|, i requires 0 <= i < |es| => AsDimension(es[i]))
  }

  /** `x * acc` as Python evaluates it. With a plain `int` on the left the
      product is a plain `int`, since `Dimension` keeps `int`'s reflected
      multiplication. With a `Dimension` on the left, `__mul__` reads
      `acc.is_padded` unless its own flag is set, and a plain `int` has no
      such attribute. */
  function TimesAsWritten(x: Entry, acc: Entry): Result<Entry> {
    match x
    case IntEntry(n) => Ok(IntEntry(n * EntrySize(acc)))
    case DimEntry(d) =>
      if d.isPadded then Ok(DimEntry(Dimension(d.size * EntrySize(acc), true)))
      else if acc.DimEntry? then Ok(DimEntry(d.Mul(acc.dim)))
      else Err(MissingAttribute)
  }

  /** The fold of apply_mapping over one group, as written. */
  function GroupProductAsWritten(orig: seq<Entry>, group: seq<nat>, acc: Entry): Result<Entry>
    decreases |group|
  {
    if group == [] then Ok(acc)
    else if group[0] < |orig| then
      var next :- TimesAsWritten(orig[group[0]], acc);
      GroupProductAsWritten(orig, group[1..], next)
    else Err(IndexOutOfRange)
  }

  /** apply_mapping as written, over Python's entries. */
  function MappedShapeAsWritten(orig: seq<Entry>, mapping: Mapping): Result<seq<Entry>>
    decreases |mapping|
  {
    if mapping == [] then Ok([])
    else
      var d :- GroupProductAsWritten(orig, mapping[0], DimEntry(Unflagged(1)));
      var rest :- MappedShapeAsWritten(orig, mapping[1..]);
      Ok([d] + rest)
  }

  /** The factor multiplied into position `k` of a group: the starting
      accumulator, then each entry of the group. */
  function Before(orig: seq<Entry>, group: seq<nat>, acc: Entry, k: nat): Entry
    requires k < |group| && forall j :: 0 <= j < |group| ==> group[j] < |orig|
  {
    if k == 0 then acc else orig[group[k - 1]]
  }

  /** An unflagged `Dimension` multiplied into a plain `int`. */
  predicate Clash(x: Entry, prev: Entry) {
    x.DimEntry? && !x.dim.isPadded && prev.IntEntry?
  }

  /** As written, the fold over a group raises AttributeError exactly when
      an unflagged `Dimension` comes right after a plain `int` (or after a
      plain `int` accumulator); otherwise its extent is the product of the
      grouped extents. */
  lemma {:induction false} GroupProductAsWrittenRaises(orig: seq<Entry>, group: seq<nat>, acc: Entry)
    requires forall j :: 0 <= j < |group| ==> group[j] < |orig|
    ensures GroupProductAsWritten(orig, group, acc).Err? <==>
      exists k :: 0 <= k < |group| && Clash(orig[group[k]], Before(orig, group, acc, k))
    ensures GroupProductAsWritten(orig, group, acc).Err? ==>
      GroupProductAsWritten(orig, group, acc).error == MissingAttribute
    ensures GroupProductAsWritten(orig, group, acc).Ok? ==>
      && GroupProductFrom(AsShape(orig), group, AsDimension(acc)).Ok?
      && EntrySize(GroupProductAsWritten(orig, group, acc).value) ==
           GroupProductFrom(AsShape(orig), group, AsDimension(acc)).value.size
    decreases |group|
  {
    if group != [] {
      var x, tail := orig[group[0]], group[1..];
      var shape := AsShape(orig);
      assert shape[group[0]] == AsDimension(x);
      if !Clash(x, acc) {
        var next := TimesAsWritten(x, acc).value;
        assert next.IntEntry? <==> x.IntEntry?;
        assert EntrySize(next) == shape[group[0]].Mul(AsDimension(acc)).size;
        GroupProductAsWrittenRaises(orig, tail, next);
        GroupProductMeaning(shape, tail, AsDimension(next));
        GroupProductMeaning(shape, tail, shape[group[0]].Mul(AsDimension(acc)));
        forall k | 0 <= k < |tail|
          ensures Clash(orig[tail[k]], Before(orig, tail, next, k)) <==>
                  Clash(orig[group[k + 1]], Before(orig, group, acc, k + 1))
        {
          assert tail[k] == group[k + 1];
          if k > 0 {
            assert tail[k - 1] == group[k];
          }
        }
        if exists k :: 0 <= k < |group| && Clash(orig[group[k]], Before(orig, group, acc, k)) {
          var k :| 0 <= k < |group| && Clash(orig[group[k]], Before(orig, group, acc, k));
          assert k > 0;
          assert Clash(orig[tail[k - 1]], Before(orig, tail, next, k - 1));
        }
      }
    }
  }

  /** On entries that are all `Dimension`s, as `create_padded_dims` makes
      them, the as-written fold is the product the rest of the model uses. */
  lemma {:induction false} GroupProductAsWrittenOnDimensions(orig: seq<Entry>, group: seq<nat>, acc: Dimension)
    requires forall i :: 0 <= i < |orig| ==> orig[i].DimEntry?
    requires forall j :: 0 <= j < |group| ==> group[j] < |orig|
    ensures GroupProductFrom(AsShape(orig), group, acc).Ok?
    ensures GroupProductAsWritten(orig, group, DimEntry(acc)) ==
      Ok(DimEntry(GroupProductFrom(AsShape(orig), group, acc).value))
    decreases |group|
  {
    if group != [] {
      var x := orig[group[0]];
      assert AsShape(orig)[group[0]] == x.dim;
      assert TimesAsWritten(x, DimEntry(acc)) == Ok(DimEntry(x.dim.Mul(acc)));
      GroupProductAsWrittenOnDimensions(orig, group[1..], x.dim.Mul(acc));
    }
  }

  /** A group that multiplies a plain `int` by an unflagged `Dimension`:
      `[2, 3, Dimension(4, False)]` grouped whole raises AttributeError as
      written, where the product the rest of the model uses is `24`. */
  lemma ApplyMappingAsWrittenRaises()
    ensures MappedShapeAsWritten([IntEntry(2), IntEntry(3), DimEntry(Unflagged(4))], [[0, 1, 2]]) == Err(MissingAttribute)
    ensures MappedShape(AsShape([IntEntry(2), IntEntry(3), DimEntry(Unflagged(4))]), [[0, 1, 2]]) == Ok([Unflagged(24)])
  {
    var orig := [IntEntry(2), IntEntry(3), DimEntry(Unflagged(4))];
    var group: seq<nat> := [0, 1, 2];
    assert Before(orig, group, DimEntry(Unflagged(1)), 2) == IntEntry(3);
    assert Clash(orig[group[2]], Before(orig, group, DimEntry(Unflagged(1)), 2));
    GroupProductAsWrittenRaises(orig, group, DimEntry(Unflagged(1)));
    var shape := AsShape(orig);
    assert shape == Plain([2, 3, 4]);
    assert group[1..] == [1, 2] && group[1..][1..] == [2] && [2][1..] == [];
    assert GroupProductFrom(shape, [], Unflagged(24)) == Ok(Unflagged(24));
    assert GroupProductFrom(shape, [2], Unflagged(6)) == Ok(Unflagged(24));
    assert GroupProductFrom(shape, [1, 2], Unflagged(2)) == Ok(Unflagged(24));
    assert GroupProduct(shape, group) == Ok(Unflagged(24));
    var m: Mapping := [[0, 1, 2]];
    assert m[0] == group && m[1..] == [];
    assert [Unflagged(24)] + [] == [Unflagged(24)];
  }

  // ---------------------------------------------------------------------
  // maybe_infer_minus_1_dims

  /** Position of the first occurrence of `v` in `xs`. */
  function IndexOf(xs: seq<int>, v: int): (r: Option<nat>)
    ensures r.Some? ==> r.value < |xs| && xs[r.value] == v
    ensures r.Some? ==> forall k :: 0 <= k < r.value ==> xs[k] != v
    ensures r.None? <==> v !in xs
  {
    if xs == [] then None
    else if xs[0] == v then Some(0)
    else match IndexOf(xs[1..], v)
      case None => None
      case Some(i) => Some(i + 1)
  }

  /** Only the first -1 is replaced, by the logical element count divided
      (rounding down) by minus the product of the candidate's extents. */
  function InferMinusOne(orig: Shape, out: Shape): Result<Shape> {
    match IndexOf(Sizes(out), -1)
    case None => Ok(out)
    case Some(i) =>
      var divisor := Prod(Sizes(out)) * -1;
      if divisor == 0 then Err(DivisionByZero)
      else Ok(out[i := Unflagged(FloorDiv(Prod(Sizes(orig)), divisor))])
  }

  /** maybe_infer_minus_1_dims */
  method MaybeInferMinusOne(orig: Shape, out: Shape) returns (r: Result<Shape>)
    ensures r == InferMinusOne(orig, out)
  {
    var inputProd := Prod(Sizes(orig));
    var outputProd := Prod(Sizes(out)) * -1;
    var shape := out;
    for idx := 0 to |out|
      invariant shape == out
      invariant forall k :: 0 <= k < idx ==> out[k].size != -1
    {
      if out[idx].size == -1 {
        assert IndexOf(Sizes(out), -1) == Some(idx);
        if outputProd == 0 {
          return Err(DivisionByZero);
        }
        shape := shape[idx := Unflagged(FloorDiv(inputProd, outputProd))];
        break;
      }
    }
    r := Ok(shape);
  }

  /** Inference rewrites only the first -1, leaving every other dimension
      (including any later -1) as it was; with a single -1 whose companions
      divide the element count, the inferred shape has that element count. */
  lemma InferMinusOneSpot(orig: Shape, out: Shape, i: nat)
    requires i < |out| && out[i].size == -1
    requires forall k :: 0 <= k < i ==> out[k].size != -1
    ensures Prod(Sizes(out)) != 0 ==> InferMinusOne(orig, out).Ok?
    ensures Prod(Sizes(out)) == 0 ==> InferMinusOne(orig, out) == Err(DivisionByZero)
    ensures InferMinusOne(orig, out).Ok? ==>
      && |InferMinusOne(orig, out).value| == |out|
      && (forall k :: 0 <= k < |out| && k != i ==> InferMinusOne(orig, out).value[k] == out[k])
      && !InferMinusOne(orig, out).value[i].isPadded
  {
    assert IndexOf(Sizes(out), -1) == Some(i);
  }

  lemma InferMinusOneBalances(orig: Shape, out: Shape, i: nat)
    requires i < |out| && out[i].size == -1
    requires forall k :: 0 <= k < |out| && k != i ==> out[k].size >= 1
    requires Prod(Sizes(out[i := Unflagged(1)])) > 0
    requires Prod(Sizes(orig)) % Prod(Sizes(out[i := Unflagged(1)])) == 0
    ensures InferMinusOne(orig, out).Ok?
    ensures Prod(Sizes(InferMinusOne(orig, out).value)) == Prod(Sizes(orig))
  {
    var xs := Sizes(out);
    var left, right := Prod(xs[..i]), Prod(xs[i + 1..]);
    ProdAround(xs, i, 1);
    ProdAround(xs, i, -1);
    assert Sizes(out[i := Unflagged(1)]) == xs[i := 1];
    assert xs[i := -1] == xs;
    SignFlip(left, right);
    assert IndexOf(xs, -1) == Some(i);
    var a := Prod(Sizes(orig));
    var q := FloorDiv(a, left * right);
    assert Sizes(InferMinusOne(orig, out).value) == xs[i := q];
    ProdAround(xs, i, q);
    ExactBalance(a, left, right);
  }

  lemma SignFlip(left: int, right: int)
    ensures left * 1 * right == left * right
    ensures left * -1 * right * -1 == left * right
  {
  }

  /** An exact quotient by `left * right` put back between the factors
      restores the dividend. */
  lemma ExactBalance(a: int, left: int, right: int)
    requires left * right > 0 && a % (left * right) == 0
    ensures left * (a / (left * right)) * right == a
  {
    var p := left * right;
    var q := a / p;
    assert q * p == a;
    MulAssoc(left, q, right);
    MulAssoc(q, left, right);
    assert left * (q * right) == q * (left * right);
  }

  /** The product of `xs` with entry `i` replaced by `v`. */
  lemma ProdAround(xs: seq<int>, i: nat, v: int)
    requires i < |xs|
    ensures Prod(xs[i := v]) == Prod(xs[..i]) * v * Prod(xs[i + 1..])
  {
    var ys := xs[i := v];
    ProdSplit(ys, i);
    assert ys[..i] == xs[..i] && ys[i + 1..] == xs[i + 1..];
  }

  // ---------------------------------------------------------------------
  // maybe_insert_1_dims

  function InsertOnesFrom(orig: Shape, output: seq<int>, idx: nat): Result<Shape>
    decreases |output|
  {
    if output == [] then Ok([])
    else if output[0] == 1 then
      var rest :- InsertOnesFrom(orig, output[1..], idx);
      Ok([Unflagged(1)] + rest)
    else if idx < |orig| then
      var rest :- InsertOnesFrom(orig, output[1..], idx + 1);
      Ok([orig[idx]] + rest)
    else Err(IndexOutOfRange)
  }

  /** The requested shape unchanged when it holds no 1; otherwise each 1 is
      kept and every other position takes the next logical dimension. */
  function InsertOnes(orig: Shape, output: seq<int>): Result<Shape> {
    if 1 !in output then Ok(Plain(output)) else InsertOnesFrom(orig, output, 0)
  }

  /** maybe_insert_1_dims */
  method MaybeInsertOnes(orig: Shape, output: seq<int>) returns (r: Result<Shape>)
    ensures r == InsertOnes(orig, output)
  {
    if 1 !in output {
      return Ok(Plain(output));
    }
    var built: Shape := [];
    var idx: nat := 0;
    assert output[0..] == output;
    PrefixedNil(InsertOnesFrom(orig, output, 0));
    for j := 0 to |output|
      invariant InsertOnes(orig, output) == Prefixed(built, InsertOnesFrom(orig, output[j..], idx))
    {
      assert output[j..][0] == output[j] && output[j..][1..] == output[j + 1..];
      if output[j] == 1 {
        PrefixedTwice(built, [Unflagged(1)], InsertOnesFrom(orig, output[j + 1..], idx));
        built := built + [Unflagged(1)];
      } else {
        if idx >= |orig| {
          return Err(IndexOutOfRange);
        }
        PrefixedTwice(built, [orig[idx]], InsertOnesFrom(orig, output[j + 1..], idx + 1));
        built := built + [orig[idx]];
        idx := idx + 1;
      }
    }
    assert built + [] == built;
    r := Ok(built);
  }

  /** Number of entries other than 1. */
  function NonOnes(output: seq<int>): nat {
    if output == [] then 0 else (if output[0] == 1 then 0 else 1) + NonOnes(output[1..])
  }

  /** Inserting ones succeeds exactly when the logical shape has a dimension
      for every requested entry other than 1; the result keeps a unit extent
      at each requested 1 and, at every other position, the logical
      dimension that follows those already used, so its element count is
      theirs. */
  lemma InsertOnesMeaning(orig: Shape, output: seq<int>, idx: nat)
    requires idx <= |orig|
    ensures InsertOnesFrom(orig, output, idx).Ok? <==> idx + NonOnes(output) <= |orig|
    ensures InsertOnesFrom(orig, output, idx).Ok? ==>
      && |InsertOnesFrom(orig, output, idx).value| == |output|
      && (forall k :: 0 <= k < |output| && output[k] == 1 ==> InsertOnesFrom(orig, output, idx).value[k] == Unflagged(1))
      && (forall k :: 0 <= k < |output| && output[k] != 1 ==>
            && idx + NonOnes(output[..k]) < |orig|
            && InsertOnesFrom(orig, output, idx).value[k] == orig[idx + NonOnes(output[..k])])
      && Prod(Sizes(InsertOnesFrom(orig, output, idx).value)) == Prod(Sizes(orig[idx..idx + NonOnes(output)]))
  {
    InsertOnesCounts(orig, output, idx);
    if InsertOnesFrom(orig, output, idx).Ok? {
      InsertOnesInOrder(orig, output, idx);
    }
  }

  /** Success, the unit extents and the element count of inserting ones. */
  lemma {:induction false} InsertOnesCounts(orig: Shape, output: seq<int>, idx: nat)
    requires idx <= |orig|
    ensures InsertOnesFrom(orig, output, idx).Ok? <==> idx + NonOnes(output) <= |orig|
    ensures InsertOnesFrom(orig, output, idx).Ok? ==>
      && |InsertOnesFrom(orig, output, idx).value| == |output|
      && (forall k :: 0 <= k < |output| && output[k] == 1 ==> InsertOnesFrom(orig, output, idx).value[k] == Unflagged(1))
      && Prod(Sizes(InsertOnesFrom(orig, output, idx).value)) == Prod(Sizes(orig[idx..idx + NonOnes(output)]))
    decreases |output|
  {
    if output == [] {
      assert orig[idx..idx] == [];
      return;
    }
    var tail := output[1..];
    var next := if output[0] == 1 then idx else idx + 1;
    if next > |orig| {
      return;
    }
    InsertOnesCounts(orig, tail, next);
    var res := InsertOnesFrom(orig, output, idx);
    if res.Ok? {
      var r := res.value;
      var rest := InsertOnesFrom(orig, tail, next).value;
      var n := NonOnes(output);
      assert r[1..] == rest;
      forall k | 1 <= k < |output| && output[k] == 1 ensures r[k] == Unflagged(1) {
        assert tail[k - 1] == 1 && r[k] == rest[k - 1];
      }
      assert Sizes(r)[1..] == Sizes(rest);
      assert Prod(Sizes(r)) == r[0].size * Prod(Sizes(rest));
      if output[0] != 1 {
        var used := Sizes(orig[idx..idx + n]);
        assert used[1..] == Sizes(orig[next..next + NonOnes(tail)]);
        assert used[0] == orig[idx].size == r[0].size;
      } else {
        assert r[0].size == 1;
      }
    }
  }

  /** Every position of the result that is not a requested 1 holds the
      logical dimension after those already used. */
  lemma {:induction false} InsertOnesInOrder(orig: Shape, output: seq<int>, idx: nat)
    requires idx <= |orig| && InsertOnesFrom(orig, output, idx).Ok?
    ensures |InsertOnesFrom(orig, output, idx).value| == |output|
    ensures forall k :: 0 <= k < |output| && output[k] != 1 ==>
      && idx + NonOnes(output[..k]) < |orig|
      && InsertOnesFrom(orig, output, idx).value[k] == orig[idx + NonOnes(output[..k])]
    decreases |output|
  {
    if output != [] {
      var tail := output[1..];
      var next := if output[0] == 1 then idx else idx + 1;
      InsertOnesInOrder(orig, tail, next);
      var r := InsertOnesFrom(orig, output, idx).value;
      var rest := InsertOnesFrom(orig, tail, next).value;
      assert r[1..] == rest;
      assert output[..0] == [];
      forall k | 1 <= k < |output| && output[k] != 1
        ensures idx + NonOnes(output[..k]) < |orig| && r[k] == orig[idx + NonOnes(output[..k])]
      {
        assert tail[k - 1] != 1 && r[k] == rest[k - 1];
        var before := output[..k];
        assert before != [] && before[0] == output[0] && before[1..] == tail[..k - 1];
        assert NonOnes(before) == (if before[0] == 1 then 0 else 1) + NonOnes(before[1..]);
      }
    }
  }

  // ---------------------------------------------------------------------
  // infer_shapes of the view rule

  /** Whether a candidate has the logical element count, or still holds a
      -1 that torch resolves later. */
  predicate Reconciled(orig: Shape, s: Shape) {
    Prod(Sizes(orig)) == Prod(Sizes(s)) || -1 in Sizes(s)
  }

  /** Common prefix kept: the logical shape minus as many trailing
      dimensions as the physical input keeps after the prefix, then the
      request after the prefix. */
  function PrefixCandidate(orig: Shape, input: seq<nat>, output: seq<int>): Shape {
    var stripped := StripPrefix(Plain(input), Plain(output));
    Take(orig, |orig| - |stripped.0|) + stripped.1
  }

  /** Common suffix kept: the request before the suffix, then the logical
      shape after as many leading dimensions as the physical input has
      before the suffix. */
  function SuffixCandidate(orig: Shape, input: seq<nat>, output: seq<int>): Shape {
    var stripped := StripSuffix(Plain(input), Plain(output));
    stripped.1 + Drop(orig, |stripped.0|)
  }

  /** The candidate of an expanding view; the suffix candidate replaces the
      prefix one when both ends agree. */
  function ExpandCandidate(orig: Shape, input: seq<nat>, output: seq<int>): Shape
    requires 0 < |input| && 0 < |output|
  {
    if input[|input| - 1] == output[|output| - 1] then SuffixCandidate(orig, input, output)
    else PrefixCandidate(orig, input, output)
  }

  function ViewShape(orig: Shape, input: seq<nat>, output: seq<int>): Result<Shape> {
    if |input| == |output| then Ok(Plain(output))
    else if |input| > |output| then
      var mapping :- GreedyMapping(input, output);
      MappedShape(orig, mapping)
    else if |input| == 0 then Err(IndexOutOfRange)
    else if input[0] != output[0] && input[|input| - 1] != output[|output| - 1] then Err(UnsupportedCase)
    else Resolved(orig, output, ExpandCandidate(orig, input, output))
  }

  /** ViewOp.infer_shapes: `orig` is the logical shape of the input,
      `input` its physical shape and `output` the requested shape. */
  method ViewInfer(orig: Shape, input: seq<nat>, output: seq<int>) returns (r: Result<Shape>)
    ensures r == ViewShape(orig, input, output)
  {
    if |input| == |output| {
      return Ok(Plain(output));
    }
    if |input| > |output| {
      var mapping := FindMapping(input, output);
      if mapping.Err? {
        return Err(mapping.error);
      }
      r := ApplyMapping(orig, mapping.value);
      return;
    }
    if |input| == 0 {
      return Err(IndexOutOfRange);
    }
    var isPrefixEqual := input[0] == output[0];
    var isSuffixEqual := input[|input| - 1] == output[|output| - 1];
    if !isPrefixEqual && !isSuffixEqual {
      return Err(UnsupportedCase);
    }
    var candidate := SpliceCandidate(orig, input, output);
    r := ResolveCandidate(orig, output, candidate);
  }

  /** The spliced candidate of an expanding view. */
  method SpliceCandidate(orig: Shape, input: seq<nat>, output: seq<int>) returns (candidate: Shape)
    requires 0 < |input| && 0 < |output|
    requires input[0] == output[0] || input[|input| - 1] == output[|output| - 1]
    ensures candidate == ExpandCandidate(orig, input, output)
  {
    var isPrefixEqual := input[0] == output[0];
    var isSuffixEqual := input[|input| - 1] == output[|output| - 1];
    if isPrefixEqual {
      var suffixIn, suffixOut := StripCommonPrefix(Plain(input), Plain(output));
      candidate := Take(orig, |orig| - |suffixIn|) + suffixOut;
    }
    if isSuffixEqual {
      var prefixIn, prefixOut := StripCommonSuffix(Plain(input), Plain(output));
      candidate := prefixOut + Drop(orig, |prefixIn|);
    }
  }

  /** What an expanding view makes of its candidate: infer a -1, else try
      inserting ones, else give up with the sentinel. */
  function Resolved(orig: Shape, output: seq<int>, candidate: Shape): Result<Shape> {
    var inferred :- InferMinusOne(orig, candidate);
    var fallback :- if Reconciled(orig, inferred) then Ok(inferred) else InsertOnes(orig, output);
    if Reconciled(orig, fallback) then Ok(fallback) else Ok(Sentinel(|output|))
  }

  method ResolveCandidate(orig: Shape, output: seq<int>, candidate: Shape) returns (r: Result<Shape>)
    ensures r == Resolved(orig, output, candidate)
  {
    var shape := candidate;
    var inferred := MaybeInferMinusOne(orig, shape);
    if inferred.Err? {
      return inferred;
    }
    shape := inferred.value;
    if !Reconciled(orig, shape) {
      var inserted := MaybeInsertOnes(orig, output);
      if inserted.Err? {
        return inserted;
      }
      shape := inserted.value;
    }
    if !Reconciled(orig, shape) {
      return Ok(Sentinel(|output|));
    }
    r := Ok(shape);
  }

  // ---------------------------------------------------------------------
  // Properties of the view rule

  /** A view of equal rank takes the request verbatim. */
  lemma ViewEqualRankVerbatim(orig: Shape, input: seq<nat>, output: seq<int>)
    requires |input| == |output|
    ensures ViewShape(orig, input, output) == Ok(Plain(output))
    ensures Sizes(ViewShape(orig, input, output).value) == output
  {
    SizesPlain(output);
  }

  /** A collapsing view yields one logical dimension per requested one, each
      the product of a run of consecutive logical dimensions. */
  lemma ViewCollapseGroups(orig: Shape, input: seq<nat>, output: seq<int>)
    requires |input| > |output|
    requires ViewShape(orig, input, output).Ok?
    ensures GreedyMapping(input, output).Ok?
    ensures var m := GreedyMapping(input, output).value;
      && |m| == |output|
      && |ViewShape(orig, input, output).value| == |output|
      && (forall j, k :: 0 <= j < |output| && 0 <= k < |m[j]| ==> m[j][k] < |orig|)
      && (forall j :: 0 <= j < |output| ==>
            ViewShape(orig, input, output).value[j].size == Prod(Selected(orig, m[j])))
      && Flatten(m) == Range(0, |Flatten(m)|)
  {
    GreedyMappingConsecutive(input, output);
    MappedShapeMeaning(orig, GreedyMapping(input, output).value);
  }

  /** Index of the first extent at or after `c` that is not 1. */
  function NextNonOne(input: seq<nat>, c: nat): (e: nat)
    requires c <= |input|
    ensures c <= e <= |input|
    ensures forall i :: c <= i < e ==> input[i] == 1
    ensures e < |input| ==> input[e] != 1
    decreases |input| - c
  {
    if c == |input| || input[c] != 1 then c else NextNonOne(input, c + 1)
  }

  /** A target of 1 swallows the unit extents that follow. */
  lemma {:induction false} GroupEndOnes(input: seq<nat>, pos: nat)
    requires pos <= |input|
    requires forall i :: 0 <= i < |input| ==> input[i] >= 1
    ensures GroupEnd(input, pos, 1) == Ok(NextNonOne(input, pos))
    decreases |input| - pos
  {
    if pos < |input| && input[pos] == 1 {
      GroupEndOnes(input, pos + 1);
    }
  }

  /** A target equal to the product of the extents in `[pos, c)` takes
      exactly those and the unit extents after them. */
  lemma {:induction false} GroupEndExact(input: seq<nat>, pos: nat, c: nat)
    requires pos <= c <= |input|
    requires forall i :: 0 <= i < |input| ==> input[i] >= 1
    ensures GroupEnd(input, pos, Prod(input[pos..c])) == Ok(NextNonOne(input, c))
    decreases c - pos
  {
    if pos == c {
      assert input[pos..c] == [];
      GroupEndOnes(input, c);
    } else {
      var rest := Prod(input[pos + 1..c]);
      assert input[pos..c][1..] == input[pos + 1..c];
      assert Prod(input[pos..c]) == input[pos] * rest;
      ProdPositive(input[pos + 1..c]);
      ExactQuotient(input[pos], rest);
      GroupEndExact(input, pos + 1, c);
    }
  }

  lemma ExactQuotient(a: int, b: int)
    requires a >= 1 && b >= 1
    ensures a * b >= a && (a * b) / a == b
  {
    assert a * b - a == a * (b - 1);
    var q, r := (a * b) / a, (a * b) % a;
    assert a * b == q * a + r && 0 <= r < a;
    assert a * (b - q) == r;
    MulLowerBound(a, b - q);
  }

  lemma {:induction false} ProdOnes(xs: seq<int>)
    requires forall i :: 0 <= i < |xs| ==> xs[i] == 1
    ensures Prod(xs) == 1
  {
    if xs != [] {
      ProdOnes(xs[1..]);
    }
  }

  /** A group that is a run of input positions has, over the unflagged
      input, the product of that run as its extent. */
  lemma GroupOfRun(input: seq<nat>, a: nat, b: nat)
    requires a <= b <= |input|
    ensures GroupProduct(Plain(input), Range(a, b)) == Ok(Unflagged(Prod(input[a..b])))
  {
    var orig := Plain(input);
    GroupProductMeaning(orig, Range(a, b), Unflagged(1));
    assert Selected(orig, Range(a, b)) == input[a..b];
  }

  /** Requested extents that are the products of consecutive runs
      `[cuts[k], cuts[k + 1])` of the input extents: a view that only
      merges dimensions. */
  predicate MergeCuts(input: seq<nat>, output: seq<int>, cuts: seq<nat>) {
    && |cuts| == |output| + 1
    && cuts[0] == 0
    && cuts[|output|] <= |input|
    && (forall k, l :: 0 <= k <= l <= |output| ==> cuts[k] <= cuts[l])
    && (forall k :: 0 <= k < |output| ==> output[k] == Prod(input[cuts[k]..cuts[k + 1]]))
  }

  /** The greedy scan, started at `pos` inside or just after the run of
      output `j`, consumes exactly up to the first non-1 extent after the
      run, and the consumed extents multiply to the requested one. */
  lemma MergeGroupEnd(input: seq<nat>, output: seq<int>, cuts: seq<nat>, j: nat, pos: nat) returns (e: nat)
    requires forall i :: 0 <= i < |input| ==> input[i] >= 1
    requires MergeCuts(input, output, cuts)
    requires j < |output| && cuts[j] <= pos <= |input|
    requires forall i :: cuts[j] <= i < pos ==> input[i] == 1
    ensures pos <= e <= |input| && cuts[j + 1] <= e
    ensures forall i :: cuts[j + 1] <= i < e ==> input[i] == 1
    ensures GroupEnd(input, pos, output[j]) == Ok(e)
    ensures Prod(input[pos..e]) == output[j]
  {
    var c := cuts[j + 1];
    var head := output[j];
    if pos >= c {
      ProdOnes(input[cuts[j]..c]);
      GroupEndOnes(input, pos);
      e := NextNonOne(input, pos);
      ProdOnes(input[pos..e]);
    } else {
      assert input[cuts[j]..c] == input[cuts[j]..pos] + input[pos..c];
      ProdConcat(input[cuts[j]..pos], input[pos..c]);
      ProdOnes(input[cuts[j]..pos]);
      GroupEndExact(input, pos, c);
      e := NextNonOne(input, c);
      assert input[pos..e] == input[pos..c] + input[c..e];
      ProdConcat(input[pos..c], input[c..e]);
      ProdOnes(input[c..e]);
    }
  }

  lemma {:induction false} MappingFromMerges(input: seq<nat>, output: seq<int>, cuts: seq<nat>, j: nat, pos: nat)
    requires forall i :: 0 <= i < |input| ==> input[i] >= 1
    requires MergeCuts(input, output, cuts)
    requires j <= |output| && cuts[j] <= pos <= |input|
    requires forall i :: cuts[j] <= i < pos ==> input[i] == 1
    ensures MappingFrom(input, output[j..], pos).Ok?
    ensures MappedShape(Plain(input), MappingFrom(input, output[j..], pos).value) == Ok(Plain(output[j..]))
    decreases |output| - j
  {
    var orig := Plain(input);
    if j == |output| {
      assert output[j..] == [];
      return;
    }
    var head := output[j];
    assert output[j..][0] == head && output[j..][1..] == output[j + 1..];
    var e := MergeGroupEnd(input, output, cuts, j, pos);
    GroupOfRun(input, pos, e);
    MappingFromMerges(input, output, cuts, j + 1, e);
    var rest := MappingFrom(input, output[j + 1..], e).value;
    var m := [Range(pos, e)] + rest;
    assert MappingFrom(input, output[j..], pos) == Ok(m);
    assert m[0] == Range(pos, e) && m[1..] == rest;
    assert Plain(output[j..]) == [Unflagged(head)] + Plain(output[j + 1..]);
  }

  /** A collapsing view that only merges runs of dimensions, applied to an
      unpadded tensor with positive extents, yields exactly the requested
      shape: the greedy grouping finds the intended runs. */
  lemma ViewCollapseUnpaddedExact(input: seq<nat>, output: seq<int>, cuts: seq<nat>)
    requires |input| > |output|
    requires forall i :: 0 <= i < |input| ==> input[i] >= 1
    requires MergeCuts(input, output, cuts)
    ensures ViewShape(Plain(input), input, output) == Ok(Plain(output))
  {
    MappingFromMerges(input, output, cuts, 0, 0);
    assert output[0..] == output;
  }

  /** An expanding view whose request agrees with the physical input at
      neither end is not supported. */
  lemma ViewExpandNoCommonEnd(orig: Shape, input: seq<nat>, output: seq<int>)
    requires 0 < |input| < |output|
    requires input[0] != output[0] && input[|input| - 1] != output[|output| - 1]
    ensures ViewShape(orig, input, output) == Err(UnsupportedCase)
  {
  }

  /** A successful expanding view either has the logical element count (or
      a -1 left for torch to resolve) or is the sentinel of the request's
      rank. */
  lemma ViewExpandOutcome(orig: Shape, input: seq<nat>, output: seq<int>)
    requires |input| < |output|
    ensures ViewShape(orig, input, output).Ok? ==>
      var r := ViewShape(orig, input, output).value;
      Reconciled(orig, r) || r == Sentinel(|output|)
  {
    if 0 < |input| && (input[0] == output[0] || input[|input| - 1] == output[|output| - 1]) {
      ResolvedOutcome(orig, output, ExpandCandidate(orig, input, output));
    }
  }

  /** The resolution step ends reconciled or with the sentinel. */
  lemma ResolvedOutcome(orig: Shape, output: seq<int>, candidate: Shape)
    ensures Resolved(orig, output, candidate).Ok? ==>
      var r := Resolved(orig, output, candidate).value;
      Reconciled(orig, r) || r == Sentinel(|output|)
  {
  }


  /** An expanding view whose candidate already has the logical element
      count is that candidate: no heuristic runs. */
  lemma ViewExpandKeepsReconciled(orig: Shape, input: seq<nat>, output: seq<int>)
    requires 0 < |input| < |output|
    requires input[0] == output[0] || input[|input| - 1] == output[|output| - 1]
    requires -1 !in Sizes(ExpandCandidate(orig, input, output))
    requires Prod(Sizes(orig)) == Prod(Sizes(ExpandCandidate(orig, input, output)))
    ensures ViewShape(orig, input, output) == Ok(ExpandCandidate(orig, input, output))
  {
  }

  /** The example of the source's comment: physical `[32, 32, 32]` viewed as
      `[1024, 32]` groups `[[0, 1], [2]]`, which maps the logical
      `[16, 16, 16]` to `[256, 16]`. */
  lemma ViewCollapseExample()
    ensures GreedyMapping([32, 32, 32], [1024, 32]) == Ok([[0, 1], [2]])
    ensures ViewShape(Plain([16, 16, 16]), [32, 32, 32], [1024, 32]) == Ok(Plain([256, 16]))
  {
    var input: seq<nat> := [32, 32, 32];
    assert [1024, 32][1..] == [32] && [32][1..] == [];
    assert GroupEnd(input, 3, 1) == Ok(3);
    assert GroupEnd(input, 2, 32) == Ok(3);
    assert GroupEnd(input, 2, 1) == Ok(2);
    assert GroupEnd(input, 1, 32) == Ok(2);
    assert GroupEnd(input, 0, 1024) == Ok(2);
    assert Range(0, 2) == [0, 1] && Range(2, 3) == [2];
    assert MappingFrom(input, [], 3) == Ok([]);
    assert [[2]] + [] == [[2]];
    assert MappingFrom(input, [32], 2) == Ok([[2]]);
    assert [[0, 1]] + [[2]] == [[0, 1], [2]];
    assert MappingFrom(input, [1024, 32], 0) == Ok([[0, 1], [2]]);
    var orig := Plain([16, 16, 16]);
    var m: Mapping := [[0, 1], [2]];
    assert [0, 1][1..] == [1] && [1][1..] == [] && [2][1..] == [];
    assert orig[0] == orig[1] == orig[2] == Unflagged(16);
    assert GroupProductFrom(orig, [], Unflagged(256)) == Ok(Unflagged(256));
    assert GroupProductFrom(orig, [1], Unflagged(16)) == Ok(Unflagged(256));
    assert GroupProduct(orig, [0, 1]) == Ok(Unflagged(256));
    assert GroupProductFrom(orig, [], Unflagged(16)) == Ok(Unflagged(16));
    assert GroupProduct(orig, [2]) == Ok(Unflagged(16));
    assert m[0] == [0, 1] && m[1..] == [[2]] && m[1..][0] == [2] && m[1..][1..] == [];
    var tail: Mapping := [[2]];
    assert tail[0] == [2] && tail[1..] == [];
    assert MappedShape(orig, []) == Ok([]);
    assert [Unflagged(16)] + [] == [Unflagged(16)];
    assert MappedShape(orig, tail) == Ok([Unflagged(16)]);
    assert [Unflagged(256)] + [Unflagged(16)] == [Unflagged(256), Unflagged(16)];
    assert MappedShape(orig, m) == Ok([Unflagged(256), Unflagged(16)]);
    assert Plain([256, 16]) == [Unflagged(256), Unflagged(16)];
  }

  /** A -1 in a collapsing view stops the greedy scan at once: its group is
      empty, so its logical extent is 1, and the later groups shift. For the
      unpadded `[2, 3, 4]` viewed as `[-1, 12]` the rule answers `[1, 6]`. */
  lemma ViewCollapseMinusOneGroup()
    ensures ViewShape(Plain([2, 3, 4]), [2, 3, 4], [-1, 12]) == Ok(Plain([1, 6]))
  {
    var input: seq<nat> := [2, 3, 4];
    assert [-1, 12][1..] == [12] && [12][1..] == [];
    assert GroupEnd(input, 0, -1) == Ok(0);
    assert GroupEnd(input, 2, 2) == Ok(2);
    assert GroupEnd(input, 1, 6) == Ok(2);
    assert GroupEnd(input, 0, 12) == Ok(2);
    assert Range(0, 0) == [] && Range(0, 2) == [0, 1];
    assert MappingFrom(input, [], 2) == Ok([]);
    assert [[0, 1]] + [] == [[0, 1]];
    assert MappingFrom(input, [12], 0) == Ok([[0, 1]]);
    assert [[]] + [[0, 1]] == [[], [0, 1]];
    assert MappingFrom(input, [-1, 12], 0) == Ok([[], [0, 1]]);
    var orig := Plain([2, 3, 4]);
    var m: Mapping := [[], [0, 1]];
    assert [0, 1][1..] == [1] && [1][1..] == [];
    assert orig[0] == Unflagged(2) && orig[1] == Unflagged(3);
    assert GroupProduct(orig, []) == Ok(Unflagged(1));
    assert GroupProductFrom(orig, [], Unflagged(6)) == Ok(Unflagged(6));
    assert GroupProductFrom(orig, [1], Unflagged(2)) == Ok(Unflagged(6));
    assert GroupProduct(orig, [0, 1]) == Ok(Unflagged(6));
    assert m[0] == [] && m[1..] == [[0, 1]] && m[1..][0] == [0, 1] && m[1..][1..] == [];
    var tail: Mapping := [[0, 1]];
    assert tail[0] == [0, 1] && tail[1..] == [];
    assert MappedShape(orig, []) == Ok([]);
    assert [Unflagged(6)] + [] == [Unflagged(6)];
    assert MappedShape(orig, tail) == Ok([Unflagged(6)]);
    assert [Unflagged(1)] + [Unflagged(6)] == [Unflagged(1), Unflagged(6)];
    assert MappedShape(orig, m) == Ok([Unflagged(1), Unflagged(6)]);
    assert Plain([1, 6]) == [Unflagged(1), Unflagged(6)];
  }

  /** A padded logical `[2, 10]` stored as `[2, 12]` and viewed as
      `[2, 3, 4]`: no heuristic recovers a shape with 20 elements, so the
      result is the sentinel of rank 3. */
  lemma ViewExpandUnresolved()
    ensures ViewShape([Unflagged(2), Dimension(10, true)], [2, 12], [2, 3, 4]) == Ok(Sentinel(3))
  {
    var orig := [Unflagged(2), Dimension(10, true)];
    var i, o := Plain([2, 12]), Plain([2, 3, 4]);
    assert Back(i, 0).size != Back(o, 0).size;
    assert CommonSuffixLen(i, o) == 0;
    assert i[..2] == i && o[..3] == o;
    assert CommonPrefixLen(i[1..], o[1..]) == 0;
    assert CommonPrefixLen(i, o) == 1;
    assert i[1..] == [Unflagged(12)] && o[1..] == [Unflagged(3), Unflagged(4)];
    var cand := PrefixCandidate(orig, [2, 12], [2, 3, 4]);
    assert cand == [Unflagged(2), Unflagged(3), Unflagged(4)];
    assert Sizes(cand) == [2, 3, 4];
    assert Prod(Sizes(cand)) == 24;
    assert Sizes(orig) == [2, 10];
    ProdSmall(2, 10, 0);
    ProdSmall(2, 3, 4);
    assert Prod(Sizes(orig)) == 20;
    assert InferMinusOne(orig, cand) == Ok(cand);
    assert 1 !in [2, 3, 4];
  }

  /** The same view of an unpadded `[2, 12]` keeps the request. */
  lemma ViewExpandUnpadded()
    ensures ViewShape(Plain([2, 12]), [2, 12], [2, 3, 4]) == Ok(Plain([2, 3, 4]))
  {
    var orig := Plain([2, 12]);
    var i, o := Plain([2, 12]), Plain([2, 3, 4]);
    assert Back(i, 0).size != Back(o, 0).size;
    assert CommonSuffixLen(i, o) == 0;
    assert CommonPrefixLen(i[1..], o[1..]) == 0;
    assert CommonPrefixLen(i, o) == 1;
    assert i[1..] == [Unflagged(12)] && o[1..] == [Unflagged(3), Unflagged(4)];
    var cand := PrefixCandidate(orig, [2, 12], [2, 3, 4]);
    assert cand == Plain([2, 3, 4]);
    assert Sizes(cand) == [2, 3, 4];
    assert Sizes(orig) == [2, 12];
    ProdSmall(2, 12, 0);
    ProdSmall(2, 3, 4);
    assert Prod(Sizes(orig)) == 24;
  }

  /** A logical `[2, 3, 5]` padded to `[2, 3, 8]` and viewed as
      `[2, 3, 1, 8]`: both ends agree, and the suffix branch, which runs
      last, decides. It keeps the padded trailing extent and is kept;
      the prefix branch would have produced `[2, 3, 1, 8]`. */
  lemma ViewExpandSuffixWins()
    ensures PrefixCandidate([Unflagged(2), Unflagged(3), Dimension(5, true)], [2, 3, 8], [2, 3, 1, 8])
      == Plain([2, 3, 1, 8])
    ensures ViewShape([Unflagged(2), Unflagged(3), Dimension(5, true)], [2, 3, 8], [2, 3, 1, 8])
      == Ok([Unflagged(2), Unflagged(3), Unflagged(1), Dimension(5, true)])
  {
    var orig := [Unflagged(2), Unflagged(3), Dimension(5, true)];
    var i, o := Plain([2, 3, 8]), Plain([2, 3, 1, 8]);
    assert i == [Unflagged(2), Unflagged(3), Unflagged(8)];
    assert o == [Unflagged(2), Unflagged(3), Unflagged(1), Unflagged(8)];
    assert Back(i, 0).size == Back(o, 0).size && Back(i, 1).size != Back(o, 1).size;
    assert CommonSuffixLen(i, o) == 1;
    assert i[1..][1..] == [Unflagged(8)] && o[1..][1..] == [Unflagged(1), Unflagged(8)];
    assert CommonPrefixLen(i[1..][1..], o[1..][1..]) == 0;
    assert CommonPrefixLen(i, o) == 2;
    assert i[2..] == [Unflagged(8)] && o[2..] == [Unflagged(1), Unflagged(8)];
    assert i[..2] == [Unflagged(2), Unflagged(3)] && o[..3] == [Unflagged(2), Unflagged(3), Unflagged(1)];
    var cand := SuffixCandidate(orig, [2, 3, 8], [2, 3, 1, 8]);
    assert cand == [Unflagged(2), Unflagged(3), Unflagged(1), Dimension(5, true)];
    assert ExpandCandidate(orig, [2, 3, 8], [2, 3, 1, 8]) == cand;
    assert Sizes(cand) == [2, 3, 1, 5];
    assert Sizes(orig) == [2, 3, 5];
    assert [2, 3, 1, 5][1..] == [3, 1, 5];
    ProdSmall(2, 3, 5);
    ProdSmall(3, 1, 5);
    assert Prod(Sizes(cand)) == 30 == Prod(Sizes(orig));
    assert -1 !in Sizes(cand);
    assert InferMinusOne(orig, cand) == Ok(cand);
    assert Take(orig, 2) == [Unflagged(2), Unflagged(3)];
  }

  /** An unpadded `[6, 4]` viewed as `[2, 3, 4]` keeps its last logical
      dimension and splices in `2, 3` from the request, which in the source
      are plain `int`s next to a `Dimension`; viewing that as `[24]` then
      groups all three, and the source raises AttributeError there
      (ApplyMappingAsWrittenRaises), where this model gives `[24]`. */
  lemma ViewSpliceThenCollapse()
    ensures ViewShape(Plain([6, 4]), [6, 4], [2, 3, 4]) == Ok(Plain([2, 3, 4]))
    ensures GreedyMapping([2, 3, 4], [24]) == Ok([[0, 1, 2]])
    ensures ViewShape(Plain([2, 3, 4]), [2, 3, 4], [24]) == Ok(Plain([24]))
  {
    ViewSpliceStep();
    ViewCollapseStep();
  }

  lemma ViewSpliceStep()
    ensures ViewShape(Plain([6, 4]), [6, 4], [2, 3, 4]) == Ok(Plain([2, 3, 4]))
  {
    var orig := Plain([6, 4]);
    var i, o := Plain([6, 4]), Plain([2, 3, 4]);
    assert i == [Unflagged(6), Unflagged(4)];
    assert o == [Unflagged(2), Unflagged(3), Unflagged(4)];
    assert Back(i, 0).size == Back(o, 0).size && Back(i, 1).size != Back(o, 1).size;
    assert CommonSuffixLen(i, o) == 1;
    assert i[..1] == [Unflagged(6)] && o[..2] == [Unflagged(2), Unflagged(3)];
    var cand := SuffixCandidate(orig, [6, 4], [2, 3, 4]);
    assert Drop(orig, 1) == [Unflagged(4)];
    assert cand == [Unflagged(2), Unflagged(3), Unflagged(4)] == Plain([2, 3, 4]);
    assert ExpandCandidate(orig, [6, 4], [2, 3, 4]) == cand;
    assert Sizes(cand) == [2, 3, 4] && Sizes(orig) == [6, 4];
    ProdSmall(2, 3, 4);
    ProdSmall(6, 4, 1);
    assert Prod(Sizes(cand)) == 24 == Prod(Sizes(orig));
    assert -1 !in Sizes(cand);
    assert InferMinusOne(orig, cand) == Ok(cand);
  }

  lemma ViewCollapseStep()
    ensures GreedyMapping([2, 3, 4], [24]) == Ok([[0, 1, 2]])
    ensures ViewShape(Plain([2, 3, 4]), [2, 3, 4], [24]) == Ok(Plain([24]))
  {
    var input: seq<nat> := [2, 3, 4];
    assert [24][1..] == [];
    assert GroupEnd(input, 3, 1) == Ok(3);
    assert GroupEnd(input, 2, 4) == Ok(3);
    assert GroupEnd(input, 1, 12) == Ok(3);
    assert GroupEnd(input, 0, 24) == Ok(3);
    assert Range(0, 3) == [0, 1, 2];
    assert MappingFrom(input, [], 3) == Ok([]);
    assert [[0, 1, 2]] + [] == [[0, 1, 2]];
    assert MappingFrom(input, [24], 0) == Ok([[0, 1, 2]]);
    ApplyMappingAsWrittenRaises();
    assert AsShape([IntEntry(2), IntEntry(3), DimEntry(Unflagged(4))]) == Plain([2, 3, 4]);
    assert [Unflagged(24)] == Plain([24]);
  }
}
