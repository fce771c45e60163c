/** `__torch_dispatch__`: look the op up, wrap plain tensor arguments,
    infer the logical output shapes, run the kernel on the buffers and wrap
    its plain tensor results with the inferred shapes. The kernel is a
    parameter; its outputs are taken already flattened. */
module Dispatch {
  import opened Base
  import opened Dimensions
  import opened Padding
  import opened PaddedTensors
  import opened Rules
  import opened Registry

  // ---------------------------------------------------------------------
  // convert_tensor_args

  /** One argument of convert_tensor_args: a plain tensor becomes a padded
      tensor with all multipliers 1. */
  function ConvertedArg(a: Operand): Operand {
    if a.PlainTensor? then
      var ms := Ones(|a.physical|);
      PaddedShapeOnes(a.physical, ms);
      Wrapped(PaddedShape(a.physical, ms), PaddedDims(a.physical, ms))
    else a
  }

  function ConvertedArgs(args: seq<Operand>): seq<Operand> {
    seq(|args|, i requires 0 <= i < |args| => ConvertedArg(args[i]))
  }

  /** Multipliers of 1 neither pad the buffer nor flag any extent: a
      converted tensor's logical shape is its shape, unflagged. */
  lemma ConvertedArgMeaning(a: Operand)
    ensures a.PlainTensor? ==> ConvertedArg(a) == Wrapped(a.physical, Plain(a.physical))
    ensures !a.PlainTensor? ==> ConvertedArg(a) == a
  {
    if a.PlainTensor? {
      PaddedShapeOnes(a.physical, Ones(|a.physical|));
    }
  }

  /** convert_tensor_args: each top-level plain tensor is wrapped by the
      PaddedTensor constructor; the other arguments, lists included, are
      passed on unchanged. */
  method ConvertTensorArgs(args: seq<Operand>) returns (padded: seq<Operand>)
    ensures padded == ConvertedArgs(args)
    ensures forall i :: 0 <= i < |args| && args[i].PlainTensor? ==>
      padded[i] == Wrapped(args[i].physical, Plain(args[i].physical))
    ensures forall i :: 0 <= i < |args| && !args[i].PlainTensor? ==> padded[i] == args[i]
  {
    padded := [];
    for i := 0 to |args|
      invariant padded == ConvertedArgs(args[..i])
    {
      var arg := args[i];
      ConvertedArgMeaning(arg);
      if arg.PlainTensor? {
        var ms := Ones(|arg.physical|);
        var t := new PaddedTensor(arg.physical, ms, None, 0);
        PaddedShapeOnes(arg.physical, ms);
        padded := padded + [Wrapped(Naturals(t.tensorShape), t.origShape)];
      } else {
        padded := padded + [arg];
      }
      assert args[..i + 1] == args[..i] + [args[i]];
    }
    assert args[..|args|] == args;
    forall i | 0 <= i < |args| {
      ConvertedArgMeaning(args[i]);
    }
  }

  // ---------------------------------------------------------------------
  // get_tensors_from_padded

  /** `tree_map_only(PaddedTensor, lambda x: x.tensor, ...)`: every padded
      tensor, at any depth of list nesting, is replaced by its buffer. */
  function Unwrapped(a: Operand): Operand
    decreases a
  {
    match a
    case Wrapped(p, _) => PlainTensor(p)
    case ListArg(items) => ListArg(seq(|items|, i requires 0 <= i < |items| => Unwrapped(items[i])))
    case _ => a
  }

  function UnwrappedArgs(args: seq<Operand>): seq<Operand> {
    seq(|args|, i requires 0 <= i < |args| => Unwrapped(args[i]))
  }

  /** No padded tensor at any depth. */
  predicate Bare(a: Operand)
    decreases a
  {
    match a
    case Wrapped(_, _) => false
    case ListArg(items) => forall i :: 0 <= i < |items| ==> Bare(items[i])
    case _ => true
  }

  /** The kernel never sees a padded tensor, and an argument that held
      none is passed to it unchanged. */
  lemma {:induction false} UnwrappedIsBare(a: Operand)
    ensures Bare(Unwrapped(a))
    ensures Bare(a) ==> Unwrapped(a) == a
    decreases a
  {
    if a.ListArg? {
      forall i | 0 <= i < |a.items| {
        UnwrappedIsBare(a.items[i]);
      }
      if Bare(a) {
        assert Unwrapped(a).items == a.items;
      }
    }
  }

  /** Converting the arguments is invisible to the kernel: it receives the
      buffers it would have received from the arguments as given. */
  lemma ConversionInvisibleToKernel(args: seq<Operand>)
    ensures UnwrappedArgs(ConvertedArgs(args)) == UnwrappedArgs(args)
  {
    forall i | 0 <= i < |args|
      ensures Unwrapped(ConvertedArg(args[i])) == Unwrapped(args[i])
    {
      ConvertedArgMeaning(args[i]);
    }
  }

  // ---------------------------------------------------------------------
  // convert_tensor_results

  function WrappedResult(out: Operand, idx: nat, shapes: seq<Shape>): Operand {
    if out.PlainTensor? && idx < |shapes| then
      var ms := Ones(|out.physical|);
      PaddedShapeOnes(out.physical, ms);
      Wrapped(PaddedShape(out.physical, ms), shapes[idx])
    else out
  }

  function WrappedResults(outs: seq<Operand>, shapes: seq<Shape>): seq<Operand> {
    seq(|outs|, i requires 0 <= i < |outs| => WrappedResult(outs[i], i, shapes))
  }

  /** convert_tensor_results: the plain tensor at flat position `idx` is
      wrapped with the inferred shape `shapes[idx]`; positions past the
      inferred shapes, and non-tensors, are returned unchanged. */
  method ConvertTensorResults(outs: seq<Operand>, shapes: seq<Shape>) returns (padded: seq<Operand>)
    ensures padded == WrappedResults(outs, shapes)
    ensures |padded| == |outs|
    ensures forall i :: 0 <= i < |outs| && i < |shapes| && outs[i].PlainTensor? ==>
      padded[i] == Wrapped(outs[i].physical, shapes[i])
    ensures forall i :: 0 <= i < |outs| && (i >= |shapes| || !outs[i].PlainTensor?) ==> padded[i] == outs[i]
  {
    padded := [];
    for idx := 0 to |outs|
      invariant |padded| == idx
      invariant forall i :: 0 <= i < idx ==> padded[i] == WrappedResult(outs[i], i, shapes)
    {
      var out := outs[idx];
      if out.PlainTensor? && idx < |shapes| {
        var ms := Ones(|out.physical|);
        var t := new PaddedTensor(out.physical, ms, Some(shapes[idx]), 0);
        PaddedShapeOnes(out.physical, ms);
        padded := padded + [Wrapped(Naturals(t.tensorShape), t.origShape)];
      } else {
        padded := padded + [out];
      }
    }
    forall i | 0 <= i < |outs| && i < |shapes| && outs[i].PlainTensor?
      ensures padded[i] == Wrapped(outs[i].physical, shapes[i])
    {
      PaddedShapeOnes(outs[i].physical, Ones(|outs[i].physical|));
    }
  }

  /** Unwrapping the wrapped results gives back what the kernel returned,
      for results with no padded tensor inside. */
  lemma UnwrapAfterWrapResults(outs: seq<Operand>, shapes: seq<Shape>)
    requires forall i :: 0 <= i < |outs| ==> Bare(outs[i])
    ensures UnwrappedArgs(WrappedResults(outs, shapes)) == outs
  {
    forall i | 0 <= i < |outs|
      ensures Unwrapped(WrappedResult(outs[i], i, shapes)) == outs[i]
    {
      UnwrappedIsBare(outs[i]);
      if outs[i].PlainTensor? {
        PaddedShapeOnes(outs[i].physical, Ones(|outs[i].physical|));
      }
    }
  }

  // ---------------------------------------------------------------------
  // __torch_dispatch__

  /** The outcome of dispatching `op`: the lookup fails first, then the
      shape inference on the converted arguments; otherwise the kernel's
      flattened outputs, wrapped with the inferred shapes. */
  function Dispatch(table: map<string, Rule>, op: string, args: seq<Operand>, kernel: seq<Operand> -> seq<Operand>): (r: Result<seq<Operand>>)
    ensures op !in table ==> r == Err(UnsupportedOperation(op))
    ensures op in table ==> (r.Ok? <==> Infer(table[op], ConvertedArgs(args)).Ok?)
    ensures r.Ok? ==> |r.value| == |kernel(UnwrappedArgs(args))|
  {
    var rule :- LookupIn(table, op);
    var converted := ConvertedArgs(args);
    var shapes :- Infer(rule, converted);
    ConversionInvisibleToKernel(args);
    var outs := kernel(UnwrappedArgs(converted));
    Ok(WrappedResults(outs, shapes))
  }

  /** Every plain tensor the kernel returns at a position with an inferred
      shape comes back padded with exactly that logical shape and its own
      buffer; the kernel is called on the arguments' buffers. */
  lemma DispatchPairsShapes(table: map<string, Rule>, op: string, args: seq<Operand>, kernel: seq<Operand> -> seq<Operand>, idx: nat)
    requires op in table
    requires Infer(table[op], ConvertedArgs(args)).Ok?
    requires idx < |kernel(UnwrappedArgs(args))|
    ensures Dispatch(table, op, args, kernel).Ok?
    ensures var out := kernel(UnwrappedArgs(args))[idx];
      var shapes := Infer(table[op], ConvertedArgs(args)).value;
      Dispatch(table, op, args, kernel).value[idx] ==
        if out.PlainTensor? && idx < |shapes| then Wrapped(out.physical, shapes[idx]) else out
  {
    ConversionInvisibleToKernel(args);
    var out := kernel(UnwrappedArgs(args))[idx];
    if out.PlainTensor? {
      PaddedShapeOnes(out.physical, Ones(|out.physical|));
    }
  }

  /** `PaddedTensor.__torch_dispatch__` against the op table. */
  method DispatchCall(table: OpTable, op: string, args: seq<Operand>, kernel: seq<Operand> -> seq<Operand>)
    returns (r: Result<seq<Operand>>)
    ensures r == Dispatch(table.entries, op, args, kernel)
  {
    var rule :- table.Lookup(op);
    var padded := ConvertTensorArgs(args);
    var shapes :- InferShapes(rule, padded);
    var tensorArgs := UnwrappedArgs(padded);
    var outs := kernel(tensorArgs);
    var results := ConvertTensorResults(outs, shapes);
    r := Ok(results);
  }

  /** An op the table lacks raises before anything else happens, whatever
      the arguments: an unregistered name on the table the decorators
      build. */
  lemma DispatchUnregistered(args: seq<Operand>, kernel: seq<Operand> -> seq<Operand>)
    ensures Dispatch(RegisterAll(map[], Registrations()), "conv2d", args, kernel) == Err(UnsupportedOperation("conv2d"))
  {
    PaddedOpTableMiss();
  }
}
