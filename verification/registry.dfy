/** The op table: registration of each rule under its aten op names, and
    lookup, which raises for a name that was never registered. */
module Registry {
  import opened Base
  import opened Rules

  /** `table` with every name of `names` mapped to `rule`. */
  function Registered(table: map<string, Rule>, names: seq<string>, rule: Rule): (r: map<string, Rule>)
    ensures forall n :: n in names ==> n in r && r[n] == rule
    ensures forall n :: n !in names ==> (n in r <==> n in table)
    ensures forall n :: n !in names && n in table ==> r[n] == table[n]
  {
    table + map n | n in names :: rule
  }

  /** PADDED_OP_TABLE. */
  class OpTable {
    var entries: map<string, Rule>

    constructor ()
      ensures entries == map[]
    {
      entries := map[];
    }

    /** register_func: each name is bound to the rule, replacing any earlier
        binding; every other binding is kept. */
    method Register(names: seq<string>, rule: Rule)
      modifies this
      ensures entries == Registered(old(entries), names, rule)
    {
      for i := 0 to |names|
        invariant entries == Registered(old(entries), names[..i], rule)
      {
        RegisteredStep(old(entries), names, i, rule);
        entries := entries[names[i] := rule];
      }
      assert names[..|names|] == names;
    }

    /** `PADDED_OP_TABLE[name]` guarded by the membership test of
        `__torch_dispatch__`. */
    method Lookup(op: string) returns (r: Result<Rule>)
      ensures r == LookupIn(entries, op)
    {
      if op !in entries {
        return Err(UnsupportedOperation(op));
      }
      r := Ok(entries[op]);
    }
  }

  lemma RegisteredStep(table: map<string, Rule>, names: seq<string>, i: nat, rule: Rule)
    requires i < |names|
    ensures Registered(table, names[..i + 1], rule) == Registered(table, names[..i], rule)[names[i] := rule]
  {
    var a := Registered(table, names[..i + 1], rule);
    var b := Registered(table, names[..i], rule)[names[i] := rule];
    assert names[..i + 1] == names[..i] + [names[i]];
    assert forall n :: n in names[..i + 1] <==> n in names[..i] || n == names[i];
    assert forall n :: n in a <==> n in b;
    assert forall n :: n in a ==> a[n] == b[n];
  }

  function LookupIn(table: map<string, Rule>, op: string): (r: Result<Rule>)
    ensures r.Ok? <==> op in table
    ensures r.Ok? ==> r.value == table[op]
    ensures r.Err? ==> r.error == UnsupportedOperation(op)
  {
    if op in table then Ok(table[op]) else Err(UnsupportedOperation(op))
  }

  /** The names each op class registers, in the order of the decorators. */
  function Registrations(): seq<(seq<string>, Rule)> {
    [ (["ones_like"], OnesLike),
      (["view", "_unsafe_view", "view_as_real"], View),
      (["unsqueeze"], Unsqueeze),
      (["polar"], Polar),
      (["transpose"], Transpose),
      (["expand"], Expand),
      (["clone", "where", "tril", "sin", "rsqrt", "silu"], ElementwiseUnary),
      (["add", "sub", "mul", "div"], ElementwiseBinary),
      (["addmm"], AddMm),
      (["mm"], Matmul),
      (["bmm"], Bmm),
      (["_scaled_dot_product_flash_attention", "_scaled_dot_product_efficient_attention"], ScaledDotProductAttention),
      (["index"], Index),
      (["select"], Select),
      (["index_put_"], IndexPut),
      (["split_with_sizes"], SplitWithSizes),
      (["stack"], Stack),
      (["detach"], Detach),
      (["embedding"], Embedding),
      (["slice", "unbind", "_to_copy", "copy_", "mean", "t", "sum", "pow"], NoOp) ]
  }

  /** The table after the registrations `regs`, applied in order. */
  function RegisterAll(table: map<string, Rule>, regs: seq<(seq<string>, Rule)>): map<string, Rule>
    decreases |regs|
  {
    if regs == [] then table else RegisterAll(Registered(table, regs[0].0, regs[0].1), regs[1..])
  }

  /** Apply the registrations `regs` to `table`, in order. */
  method RegisterEach(table: OpTable, regs: seq<(seq<string>, Rule)>)
    modifies table
    ensures table.entries == RegisterAll(old(table.entries), regs)
  {
    for i := 0 to |regs|
      invariant RegisterAll(table.entries, regs[i..]) == RegisterAll(old(table.entries), regs)
    {
      assert regs[i..][0] == regs[i] && regs[i..][1..] == regs[i + 1..];
      table.Register(regs[i].0, regs[i].1);
    }
    assert regs[|regs|..] == [];
  }

  /** The decorators run at import time: build the table. */
  method BuildPaddedOpTable() returns (table: OpTable)
    ensures fresh(table)
    ensures table.entries == RegisterAll(map[], Registrations())
  {
    table := new OpTable();
    RegisterEach(table, Registrations());
  }

  /** Registrations never bind one name to two rules, so the table binds
      each registered name to its class's rule whatever the order, and
      binds nothing else. */
  lemma {:induction false} RegisterAllBinds(table: map<string, Rule>, regs: seq<(seq<string>, Rule)>, i: nat, n: string)
    requires i < |regs| && n in regs[i].0
    requires forall j :: 0 <= j < |regs| && j != i ==> n !in regs[j].0
    ensures n in RegisterAll(table, regs) && RegisterAll(table, regs)[n] == regs[i].1
    decreases |regs|
  {
    if i == 0 {
      RegisterAllKeeps(Registered(table, regs[0].0, regs[0].1), regs[1..], n);
    } else {
      RegisterAllBinds(Registered(table, regs[0].0, regs[0].1), regs[1..], i - 1, n);
    }
  }

  lemma {:induction false} RegisterAllKeeps(table: map<string, Rule>, regs: seq<(seq<string>, Rule)>, n: string)
    requires forall j :: 0 <= j < |regs| ==> n !in regs[j].0
    ensures n in RegisterAll(table, regs) <==> n in table
    ensures n in table ==> RegisterAll(table, regs)[n] == table[n]
    decreases |regs|
  {
    if regs != [] {
      RegisterAllKeeps(Registered(table, regs[0].0, regs[0].1), regs[1..], n);
    }
  }

  /** The three view names share the view rule. */
  lemma PaddedOpTableView()
    ensures LookupIn(RegisterAll(map[], Registrations()), "view") == Ok(View)
  {
    RegisterAllBinds(map[], Registrations(), 1, "view");
  }

  lemma PaddedOpTableAddMm()
    ensures LookupIn(RegisterAll(map[], Registrations()), "addmm") == Ok(AddMm)
  {
    RegisterAllBinds(map[], Registrations(), 8, "addmm");
  }

  /** A name no decorator registers is missing from the table. */
  lemma PaddedOpTableMiss()
    ensures LookupIn(RegisterAll(map[], Registrations()), "conv2d") == Err(UnsupportedOperation("conv2d"))
  {
    RegisterAllKeeps(map[], Registrations(), "conv2d");
  }
}
