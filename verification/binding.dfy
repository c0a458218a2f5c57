/**
 * Parameter binding: the PreparedStatement.setString calls each operation
 * makes, as the sequence of (1-based index, value) pairs handed to the driver.
 */
module Binding {
  import opened Outcomes
  import opened Rows

  /** One setString call. */
  datatype Bind = Bind(index: nat, value: string)

  function ValuesOf(binds: seq<Bind>): seq<string>
  {
    seq(|binds|, i requires 0 <= i < |binds| => binds[i].value)
  }

  /** The i-th call sets parameter i + 1: parameters are filled left to right, none skipped. */
  predicate InOrder(binds: seq<Bind>)
  {
    forall i :: 0 <= i < |binds| ==> binds[i].index == i + 1
  }

  /** The statement's parameters after the calls; a later call on the same index wins. */
  function Parameters(binds: seq<Bind>): map<nat, string>
  {
    if binds == [] then map[]
    else
      var last := binds[|binds| - 1];
      Parameters(binds[..|binds| - 1])[last.index := last.value]
  }

  /**
   * Calls made in order set exactly the parameters 1..n, parameter i to the
   * i-th value: every placeholder of an n-placeholder statement gets a value.
   */
  lemma {:induction false} InOrderParameters(binds: seq<Bind>)
    requires InOrder(binds)
    ensures forall i :: i in Parameters(binds) <==> 1 <= i <= |binds|
    ensures forall i :: 1 <= i <= |binds| ==> Parameters(binds)[i] == ValuesOf(binds)[i - 1]
  {
    if binds != [] {
      var init := binds[..|binds| - 1];
      InOrderParameters(init);
      assert ValuesOf(binds)[..|binds| - 1] == ValuesOf(init);
    }
  }

  /** INSERT: values[i] goes to parameter i + 1. */
  method BindInsert(values: seq<string>) returns (binds: seq<Bind>)
    ensures InOrder(binds) && ValuesOf(binds) == values
  {
    binds := [];
    for i := 0 to |values|
      invariant |binds| == i
      invariant forall k :: 0 <= k < i ==> binds[k] == Bind(k + 1, values[k])
    {
      binds := binds + [Bind(i + 1, values[i])];
    }
  }

  /** UPDATE: every new value in order, then the original primary-key value in the next parameter. */
  method BindUpdate(values: seq<string>, pkValue: string) returns (binds: seq<Bind>)
    ensures InOrder(binds) && ValuesOf(binds) == values + [pkValue]
  {
    binds := [];
    var paramIndex := 1;
    for i := 0 to |values|
      invariant paramIndex == i + 1 && |binds| == i
      invariant forall k :: 0 <= k < i ==> binds[k] == Bind(k + 1, values[k])
    {
      binds := binds + [Bind(paramIndex, values[i])];
      paramIndex := paramIndex + 1;
    }
    binds := binds + [Bind(paramIndex, pkValue)];
    assert ValuesOf(binds) == values + [pkValue];
  }

  /**
   * Batch DELETE: one addBatch entry per chosen row, in order, each setting
   * parameter 1 to the row's first cell. A row without cells aborts the whole
   * batch before anything is sent (the cell lookup throws).
   */
  method BindBatch(chosen: seq<RowData>) returns (r: Option<seq<seq<Bind>>>)
    ensures r.Some? <==> forall i :: 0 <= i < |chosen| ==> |chosen[i].data| > 0
    ensures r.Some? ==> |r.value| == |chosen|
    ensures r.Some? ==> forall i :: 0 <= i < |chosen| ==> r.value[i] == [Bind(1, chosen[i].data[0])]
  {
    var entries: seq<seq<Bind>> := [];
    for i := 0 to |chosen|
      invariant |entries| == i
      invariant forall k :: 0 <= k < i ==> |chosen[k].data| > 0 && entries[k] == [Bind(1, chosen[k].data[0])]
    {
      if |chosen[i].data| == 0 {
        return None;
      }
      entries := entries + [[Bind(1, chosen[i].data[0])]];
    }
    r := Some(entries);
  }
}
