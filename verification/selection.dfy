/**
 * The "select all" header of the delete view: a three-state summary of the
 * rows' selection flags, recomputed after every toggle.
 */
module Selection {

  datatype Summary = AllSelected | NoneSelected | Indeterminate

  /** The header checkbox: its checked mark and its indeterminate (dash) mark. */
  datatype CheckBox = CheckBox(checked: bool, indeterminate: bool)

  predicate AllSet(flags: seq<bool>)
  {
    forall i :: 0 <= i < |flags| ==> flags[i]
  }

  predicate NoneSet(flags: seq<bool>)
  {
    forall i :: 0 <= i < |flags| ==> !flags[i]
  }

  /** The number of selected rows: stream().filter(isSelected).count(). */
  function CountSelected(flags: seq<bool>): (k: nat)
    ensures k <= |flags|
  {
    if flags == [] then 0
    else CountSelected(flags[..|flags| - 1]) + (if flags[|flags| - 1] then 1 else 0)
  }

  lemma {:induction false} CountSelectedAll(flags: seq<bool>)
    ensures CountSelected(flags) == |flags| <==> AllSet(flags)
  {
    if flags != [] {
      var init := flags[..|flags| - 1];
      CountSelectedAll(init);
      assert AllSet(flags) <==> AllSet(init) && flags[|flags| - 1] by {
        if AllSet(init) && flags[|flags| - 1] {
          forall i | 0 <= i < |flags| ensures flags[i] {
            if i < |flags| - 1 { assert flags[i] == init[i]; }
          }
        }
      }
    }
  }

  lemma {:induction false} CountSelectedNone(flags: seq<bool>)
    ensures CountSelected(flags) == 0 <==> NoneSet(flags)
  {
    if flags != [] {
      var init := flags[..|flags| - 1];
      CountSelectedNone(init);
      assert NoneSet(flags) <==> NoneSet(init) && !flags[|flags| - 1] by {
        if NoneSet(init) && !flags[|flags| - 1] {
          forall i | 0 <= i < |flags| ensures !flags[i] {
            if i < |flags| - 1 { assert flags[i] == init[i]; }
          }
        }
      }
    }
  }

  /**
   * The classification updateSelectAllCheckbox makes from the count, and what
   * each summary means on the flags themselves.
   */
  function Classify(flags: seq<bool>): (r: Summary)
    ensures r == AllSelected <==> |flags| > 0 && AllSet(flags)
    ensures r == NoneSelected <==> NoneSet(flags)
    ensures r == Indeterminate <==> !AllSet(flags) && !NoneSet(flags)
  {
    CountSelectedAll(flags);
    CountSelectedNone(flags);
    var k := CountSelected(flags);
    if |flags| == 0 then NoneSelected
    else if k == |flags| then AllSelected
    else if k == 0 then NoneSelected
    else Indeterminate
  }

  /**
   * The new state of the header checkbox. An empty table and a table with no
   * row selected clear it; all rows selected check it; a mixed selection sets
   * the indeterminate mark and leaves the checked mark as it was.
   */
  function RefreshSelectAll(flags: seq<bool>, box: CheckBox): (r: CheckBox)
    ensures r.indeterminate <==> !AllSet(flags) && !NoneSet(flags)
    ensures !r.indeterminate ==> (r.checked <==> |flags| > 0 && AllSet(flags))
    ensures r.indeterminate ==> r.checked == box.checked
  {
    CountSelectedAll(flags);
    CountSelectedNone(flags);
    if |flags| == 0 then CheckBox(false, false)
    else
      var k := CountSelected(flags);
      if k == |flags| then CheckBox(true, false)
      else if k == 0 then CheckBox(false, false)
      else box.(indeterminate := true)
  }

  /** After the select-all action every flag equals the header's value. */
  lemma SelectAllSummary(n: nat, value: bool)
    ensures Classify(seq(n, _ => value)) == if n > 0 && value then AllSelected else NoneSelected
  {
    var flags := seq(n, _ => value);
    assert n > 0 ==> flags[0] == value;
  }

  /** Clearing one row of a fully selected table of two or more rows makes the header indeterminate. */
  lemma DeselectOneOfAll(flags: seq<bool>, k: nat)
    requires |flags| >= 2 && k < |flags| && AllSet(flags)
    ensures Classify(flags[k := false]) == Indeterminate
  {
    var after := flags[k := false];
    var other := if k == 0 then 1 else 0;
    assert after[other] && !after[k];
  }

  /** Selecting one row of an unselected table of two or more rows makes the header indeterminate. */
  lemma SelectOneOfNone(flags: seq<bool>, k: nat)
    requires |flags| >= 2 && k < |flags| && NoneSet(flags)
    ensures Classify(flags[k := true]) == Indeterminate
  {
    var after := flags[k := true];
    var other := if k == 0 then 1 else 0;
    assert !after[other] && after[k];
  }
}
