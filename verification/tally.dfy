/**
 * The deleted-row count reported after a batch DELETE: the positive entries
 * of the driver's executeBatch result array, summed in a Java `int`.
 */
module BatchTally {

  newtype int32 = x: int | -0x8000_0000 <= x < 0x8000_0000

  const MAX_INT: int := 0x7fff_ffff
  const MIN_INT: int := -0x8000_0000

  /** Statement.SUCCESS_NO_INFO: the entry ran but the driver does not know how many rows it touched. */
  const SUCCESS_NO_INFO: int32 := -2

  /** Java `int` addition: the mathematical sum wrapped into 32 bits. */
  function Add32(a: int32, b: int32): (r: int32)
    ensures (r as int - (a as int + b as int)) % 0x1_0000_0000 == 0
  {
    var s := a as int + b as int;
    if s > MAX_INT then (s - 0x1_0000_0000) as int32
    else if s < MIN_INT then (s + 0x1_0000_0000) as int32
    else s as int32
  }

  /** The exact number of rows the batch reports deleted: its positive entries, summed. */
  function SumPositive(results: seq<int32>): (r: nat)
    ensures r == 0 <==> forall i :: 0 <= i < |results| ==> results[i] <= 0
  {
    if results == [] then 0
    else
      var last := results[|results| - 1];
      SumPositive(results[..|results| - 1]) + (if last > 0 then last as int else 0)
  }

  /** The same sum as the handler's loop computes it, in a Java `int`. */
  function JavaTally(results: seq<int32>): (r: int32)
    ensures (r as int - SumPositive(results)) % 0x1_0000_0000 == 0
  {
    if results == [] then 0
    else
      var last := results[|results| - 1];
      var before := JavaTally(results[..|results| - 1]);
      if last > 0 then
        var r := Add32(before, last);
        ModSum(r as int - (before as int + last as int), before as int - SumPositive(results[..|results| - 1]));
        r
      else before
  }

  /** The sum of two multiples of 2^32 is one. */
  lemma ModSum(a: int, b: int)
    requires a % 0x1_0000_0000 == 0 && b % 0x1_0000_0000 == 0
    ensures (a + b) % 0x1_0000_0000 == 0
  {
    var m := 0x1_0000_0000;
    assert a == (a / m) * m && b == (b / m) * m;
    assert a + b == (a / m + b / m) * m;
  }

  /** The loop over executeBatch's result array. */
  method DeletedCount(results: array<int32>) returns (deleted: int32)
    ensures deleted == JavaTally(results[..])
    ensures SumPositive(results[..]) <= MAX_INT ==> deleted as int == SumPositive(results[..])
  {
    deleted := 0;
    for i := 0 to results.Length
      invariant deleted == JavaTally(results[..i])
    {
      assert results[..i + 1][..i] == results[..i];
      if results[i] > 0 {
        deleted := Add32(deleted, results[i]);
      }
    }
    assert results[..results.Length] == results[..];
    if SumPositive(results[..]) <= MAX_INT {
      TallyExact(results[..]);
    }
  }

  /** While the true count fits in an `int`, the reported count is exactly the sum of the positive entries. */
  lemma {:induction false} TallyExact(results: seq<int32>)
    requires SumPositive(results) <= MAX_INT
    ensures JavaTally(results) as int == SumPositive(results)
  {
    if results != [] {
      TallyExact(results[..|results| - 1]);
    }
  }

  lemma {:induction false} SumPositiveAppend(a: seq<int32>, b: seq<int32>)
    ensures SumPositive(a + b) == SumPositive(a) + SumPositive(b)
  {
    if b == [] {
      assert a + b == a;
    } else {
      assert (a + b)[..|a + b| - 1] == a + b[..|b| - 1];
      SumPositiveAppend(a, b[..|b| - 1]);
    }
  }

  /** Zero counts and negative status codes leave both the count and the reported value as they were. */
  lemma NonPositiveIgnored(results: seq<int32>, code: int32)
    requires code <= 0
    ensures SumPositive(results + [code]) == SumPositive(results)
    ensures JavaTally(results + [code]) == JavaTally(results)
  {
    assert (results + [code])[..|results|] == results;
  }

  /** A positive entry adds its whole count. */
  lemma PositiveAdded(results: seq<int32>, count: int32)
    requires count > 0
    ensures SumPositive(results + [count]) == SumPositive(results) + count as int
  {
    assert (results + [count])[..|results|] == results;
  }

  /** A driver that answers SUCCESS_NO_INFO for every entry makes the handler report zero deletions. */
  lemma {:induction false} NoInfoReportsZero(results: seq<int32>)
    requires forall i :: 0 <= i < |results| ==> results[i] == SUCCESS_NO_INFO
    ensures SumPositive(results) == 0 && JavaTally(results) == 0
  {
    if results != [] {
      NoInfoReportsZero(results[..|results| - 1]);
    }
  }

  /** Deleting PK values "2" and "5" when only "2" exists: the driver answers [1, 0] and one row is reported. */
  lemma OneOfTwoDeleted()
    ensures JavaTally([1, 0]) == 1
  {
    assert [1, 0][..1] == [1 as int32];
    assert [1 as int32][..0] == [];
  }

  /** Past 2^31 - 1 deleted rows the Java `int` wraps and the reported count turns negative. */
  lemma TallyWraps()
    ensures JavaTally([0x7fff_ffff, 1]) as int == MIN_INT
  {
    assert [0x7fff_ffff as int32, 1][..1] == [0x7fff_ffff as int32];
    assert [0x7fff_ffff as int32][..0] == [];
  }
}
