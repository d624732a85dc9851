/**
 * The table-driven test of the conversion: a list of named rows, each an
 * input record and the wanted result, run one after another. A row fails
 * when the converted input is not deeply equal to the wanted result; a
 * failing row is reported and the remaining rows still run.
 */
module ThroughputTable {
  import opened Optional
  import opened Throughput

  /** One row of the table: its subtest name, the input and the wanted result. */
  datatype TestCase = TestCase(
    name: string,
    input: Option<ProvisionedThroughput>,
    want: Option<SdkProvisionedThroughput>)

  /**
   * Deep equality of the two records. Both are values here, so structural
   * equality is the whole comparison and no result can alias its input.
   */
  predicate Passes(tc: TestCase) {
    NewSdkProvisionedThroughput(tc.input) == tc.want
  }

  /** The four rows of the table, in order. */
  const Cases: seq<TestCase> := [
    TestCase("provisioned throughput is  nil", None, None),
    TestCase(
      "provisioned throughput is not nil, read capacity units is nil",
      Some(ProvisionedThroughput(None, Some(10))),
      Some(SdkProvisionedThroughput(Some(1), Some(10)))),
    TestCase(
      "provisioned throughput is not nil, write capacity units is nil",
      Some(ProvisionedThroughput(Some(10), None)),
      Some(SdkProvisionedThroughput(Some(10), Some(1)))),
    TestCase(
      "provisioned throughput is not nil, write and read capacity units are not nil",
      Some(ProvisionedThroughput(Some(5), Some(5))),
      Some(SdkProvisionedThroughput(Some(5), Some(5))))
  ]

  /**
   * The names of the failing rows, one entry per failing row, in table
   * order. A name appears exactly when some row of that name fails.
   */
  function FailedNames(tests: seq<TestCase>): (r: seq<string>)
    ensures |r| <= |tests|
    ensures forall n :: n in r ==> exists i :: 0 <= i < |tests| && tests[i].name == n && !Passes(tests[i])
    ensures forall i :: 0 <= i < |tests| && !Passes(tests[i]) ==> tests[i].name in r
    ensures r == [] <==> forall i :: 0 <= i < |tests| ==> Passes(tests[i])
  {
    if tests == [] then []
    else
      var init := tests[..|tests| - 1];
      var last := tests[|tests| - 1];
      assert forall i :: 0 <= i < |init| ==> init[i] == tests[i];
      FailedNames(init) + (if Passes(last) then [] else [last.name])
  }

  /** A one-row table reports that row's name exactly when the row fails. */
  lemma FailedNamesOfOneRow(t: TestCase)
    ensures FailedNames([t]) == (if Passes(t) then [] else [t.name])
  {
  }

  /**
   * The report of two tables run one after the other is the first table's
   * report followed by the second's: each failing row adds its own entry,
   * in table order.
   */
  lemma {:induction false} FailedNamesOfConcat(a: seq<TestCase>, b: seq<TestCase>)
    ensures FailedNames(a + b) == FailedNames(a) + FailedNames(b)
    decreases |b|
  {
    if b == [] {
      assert a + b == a;
    } else {
      var init := b[..|b| - 1];
      assert (a + b)[..|a + b| - 1] == a + init;
      assert (a + b)[|a + b| - 1] == b[|b| - 1];
      FailedNamesOfConcat(a, init);
    }
  }

  /**
   * Runs every row, in order, and reports each failing row by name; a
   * failure does not stop the rows after it.
   */
  method RunTable(tests: seq<TestCase>) returns (failed: seq<string>)
    ensures failed == FailedNames(tests)
  {
    failed := [];
    var k := 0;
    while k < |tests|
      invariant 0 <= k <= |tests|
      invariant failed == FailedNames(tests[..k])
    {
      var got := NewSdkProvisionedThroughput(tests[k].input);
      if got != tests[k].want {
        failed := failed + [tests[k].name];
      }
      assert tests[..k + 1][..k] == tests[..k];
      k := k + 1;
    }
    assert tests[..k] == tests;
  }

  /** Every row's wanted result is the one the conversion's contract admits. */
  lemma RowsAreInstancesOfTheContract()
    ensures forall i :: 0 <= i < |Cases| ==> !BothAbsent(Cases[i].input) && Conforms(Cases[i].input, Cases[i].want)
  {
  }

  /** Every row's converted input is deeply equal to its wanted result. */
  lemma EveryRowPasses()
    ensures forall i :: 0 <= i < |Cases| ==> Passes(Cases[i])
  {
  }

  /** `Test_newSDKProvisionedThroughput`: the whole table, reporting no failure. */
  method TestNewSdkProvisionedThroughput() returns (failed: seq<string>)
    ensures failed == []
  {
    failed := RunTable(Cases);
    EveryRowPasses();
  }
}
