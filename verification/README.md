# Provisioned-throughput conversion of the DynamoDB table controller

The DynamoDB controller for Kubernetes keeps a table's provisioned throughput
in its own resource type, `v1alpha1.ProvisionedThroughput`. Before it calls the
DynamoDB service, `newSDKProvisionedThroughput` turns that record into the
service API's `types.ProvisionedThroughput`. Both records hold two optional
`int64` counts: read capacity units and write capacity units. The conversion
behaves as follows:

- a nil record stays nil;
- a count that is given is copied unchanged;
- a count that is missing becomes the service minimum of one unit.

The Go function body is not part of this model. Its behaviour is fixed by the
table-driven test `Test_newSDKProvisionedThroughput`, and the model follows
that test. The project has three modules:

- `Optional` (`optional.dfy`) holds `Option`, which stands for a Go pointer
  that may be nil.
- `Throughput` (`throughput.dfy`) holds both records, with counts as
  `Option<Int64>` and `Int64` a newtype for Go's `int64`. It also holds the
  conversion. `Conforms` is a reference relation written from the test rows.
  It does not constrain a record in which neither count is given. Lemmas show
  that the conversion meets the relation, and that the relation allows exactly
  one result for every input it constrains.
- `ThroughputTable` (`throughput_table.dfy`) holds the test table: the four
  named rows, and the loop that runs each row and reports the failed ones by
  name, one entry per failing row, in table order. It also proves that every
  row passes. `reflect.DeepEqual` is Dafny's structural equality on
  datatypes. Records are values, so a result cannot alias its input.

## Model

| member | source | states |
|---|---|---|
| Throughput.NewSdkProvisionedThroughput | pkg/resource/table/hooks_global_secondary_indexes_test.go:22-67 | the result conforms to the tested contract: nil stays nil, given counts are copied, a missing count next to a given one is 1 |
| Throughput.ConformingResultIsUnique | pkg/resource/table/hooks_global_secondary_indexes_test.go:22-67 | except for a record with both counts missing, the tested contract allows only one result |
| Throughput.ConversionIsTheConformingResult | pkg/resource/table/hooks_global_secondary_indexes_test.go:22-67 | except for a record with both counts missing, a result meets the tested contract if and only if it is the conversion's result |
| Throughput.NilIffNil | pkg/resource/table/hooks_global_secondary_indexes_test.go:22-28 | except for a record with both counts missing, the result is nil exactly when the input record is nil |
| Throughput.MissingReadDefaults | pkg/resource/table/hooks_global_secondary_indexes_test.go:30-41 | for every write count w, a record with no read count and write count w converts to read 1 and write w |
| Throughput.MissingWriteDefaults | pkg/resource/table/hooks_global_secondary_indexes_test.go:43-54 | for every read count r, a record with read count r and no write count converts to read r and write 1 |
| Throughput.BothGivenAreCopied | pkg/resource/table/hooks_global_secondary_indexes_test.go:56-67 | with both counts given, the result equals the input field for field |
| Throughput.NoNilCountInResult | pkg/resource/table/hooks_global_secondary_indexes_test.go:30-67 | a non-nil record with at least one count given yields a non-nil result whose two counts are both present |
| ThroughputTable.FailedNames | pkg/resource/table/hooks_global_secondary_indexes_test.go:69-75 | the report holds no more entries than rows; a name is reported exactly when some row with that name is not deeply equal to its wanted value; the report is empty exactly when every row passes |
| ThroughputTable.FailedNamesOfOneRow | pkg/resource/table/hooks_global_secondary_indexes_test.go:70-74 | one row is reported, once and by its name, exactly when its result is not deeply equal to its wanted value |
| ThroughputTable.FailedNamesOfConcat | pkg/resource/table/hooks_global_secondary_indexes_test.go:69-75 | running two tables one after the other reports the first table's failures and then the second's, so each failing row adds one entry in table order |
| ThroughputTable.RunTable | pkg/resource/table/hooks_global_secondary_indexes_test.go:69-75 | every row runs and a failure does not stop the later rows; the method returns exactly the failing rows' names in table order, one per failing row |
| ThroughputTable.RowsAreInstancesOfTheContract | pkg/resource/table/hooks_global_secondary_indexes_test.go:17-68 | every row's wanted value is the result the tested contract allows for that row's input |
| ThroughputTable.EveryRowPasses | pkg/resource/table/hooks_global_secondary_indexes_test.go:69-75 | the conversion's result equals the wanted value in every row |
| ThroughputTable.TestNewSdkProvisionedThroughput | pkg/resource/table/hooks_global_secondary_indexes_test.go:13-76 | running the whole table reports no failing row |

## Left out

- Throughput.NewSdkProvisionedThroughput: a record with both counts missing converts to read 1 and write 1 in the model, because each field is filled independently. No test row covers this input, so the contract (`Conforms`) leaves it unconstrained and no lemma relies on it.
- Throughput.NewSdkProvisionedThroughput: given counts are copied whatever their value, including zero and negative counts. The tests only use 5 and 10, so they do not show whether the real function validates or replaces such values.
- The AWS SDK helpers (`aws.Int64`, the `types` package) are not modelled as library calls. A pointer to an `int64` is `Option<Int64>`.
- The Go function body of `newSDKProvisionedThroughput` is not part of this model. Its behaviour is taken from the table-driven test.
- `test/e2e/tests/test_table_replicas.py` is left out as a whole. It creates, patches and deletes custom resources through a live Kubernetes client. It queries DynamoDB through helpers that are not part of this model. It polls with wall-clock time and sleeps. None of this is self-contained logic.
- The terminal-condition scan in that file (lines 294-308) is left out as well. It searches a freshly fetched condition list for an `ACK.Terminal` entry whose status is `True`, then checks that entry's message. Its meaning depends on the live API response.
