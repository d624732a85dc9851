/**
 * The conversion of a table's provisioned throughput from the controller's
 * own resource record (`v1alpha1.ProvisionedThroughput`) to the record the
 * DynamoDB service API takes (`types.ProvisionedThroughput`).
 *
 * Both records hold two optional capacity-unit counts, one for reads and one
 * for writes. The conversion keeps a nil record nil, copies every count that
 * is present, and fills a missing count with the service minimum of one unit.
 */
module Throughput {
  import opened Optional

  /** Go's `int64`, the type behind both records' `*int64` fields. */
  newtype Int64 = x: int | -0x8000_0000_0000_0000 <= x < 0x8000_0000_0000_0000

  /** The count a missing capacity is replaced by. */
  const DefaultCapacityUnits: Int64 := 1

  /** `v1alpha1.ProvisionedThroughput`: the controller's resource field. */
  datatype ProvisionedThroughput = ProvisionedThroughput(
    readCapacityUnits: Option<Int64>,
    writeCapacityUnits: Option<Int64>)

  /** `types.ProvisionedThroughput`: the service API's request field. */
  datatype SdkProvisionedThroughput = SdkProvisionedThroughput(
    readCapacityUnits: Option<Int64>,
    writeCapacityUnits: Option<Int64>)

  /** A non-nil record in which neither count is given. */
  predicate BothAbsent(pt: Option<ProvisionedThroughput>) {
    pt.Some? && pt.value.readCapacityUnits.None? && pt.value.writeCapacityUnits.None?
  }

  /**
   * What the conversion promises, stated relation-wise: nil stays nil; a
   * non-nil record yields a non-nil record in which every given count is
   * copied and, when the other count is given, the missing one is the
   * default. A record with neither count given is left unconstrained.
   */
  predicate Conforms(pt: Option<ProvisionedThroughput>, r: Option<SdkProvisionedThroughput>) {
    match pt
    case None => r.None?
    case Some(p) =>
      BothAbsent(pt) ||
      (&& r.Some?
       && (p.readCapacityUnits.Some? ==> r.value.readCapacityUnits == p.readCapacityUnits)
       && (p.writeCapacityUnits.Some? ==> r.value.writeCapacityUnits == p.writeCapacityUnits)
       && (p.readCapacityUnits.None? ==> r.value.readCapacityUnits == Some(DefaultCapacityUnits))
       && (p.writeCapacityUnits.None? ==> r.value.writeCapacityUnits == Some(DefaultCapacityUnits)))
  }

  /** The count a pointer holds, or `default` when the pointer is nil. */
  function Deref(p: Option<Int64>, default: Int64): Int64 {
    if p.Some? then p.value else default
  }

  /** `newSDKProvisionedThroughput`: each field is converted on its own. */
  function NewSdkProvisionedThroughput(pt: Option<ProvisionedThroughput>): (r: Option<SdkProvisionedThroughput>)
    ensures Conforms(pt, r)
  {
    match pt
    case None => None
    case Some(p) =>
      Some(SdkProvisionedThroughput(
        Some(Deref(p.readCapacityUnits, DefaultCapacityUnits)),
        Some(Deref(p.writeCapacityUnits, DefaultCapacityUnits))))
  }

  /** The relation leaves one answer for every input it constrains. */
  lemma ConformingResultIsUnique(pt: Option<ProvisionedThroughput>, r1: Option<SdkProvisionedThroughput>, r2: Option<SdkProvisionedThroughput>)
    requires !BothAbsent(pt)
    requires Conforms(pt, r1) && Conforms(pt, r2)
    ensures r1 == r2
  {
  }

  /** Hence the conversion is the only result the relation admits. */
  lemma ConversionIsTheConformingResult(pt: Option<ProvisionedThroughput>, r: Option<SdkProvisionedThroughput>)
    requires !BothAbsent(pt)
    ensures Conforms(pt, r) <==> r == NewSdkProvisionedThroughput(pt)
  {
  }

  /** A nil record converts to a nil record, and only a nil one does. */
  lemma NilIffNil(pt: Option<ProvisionedThroughput>)
    requires !BothAbsent(pt)
    ensures NewSdkProvisionedThroughput(pt).None? <==> pt.None?
  {
  }

  /** A missing read count becomes one unit; the given write count is kept. */
  lemma MissingReadDefaults(write: Int64)
    ensures NewSdkProvisionedThroughput(Some(ProvisionedThroughput(None, Some(write))))
         == Some(SdkProvisionedThroughput(Some(1), Some(write)))
  {
  }

  /** A missing write count becomes one unit; the given read count is kept. */
  lemma MissingWriteDefaults(read: Int64)
    ensures NewSdkProvisionedThroughput(Some(ProvisionedThroughput(Some(read), None)))
         == Some(SdkProvisionedThroughput(Some(read), Some(1)))
  {
  }

  /** With both counts given, the result holds them field for field. */
  lemma BothGivenAreCopied(p: ProvisionedThroughput)
    requires p.readCapacityUnits.Some? && p.writeCapacityUnits.Some?
    ensures NewSdkProvisionedThroughput(Some(p))
         == Some(SdkProvisionedThroughput(p.readCapacityUnits, p.writeCapacityUnits))
  {
  }

  /** A non-nil record with some count given never yields a nil count. */
  lemma NoNilCountInResult(p: ProvisionedThroughput)
    requires p.readCapacityUnits.Some? || p.writeCapacityUnits.Some?
    ensures NewSdkProvisionedThroughput(Some(p)).Some?
    ensures NewSdkProvisionedThroughput(Some(p)).value.readCapacityUnits.Some?
    ensures NewSdkProvisionedThroughput(Some(p)).value.writeCapacityUnits.Some?
  {
  }
}
