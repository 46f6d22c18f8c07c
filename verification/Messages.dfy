/**
 The messages of the two packet interfaces.  An optional field is an Option; a field read
 through its accessor while unset yields the default of its protocol definition.
 */
module Messages {
  import opened Wrappers

  const TWO_TO_THE_32 := 0x1_0000_0000

  type uint32 = n: int | 0 <= n < TWO_TO_THE_32

  /** The cast of a count to 32 bits. */
  function Truncated(n: nat): (r: uint32)
    ensures n < TWO_TO_THE_32 ==> r == n
  {
    n % TWO_TO_THE_32
  }

  /** Counts that differ by a multiple of two to the 32 have one cast. */
  lemma TruncatedWraps(n: nat, k: nat)
    ensures Truncated(n + k * 4294967296) == Truncated(n)
  {
  }

  lemma TruncatedSum(a: nat, b: nat)
    ensures Truncated(Truncated(a) + b) == Truncated(a + b)
  {
  }

  type Bytes = seq<bv8>

  const NANOS_PER_SECOND := 1_000_000_000

  type Nanos = n: int | 0 <= n < NANOS_PER_SECOND

  datatype Timestamp = Timestamp(seconds: int, nanos: Nanos)

  /** The import and the cache interface declare the same four fields. */
  datatype StreamIdentifier = StreamIdentifier(
    network: Option<string>,
    station: Option<string>,
    channel: Option<string>,
    locationCode: Option<string>)

  /** What the accessor of an unset identifier yields. */
  const EMPTY_IDENTIFIER := StreamIdentifier(None, None, None, None)

  /** Enumerations are open: a value outside the declared ones is Unrecognized. */
  datatype ImportType = ImportUnknown | ImportInteger32 | ImportFloat | ImportDouble | ImportText
                      | ImportInteger64 | Unrecognized(number: int)

  datatype CacheType = Unknown | Integer32 | Float | Double | Integer64

  datatype ImportPacket = ImportPacket(
    streamIdentifier: Option<StreamIdentifier>,
    startTime: Option<Timestamp>,
    samplingRate: Option<real>,
    dataType: Option<ImportType>,
    numberOfSamples: Option<uint32>,
    data: Option<Bytes>)
  {
    function Identifier(): StreamIdentifier { streamIdentifier.GetOr(EMPTY_IDENTIFIER) }
    function Rate(): real { samplingRate.GetOr(0.0) }
    function Samples(): uint32 { numberOfSamples.GetOr(0) }
    function Type(): ImportType { dataType.GetOr(ImportUnknown) }
  }

  /** Conversion sets every field, so none is optional here. */
  datatype CachePacket = CachePacket(
    startTime: Timestamp,
    samplingRate: real,
    dataType: CacheType,
    numberOfSamples: uint32,
    data: Bytes)
}
