/**
 * The persisted unit of a distributed bucket. Its byte encoding and the token arithmetic inside it
 * belong to code outside this model, so the configuration and the token state are left abstract:
 * all the modelled operations need is to carry them around and compare them.
 */
module RemoteState {

  /** The immutable list of bandwidth limits of one bucket. */
  type BucketConfiguration(==)

  /** The per-bandwidth token counts and refill timestamps. */
  type BucketState(==)

  /** What the backend stores under a bucket's key: its configuration together with its token state. */
  datatype RemoteBucketState = RemoteBucketState(configuration: BucketConfiguration, state: BucketState)

  /** A Java `byte`. */
  type byte = x: int | -128 <= x < 128

  type Bytes = seq<byte>
}
