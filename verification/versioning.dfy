/** Format versions written ahead of every serialized payload, and the range check readers apply to them. */
module Versioning {
  import opened Wrappers
  import opened JavaInt
  import opened Errors

  /** A release of the wire format, identified by its number. */
  datatype Version = Version(number: int32)

  /** The format of release 5.0.0, the first (and for the modelled types the only) one. */
  const V_5_0_0: Version := Version(1)

  /**
   * `Versions.check(formatNumber, min, max)`: accepts exactly the format numbers from `min` through
   * `max`, and rejects every other one with the number it saw and the bounds it expected.
   */
  function Check(formatNumber: int32, min: Version, max: Version): (r: Result<(), Error>)
    ensures r.Success? <==> min.number <= formatNumber <= max.number
    ensures r.Failure? ==> r.error == IncompatibleVersion(formatNumber, min.number, max.number)
  {
    if formatNumber < min.number || formatNumber > max.number then
      Failure(IncompatibleVersion(formatNumber, min.number, max.number))
    else
      Success(())
  }
}
