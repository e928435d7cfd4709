/** The exceptions the modelled code can raise, as values. */
module Errors {

  datatype Error =
      /** `Objects.requireNonNull` on an absent reference. */
    | NullReference
      /** `readInt` past the end of the input: the `IOException` of an exhausted stream. */
    | EndOfStream
      /** `Versions.check`: the format number read from the wire lies outside `[min, max]`. */
    | IncompatibleVersion(formatNumber: int, min: int, max: int)
}
