/** The error taxonomy of niffler (src/error.rs) and the result type its
    fallible operations return. */
module Errors {

  /** What an underlying `std::io::Error` reports; kept as the cause of `IOError`. */
  datatype IoKind =
    | UnexpectedEof   // the stream ended before the requested bytes arrived
    | Transport       // the transport itself failed while reading
    | Unseekable      // the stream refused to seek
    | CodecInit       // a codec library could not set up its stream

  /** `niffler::Error`: a disabled codec, a stream too short to classify, or a
      wrapped I/O error. */
  datatype Error =
    | FeatureDisabled
    | FileTooShort
    | IOError(cause: IoKind)

  datatype Result<+T, +E> = Ok(value: T) | Err(error: E)
}
