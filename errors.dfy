/** Failure values for the exceptions the modelled code raises.
    A raised Python exception becomes an `Err`/`Fail` value that the caller
    propagates, so every error path of the source is visible in the model. */
module Errors {

  datatype Error =
    | IndexError                 // a Python list/bytes index out of range
    | OverflowError              // int.to_bytes on a value that does not fit
    | AssertionFailed            // a failing `assert` statement
    | GZipChunkData              // region.py: gzip-compressed chunk
    | DecodeError                // zlib or NBT: a payload that does not decode
    | FileNotFound               // a region file that cannot be opened
    | OutOfBoundsCoordinates     // empty_chunk.py: x, y or z out of range
    | EmptySectionAlreadyExists  // empty_chunk.py: add_section without replace
    | WorldUndefined             // mcblock.py: no world path
    | RadiusUndefined            // mcblock.py: radius 0
    | TargetUndefined            // mcblock.py: neither coords nor region
    | RadiusTooLarge             // mcblock.py: radius over 200

  datatype Result<+T> = Ok(value: T) | Err(error: Error)

  datatype Outcome = Pass | Fail(error: Error)

  datatype Option<+T> = None | Some(value: T)
}
