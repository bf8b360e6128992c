/** Values shared by every component: bytes, optional values and Go's
    error returns. */
module Base {

  /** One octet of an HTTP body. */
  newtype byte = b: int | 0 <= b < 256

  datatype Option<+T> = None | Some(value: T)

  /** The errors the core reports. The ones raised by code outside the
      model (I/O, compressors) carry an opaque reason. */
  datatype Error =
    | BadPattern(expr: string)   // regexp.Compile refused a pattern
    | Failure(reason: string)    // an I/O or codec failure from a library

  /** A Go `(value, error)` pair in which exactly one half is meaningful. */
  datatype Result<+T> = Ok(value: T) | Err(error: Error)
}
