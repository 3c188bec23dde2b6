/** Option and Result: the model's stand-ins for Python's `None` and for
    raised exceptions. */
module Wrappers {

  datatype Option<+T> = None | Some(value: T)

  datatype Result<+R, +E> = Ok(value: R) | Err(error: E)
}

/** Octets, as Python's `bytes` holds them. */
module Bytes {

  type byte = b: int | 0 <= b < 256
}
