/** Optional values (a pandas NaN cell, Python's None) and outcomes that may
    fail (a Python exception that ends a script). */
module Outcomes {

  datatype Option<+T> = None | Some(value: T)

  datatype Result<+T, +E> = Ok(value: T) | Err(error: E)
}
