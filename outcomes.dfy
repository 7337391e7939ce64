/** Optional values and success-or-error results, used for SQL rows that may be
    absent, nullable columns, and the HTTP handlers' error paths. */
module Outcomes {

  datatype Option<+T> = None | Some(value: T)

  datatype Result<+T, +E> = Ok(value: T) | Err(error: E)
}
