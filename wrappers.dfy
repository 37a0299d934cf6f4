/** Optional values and tagged results, the shape the dashboard uses for
    `undefined` and for its `{ ok: false, reason }` failures. */
module Wrappers {

  datatype Option<+T> = None | Some(value: T)

  datatype Result<+T, +E> = Ok(value: T) | Err(error: E)
}
