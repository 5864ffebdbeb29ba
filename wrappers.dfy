/** Optional values, and the three ways a key of a JSON object can read. */
module Wrappers {

  datatype Option<+T> = None | Some(value: T)

  /** A key of a JSON object: missing, present with `null`, or present with a value.
      `dict.get(key, default)` gives the default only for a missing key; a `null`
      comes back as `None`. */
  datatype Entry<+T> = Absent | Null | Present(value: T)
}
