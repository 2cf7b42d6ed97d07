/** Optional values and the outcome of a request to the HTTP API. */
module Wrappers {

  /** A value that may be absent (`undefined` / `null` in the client). */
  datatype Option<+T> = None | Some(value: T)

  /** The outcome of one awaited API call: the parsed JSON body, or a thrown error.
      The error's details only reach the console, so they are not modelled. */
  datatype Fetch<+T> = Ok(value: T) | Failed
}
