/** The "no data" outcome that every swallowed exception of the fetcher collapses to. */
module Wrappers {
  datatype Option<+T> = None | Some(value: T)
}
