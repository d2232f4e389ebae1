/** Optional values: what a line handler dispatches, and a field of a parsed
    JSON document that may be missing. */
module Wrappers {

  datatype Option<+T> = None | Some(value: T)
}
