/** Optional values, for the fields a JSON object may lack and for results
    that may be absent. */
module Wrappers {
  datatype Option<+T> = None | Some(value: T)
}
