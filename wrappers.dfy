/** Optional values, used for the volume output of a cycle and for a bus read
    that may be rejected. */
module Wrappers {
  datatype Option<+T> = None | Some(value: T)
}
