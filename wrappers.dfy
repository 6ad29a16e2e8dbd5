/** Optional values, used for the panic (if any) that a run reaches first. */
module Wrappers {
  datatype Option<+T> = None | Some(value: T)
}
