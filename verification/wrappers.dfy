/** Optional values, standing in for the source's nullable results and boolean-plus-out-parameter pairs. */
module Wrappers {

  datatype Option<+T> = None | Some(value: T)
}
