/** Optional values, standing in for java.util.Optional. */
module Wrappers {

  datatype Option<+T> = None | Some(value: T)
}
