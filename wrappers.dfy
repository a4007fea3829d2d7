/** Optional values, for results the source reports through a `bool` and an out-parameter. */
module Wrappers {

  datatype Option<+T> = None | Some(value: T)

}
