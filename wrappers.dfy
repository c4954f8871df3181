/** Optional values: the model of a C# `null`-able reference. */
module Wrappers {

  datatype Option<+T> = None | Some(value: T)
}
