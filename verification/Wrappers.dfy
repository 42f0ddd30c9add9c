/** Optional values, for what the program leaves nil or reports as an error. */
module Wrappers {

  datatype Option<+T> = None | Some(value: T)
}
