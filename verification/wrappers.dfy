/** Optional values: the generator's result is absent for nodes it does not render. */
module Wrappers {

  datatype Option<+T> = None | Some(value: T)
}
