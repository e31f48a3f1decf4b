/** Option, the "found / not found" result of the registry's lookups. */
module Wrappers {

  datatype Option<+T> = None | Some(value: T)

}
