/** Option type shared by the models: an absent flag, a failed lookup, an unset mode. */
module Wrappers {
  datatype Option<+T> = None | Some(value: T)
}
