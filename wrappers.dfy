/** The conventional optional value, used for "a hand was detected or not". */
module Wrappers {
  datatype Option<+T> = None | Some(value: T)
}
