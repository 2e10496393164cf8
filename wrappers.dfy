/** The optional value used for inputs that the event may or may not carry
    (a quoted message, a backend reply text). */
module Wrappers {
  datatype Option<+T> = None | Some(value: T)
}
