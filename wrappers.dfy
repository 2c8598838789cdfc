/** The optional value used wherever the applications read something that may be absent:
    a form field, a file, a session key. */
module Wrappers {

  datatype Option<+T> = None | Some(value: T)
}
