/** The optional value used wherever the program may find nothing: a missing
    field, a date that does not parse, a call that failed. */
module Wrappers {

  datatype Option<+T> = None | Some(value: T)
}
