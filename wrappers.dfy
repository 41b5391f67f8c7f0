/** The optional value used for regex captures, regex matches and the soft warning. */
module Wrappers {

  datatype Option<+T> = None | Some(value: T)
}
