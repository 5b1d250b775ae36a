/** The optional value used wherever the source returns `None` or swallows an exception. */
module Wrappers {

  datatype Option<+T> = None | Some(value: T)
}
