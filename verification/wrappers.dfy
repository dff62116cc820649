/** The result type of the readers of number and path text. */
module Wrappers {

  /** The result of a reader that can reject its input. */
  datatype Option<+T> = None | Some(value: T)
}
