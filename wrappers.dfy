/** The optional result the source returns as `None` when there is nothing to give. */
module Wrappers {
  datatype Option<+T> = None | Some(value: T)
}
