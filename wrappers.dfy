/** The optional-value datatype used for Python's `None`-able fields and for
    operations that fail by raising an exception in the original program. */
module Wrappers {

  datatype Option<+T> = None | Some(value: T)
}
