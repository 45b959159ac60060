/** The Option type that stands for the source's nullable references. */
module Wrappers {

  /** `None` is Java's `null`; `Some(v)` is a present value. */
  datatype Option<+T> = None | Some(value: T)
}
