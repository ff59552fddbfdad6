/** Small value wrappers shared by the kcache model. */
module Wrappers {

  /** A value that may be missing; stands for Go's nil pointers and zero values. */
  datatype Option<+T> = None | Some(value: T)
}
