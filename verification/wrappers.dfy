/** The absent-or-present value used where the Java code returns or accepts `null`. */
module Wrappers {

  /** `None` stands for Java's `null`; `Some(v)` for a present reference to `v`. */
  datatype Option<+T> = None | Some(value: T)
}
