/** The absent-value marker used where the Java code returns or tests for `null`. */
module Wrappers {

  datatype Option<+T> = None | Some(value: T)

}
