/** An optional value: `None` where an attempt or a probe yields nothing, which
    the Java code signals with null or with a caught exception. */
module Wrappers {
  datatype Option<+T> = None | Some(value: T)
}
