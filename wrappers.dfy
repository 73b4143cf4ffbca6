/** Optional values, standing in for Java's nullable references. */
module Wrappers {

  /** `None` plays the part of a Java `null`. */
  datatype Option<+T> = None | Some(value: T)
}
