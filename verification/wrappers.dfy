/** The optional value that stands in for a Java `null` reference. */
module Wrappers {

  /** `None` is the absent value (`null`), `Some(v)` a present one. */
  datatype Option<+T> = None | Some(value: T)
}
