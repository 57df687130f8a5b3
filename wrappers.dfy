/** Small shared datatypes. */
module Wrappers {

  /** An optional value; `None` stands for Java's `null`. */
  datatype Option<+T> = None | Some(value: T)
}
