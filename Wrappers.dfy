/** An optional value: `None` stands for "no value" (a missing result, or a score that is not a number). */
module Wrappers {
  datatype Option<+T> = None | Some(value: T)
}
