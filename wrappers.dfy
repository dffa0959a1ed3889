/** An optional value: a click that selects no command, a lookup that misses. */
module Wrappers {
  datatype Option<+T> = None | Some(value: T)
}
