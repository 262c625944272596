/** The optional value shared by the hotspot rule and the clock parser. */
module Wrappers {
  /** A JavaScript value that may be `null`, or a parse that may fail. */
  datatype Option<T> = None | Some(value: T)
}
