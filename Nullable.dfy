/** Java's nullable references: a `String` that may be `null`. */
module Nullable {

  datatype Option<+T> = None | Some(value: T)
}
