/** A value that may be absent: TypeScript's `T | undefined`. */
module Wrappers {

  datatype Option<+T> = None | Some(value: T)

}
