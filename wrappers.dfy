/** Optional values, for operations that can fail or run out of input. */
module Wrappers {

  datatype Option<+T> = None | Some(value: T)

  /** A value read from the console, and the index of the first line not yet read. */
  datatype Read<+T> = Read(value: T, next: nat)
}
