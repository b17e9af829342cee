/** Optional values for the nil and error returns of the Go code, and its unordered iteration. */
module Wrappers {

  datatype Option<+T> = None | Some(value: T)

  /** The next key of a Go map range loop: any of those left. */
  method AnyOf<T>(s: set<T>) returns (x: T)
    requires s != {}
    ensures x in s
  {
    x :| x in s;
  }
}
