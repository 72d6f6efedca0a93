/** An optional value: a result that may be absent, or an error whose text does not matter. */
module Wrappers {
  datatype Option<+T> = None | Some(value: T)
}
