/** The optional value used throughout the model: a lookup that hits or misses. */
module Wrappers {

  datatype Option<+T> = None | Some(value: T)
}
