/** The optional value that the Rust code expresses with `Option<T>`. */
module Wrappers {

  datatype Option<+T> = None | Some(value: T)
}
