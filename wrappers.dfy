/** The optional value the solvers return where Rust returns `Option`. */
module Wrappers {
  datatype Option<T> = None | Some(value: T)
}
