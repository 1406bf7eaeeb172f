/** The optional value used wherever the source returns a Rust `Option`. */
module Wrappers {

  datatype Option<+T> = None | Some(value: T)

}
