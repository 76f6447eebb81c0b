/** The optional value used wherever the source has a nullable reference or an
    `Optional` result. */
module Wrappers {

  datatype Option<+T> = None | Some(value: T)
}
