/** The optional value used wherever the catalogue may have nothing to return. */
module Wrappers {
  datatype Option<+T> = None | Some(value: T)
}
