/** The optional-value datatype used for oracle answers and lookups. */
module Wrappers {

  datatype Option<+T> = None | Some(value: T)

}
