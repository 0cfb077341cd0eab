/** The optional value used for probe outcomes and search results. */
module Wrappers {

  datatype Option<+T> = None | Some(value: T)
}
