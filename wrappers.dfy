/** The optional value used wherever a page lookup may find nothing (Python's None). */
module Wrappers {

  datatype Option<T> = None | Some(value: T)
}
