/** The optional value used wherever the component holds `null`/`undefined` or an operation may not produce a value. */
module Wrappers {

  datatype Option<+T> = None | Some(value: T)
}
