/** An absent JavaScript value (`Option`), and an outcome or a rejection's message (`Result`). */
module Wrappers {

  datatype Option<+T> = None | Some(value: T)

  datatype Result<+R, +E> = Success(value: R) | Failure(error: E)
}
