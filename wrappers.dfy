/** The optional value used across the model (a JavaScript `null`, an unset PHP array slot). */
module Wrappers {

  datatype Option<+T> = None | Some(value: T)
}
