/** The optional value used wherever the site's data may be `undefined`. */
module Wrappers {

  datatype Option<+T> = None | Some(value: T)
}
