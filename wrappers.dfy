/** The optional value used for nullable columns, `undefined` arguments and lookups that may miss. */
module Wrappers {

  datatype Option<+T> = None | Some(value: T)
}
