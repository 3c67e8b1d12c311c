/** An optional value, used where the facade's tables have no entry. */
module Wrappers {

  datatype Option<+T> = None | Some(value: T)
}
