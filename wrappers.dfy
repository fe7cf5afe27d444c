/** The optional value used for DOM attributes and lookups that may be absent (`null` in the script). */
module Wrappers {
  datatype Option<+T> = None | Some(value: T)
}
