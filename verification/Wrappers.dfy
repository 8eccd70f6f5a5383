/** What may be missing: an empty slot, a null pointer, a search without a result. */
module Wrappers {
  datatype Option<T> = None | Some(value: T)
}
