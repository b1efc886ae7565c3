/** Optional values: a JSON `number | null` field is `None` when null. */
module Wrappers {
  datatype Option<+T> = None | Some(value: T)
}
