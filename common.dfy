/** Optional values, used for request fields that may be absent and for lookups that may fail. */
module Common {

  datatype Option<+T> = None | Some(value: T)
}
