/** Optional results, for operations that fail with an exception in the source. */
module Options {
  datatype Option<+T> = None | Some(value: T)
}
