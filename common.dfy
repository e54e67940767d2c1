/** Optional values: Python's `None` versus a present value. */
module Common {
  datatype Option<+T> = None | Some(value: T)
}
