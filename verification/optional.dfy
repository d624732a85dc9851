/** Optional values: the model of a Go pointer that may be nil. */
module Optional {

  /** `None` stands for a nil pointer, `Some(v)` for a pointer to `v`. */
  datatype Option<+T> = None | Some(value: T)
}
