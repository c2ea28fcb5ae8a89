/** Optional values (Python's `None` or a value). */
module Options {
  datatype Option<T> = None | Some(value: T)

  /** `d.get(key, default)`: the value when present, otherwise the default. */
  function GetOr<T>(o: Option<T>, default: T): T {
    if o.Some? then o.value else default
  }
}
