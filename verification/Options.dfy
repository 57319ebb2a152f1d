/** The optional value used wherever the platform stores a nullable column or
    returns an absence. */
module Options {
  datatype Option<+T> = None | Some(value: T)

  /** The stored value, or `default` where the source writes `value or default`. */
  function GetOr<T>(o: Option<T>, default: T): T {
    if o.Some? then o.value else default
  }
}
