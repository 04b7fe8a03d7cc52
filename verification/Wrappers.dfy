module Wrappers {
  datatype Option<+T> = None | Some(value: T)

  /** Rust's `Option::or`: the first value that is present. */
  function Or<T>(a: Option<T>, b: Option<T>): (r: Option<T>) {
    if a.Some? then a else b
  }
}
