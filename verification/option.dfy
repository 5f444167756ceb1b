/** The optional value used throughout the model (Rust's `Option`, Python's
    `None`-or-value). */
module Optional {
  datatype Option<T> = None | Some(value: T)
}
