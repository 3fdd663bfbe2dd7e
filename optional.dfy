/** The Option type used throughout the model for Python's `None`-or-value. */
module Optional {

  datatype Option<+T> = None | Some(value: T)
}
