/** The one helper datatype the other modules share. */
module Options {
  /** The source's `std::optional`, and Python's value-or-`None`. */
  datatype Option<+T> = None | Some(value: T)
}
