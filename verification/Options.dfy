/** A value or nothing: null pointers and `std::optional`. */
module Options {
  datatype Option<+T> = None | Some(value: T)
}
