/** The optional value the C++ sources express with `std::optional`. */
module Wrappers {

  datatype Option<+T> = None | Some(value: T)
}
