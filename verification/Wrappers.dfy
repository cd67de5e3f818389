/** Option, as C++ uses std::optional. */
module Wrappers {
  datatype Option<+T> = None | Some(value: T)
}
