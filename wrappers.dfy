/** Optional values: the model's counterpart of `std::optional`. */
module Wrappers {

  datatype Option<+T> = None | Some(value: T)
}
