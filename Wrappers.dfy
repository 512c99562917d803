/** Optional values, standing for `std::optional`, null pointers and "not found" results. */
module Wrappers {
  datatype Option<T> = None | Some(value: T)
  {
    predicate IsSome() { this.Some? }
  }
}
