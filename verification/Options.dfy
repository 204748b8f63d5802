/** Optional values, for the source's std::optional fields and null results. */
module Options {
  datatype Option<+T> = None | Some(value: T)
}
