/** The value a lookup or a fallible operation may fail to produce. */
module Option {
  datatype Option<+T> = None | Some(value: T)
}
