/** An optional value, for lookups and regular-expression matches that may find nothing. */
module Options {

  datatype Option<+T> = None | Some(value: T)
}
