/** Nullable values: a column or attribute that may hold NULL. */
module Common {

  datatype Option<+T> = None | Some(value: T)
}
