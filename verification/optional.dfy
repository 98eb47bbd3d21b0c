/** An optional value: the model's stand-in for `T | null` and for a field that may be unset. */
module Optional {

  datatype Option<+T> = None | Some(value: T)
}
