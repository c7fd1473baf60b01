/** An optional value, used where the source holds a pointer that may be null. */
module Options {

  datatype Option<+T> = None | Some(value: T)
}
