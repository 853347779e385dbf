/** A value that may be missing: a null pointer, or a search without result. */
module Options {

  datatype Option<T> = None | Some(value: T)
}
