/** A value that may be missing: a null pointer, the end of a container, an empty queue. */
module Options {

  datatype Option<T> = None | Some(value: T)
}
