/** A possibly absent value: a C pointer that may be NULL. */
module Optional {

  datatype Option<+T> = None | Some(value: T)
}
