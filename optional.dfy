/** An optional value: a parse that may fail, a reference slot that may be empty. */
module Optional {

  datatype Option<T> = None | Some(value: T)
}
