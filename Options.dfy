/** An optional value: None stands for an outcome the C code leaves undefined. */
module Options {
  datatype Option<T> = None | Some(value: T)
}
