/** The optional value used wherever the source returns `Option<T>`. */
module Options {

  datatype Option<+T> = None | Some(value: T)
}
