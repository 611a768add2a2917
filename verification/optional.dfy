/** The optional value used wherever the source returns `Option<T>`. */
module Optional {

  datatype Option<+T> = None | Some(value: T)

}
