/** Swift's optional values (`String?`), as a datatype. */
module Options {

  datatype Option<T> = None | Some(value: T)
}
