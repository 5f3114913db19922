/** An optional value, standing for the source's nullable references and strings. */
module Options {

  datatype Option<T> = None | Some(value: T)
}
