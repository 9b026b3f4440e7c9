/** An optional value: a table entry found or not, the operations table installed or not. */
module Optional {

  datatype Option<T> = None | Some(value: T)
}
