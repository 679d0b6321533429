/** A value that Java code may leave `null`. */
module Optional {

  datatype Option<+T> = None | Some(value: T)
}
