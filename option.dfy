/** The optional value the scripts express as `None`. */
module Options {
  datatype Option<+T> = None | Some(value: T)
}
