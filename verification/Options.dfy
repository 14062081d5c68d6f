/** An optional value: the source's `null`, `None` or "not found". */
module Options {
  datatype Option<+T> = None | Some(value: T)
}
