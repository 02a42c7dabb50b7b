/** An optional value: Python's `None` and JavaScript's `null`. */
module Options {

  datatype Option<+T> = None | Some(value: T)
}
