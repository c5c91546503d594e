/** The usual Some/None wrapper, standing for Python's `X | None` results. */
module Optional {

  datatype Option<+T> = None | Some(value: T)
}
