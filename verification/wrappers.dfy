/** The Some/None datatype standing in for Python's `None` returns and for
    the results of I/O that the model receives as parameters. */
module Wrappers {

  datatype Option<+T> = None | Some(value: T)
}
