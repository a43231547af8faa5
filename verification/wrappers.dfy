/** The optional value the parsers return: None is a value they cannot
    parse. */
module Wrappers {

  datatype Option<+T> = None | Some(value: T)
}
