/** The optional value the codec returns where the original code would panic or return `None`. */
module Wrappers {

  datatype Option<+T> = None | Some(value: T)
}
