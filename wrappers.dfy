/** The optional value used throughout the model: a Python variable that may
    not be bound yet, a child element that may be missing, an operation that
    may fail. */
module Wrappers {
  datatype Option<+T> = None | Some(value: T)
}
