/** The optional value the writer's parser and the harness return. */
module Wrappers {
  datatype Option<T> = None | Some(value: T)
}
