/** The optional-value datatype shared by the parsers and renderers of this model. */
module Wrappers {
  datatype Option<+T> = None | Some(value: T)
}
