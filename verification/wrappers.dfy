/** The optional-value datatype the model uses for "may be absent" and "may raise". */
module Wrappers {

  datatype Option<+T> = None | Some(value: T)
}
