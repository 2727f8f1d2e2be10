/** The optional-value datatype used for validator outcomes and partial decoders. */
module Wrappers {

  datatype Option<+T> = None | Some(value: T)

}
