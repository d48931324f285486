/** The optional-value datatype shared by the modules of the model: a Go
    reference that may be nil (`*Point`, `*Bounds`) and a Go map that may not
    have been allocated yet are both an `Option`. */
module Wrappers {

  datatype Option<+T> = None | Some(value: T)
}
