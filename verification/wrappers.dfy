/** The optional-value datatype used for the nullable reference fields of the
    product record (`string?` in the source) and for lookups that may find
    nothing: `None` stands for `null`. */
module Wrappers {

  datatype Option<+T> = None | Some(value: T)
}
