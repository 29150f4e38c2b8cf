/** The optional value used for the nullable members of the model (`string?`, `DateTime?`,
    `Student?`). */
module Wrappers {

  datatype Option<+T> = None | Some(value: T)
}
