/** The optional value used throughout the model: None stands for JavaScript's
    `undefined` (a missing option, an unset variable) or for NaN, depending on
    where it is used. */
module Wrappers {

  datatype Option<+T> = None | Some(value: T)
}
