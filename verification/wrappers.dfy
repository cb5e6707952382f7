/** The optional-value datatype used throughout the model: a JavaScript
    `undefined` result (an unresolved LOC, a failed lookup) is `None`. */
module Wrappers {

  datatype Option<+T> = None | Some(value: T)
}
