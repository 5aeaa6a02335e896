/** The optional value used throughout the model: `None` stands for JavaScript's
    `undefined` (or SQL's NULL) wherever the source produces one. */
module Wrappers {

  datatype Option<+T> = None | Some(value: T)
}
