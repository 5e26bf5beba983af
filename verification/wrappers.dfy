/** The optional-value type shared by every module of the model. `None` stands
    for Rust's `None` (and, where a module says so, for an input on which the
    original code panics). */
module Wrappers {

  datatype Option<+T> = None | Some(value: T)
}
