/** The optional-value datatype shared by the modules of this project. */
module Wrappers {

  /** `None` stands for Python's `None` result. */
  datatype Option<+T> = None | Some(value: T)
}
