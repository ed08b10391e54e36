/** Failure-compatible option type shared by every module of the model. */
module Wrappers {

  /** `None` stands for the source's `null` / `undefined` / missing value. */
  datatype Option<+T> = None | Some(value: T)
}
