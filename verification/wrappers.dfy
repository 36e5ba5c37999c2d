/** The optional-value datatype the auth model uses for "maybe a session user". */
module Wrappers {

  /** `None` stands for an absent (undefined) value, `Some(v)` for a present one. */
  datatype Option<+T> = None | Some(value: T)
}
