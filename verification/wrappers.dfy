/** The Option type used across the model. */
module Wrappers {

  /** `None` stands for "absent": a rejected event, or derived values that
      were never computed. */
  datatype Option<+T> = None | Some(value: T)
}
