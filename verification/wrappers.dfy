/** The optional-value datatype used for empty cells and absent moves. */
module Wrappers {

  /** `None` stands for the source's `null` (an empty cell, no move, no last capture). */
  datatype Option<+T> = None | Some(value: T)
}
