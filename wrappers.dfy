/** Small result types shared by the model. */
module Wrappers {

  /** Swift's optional: a value or nil. */
  datatype Option<+T> = None | Some(value: T)

  /** The value of an expression that Swift may stop with a runtime trap
      (a failed checked conversion, a failed force cast). */
  datatype Checked<+T> = Value(value: T) | Trap

  /** The value of a Swift call marked `throws`: it returns or it throws. */
  datatype Outcome<+T> = Returned(value: T) | Threw
}
