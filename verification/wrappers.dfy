/** The optional-value datatype used wherever the app's code uses a Swift optional. */
module Wrappers {

  /** `None` plays the role of Swift's `nil`. */
  datatype Option<+T> = None | Some(value: T)
}
