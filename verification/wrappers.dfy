/** The optional result of a collage strategy: `None` stands for Swift's `nil`. */
module Wrappers {

  datatype Option<+T> = None | Some(value: T)
}
