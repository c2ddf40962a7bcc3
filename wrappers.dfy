/** The optional value used for Ruby's `nil`-or-value results (a hash lookup). */
module Wrappers {
  datatype Option<T> = None | Some(value: T)
}
