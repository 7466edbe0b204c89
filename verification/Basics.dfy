/** Types that several modules use. */
module Basics {

  type Positive = n: nat | 0 < n witness 1

  datatype Option<T> = None | Some(value: T)
}
