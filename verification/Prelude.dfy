/** The failure-carrying datatypes shared by every module. */
module Prelude {

  datatype Option<+T> = None | Some(value: T)

  /** Whether an operation that returns only an error in the source succeeded. */
  datatype Status = Done | Fail
}
