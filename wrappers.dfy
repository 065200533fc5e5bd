/** The nullable values of the component (`T | null` in its state hooks). */
module Wrappers {

  datatype Option<+T> = None | Some(value: T)
}
