/** The nullable values of the reporting data layer: a column that holds a value or DBNull. */
module Wrappers {

  datatype Option<+T> = None | Some(value: T)
}
