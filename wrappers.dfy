/** The optional value the grid stores for each cell (the source's `None` or an int). */
module Wrappers {
  datatype Option<+T> = None | Some(value: T)
}
