/** What several parts of the model share. */
module Basics {

  datatype Option<+T> = None | Some(value: T)

  /** The code as it stands, or with a named repair. */
  datatype Rule = AsWritten | Repaired
}
