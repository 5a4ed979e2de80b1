/** Types shared by the modules of the model. */
module Basics {

  /** A colour of a filled cell or a clue. Nothing in the core looks inside a
      colour; it is only compared for equality. */
  type Color(==, 0)

  /** The value of a default-constructed `Color`, whatever it is. */
  const DefaultColor: Color

  datatype Option<+T> = None | Some(value: T)
}
