/** The nullable values of the game: `null` in the component state becomes `None`. */
module Wrappers {

  datatype Option<+T> = None | Some(value: T)
}
