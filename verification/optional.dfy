/** A value that may be absent, standing for JavaScript's `null` in the game state. */
module Optional {

  datatype Option<+T> = None | Some(value: T)
}
