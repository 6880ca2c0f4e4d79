/** The optional value used for a bounce record's wall (a wall, or none at a scene boundary). */
module Wrappers {

  datatype Option<+T> = None | Some(value: T)
}
