/** The optional value used throughout the model for Python's `None`. */
module Wrappers {
  datatype Option<+T> = None | Some(value: T) {
    function GetOr(other: T): (t: T)
      ensures this == None ==> t == other
      ensures this != None ==> Some(t) == this
    {
      if None? then other else value
    }
  }
}
