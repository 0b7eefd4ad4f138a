/** A value that may be absent: Python's `None`, SQL's NULL. */
module Options {
  datatype Option<+T> = None | Some(value: T) {
    function GetOr(default: T): T {
      if Some? then value else default
    }
  }
}
