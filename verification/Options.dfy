/** The optional value used throughout: Python's None, or a value. */
module Options {
  datatype Option<+T> = None | Some(value: T) {
    /** The value, or `default` when there is none. */
    function Or(default: T): T {
      if Some? then value else default
    }
  }
}
