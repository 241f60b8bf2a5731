/** The optional value used wherever the source returns None or reads a missing key. */
module Wrappers {

  datatype Option<+T> = None | Some(value: T) {

    /** The value, or `default` when there is none (Python's `x or default`, `d.get(k, default)`). */
    function GetOr(default: T): T {
      match this
      case Some(v) => v
      case None => default
    }
  }

  /** The set holding the value of `o`, if any. */
  function Elements<T>(o: Option<T>): set<T> {
    if o.Some? then {o.value} else {}
  }
}
