/** Optional values: a field the remote service may omit, a lookup that may
    find nothing. `None` plays the part of JavaScript's `undefined`/`null`. */
module Options {

  datatype Option<+T> = None | Some(value: T) {

    /** `x || fallback` for a value that is either present or absent. */
    function GetOr(fallback: T): (r: T)
      ensures Some? ==> r == value
      ensures None? ==> r == fallback
    {
      match this
      case Some(v) => v
      case None => fallback
    }
  }
}
