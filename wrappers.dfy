/** Optional values: a JavaScript `undefined`/`null` (or an absent header,
    attribute or form field) is `None`. */
module Wrappers {

  datatype Option<+T> = None | Some(value: T)
  {
    function GetOr(default: T): T
    {
      match this
      case Some(v) => v
      case None => default
    }
  }
}
