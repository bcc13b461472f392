/** Optional values: a JSON field that may be absent, a result that may fail. */
module Wrappers {

  datatype Option<+T> = None | Some(value: T) {

    /** The value when present, otherwise the fallback (ArduinoJson's `value | fallback`). */
    function GetOr(fallback: T): T
    {
      match this
      case Some(v) => v
      case None => fallback
    }
  }
}
