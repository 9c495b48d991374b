/** Optional values, for the `dict.get(key)` lookups and the failures the source signals by `None`. */
module Wrappers {

  datatype Option<+T> = None | Some(value: T)

  /** `d.get(key, '')`: a missing entry reads as the empty string. */
  function OrEmpty(o: Option<string>): string
  {
    match o
    case Some(s) => s
    case None => ""
  }
}
