/** Python's `None`-or-value results, as returned by `dict.get` and `canonical_subject`. */
module Opt {

  datatype Option<+T> = None | Some(value: T) {

    /** `d.get(key, default)`: the stored value, whatever it is, or `default` when the key is missing. */
    function GetOr(default: T): T {
      match this
      case Some(v) => v
      case None => default
    }
  }
}
