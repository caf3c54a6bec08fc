/** The stock optional value, for Go's `v, ok := m[k]`, nil pointers and zero times. */
module Options {
  datatype Option<+T> = None | Some(value: T)
  {
    function GetOr(default: T): T {
      match this
      case Some(v) => v
      case None => default
    }
  }
}
