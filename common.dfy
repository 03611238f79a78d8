/** Values shared by every part of the model. */
module Common {

  /** A value that may be absent: a missing request field, a row `findOne` did not find. */
  datatype Option<+T> = None | Some(value: T) {

    /** The value, or `default` when absent (a column default, an attribute left alone by `update`). */
    function GetOr(default: T): T {
      match this
      case Some(v) => v
      case None => default
    }
  }

  /** JavaScript truthiness of an optional string: present and not empty. */
  predicate Truthy(s: Option<string>) {
    s.Some? && s.value != ""
  }

  /** JavaScript truthiness of an optional number: present and not zero. */
  predicate TruthyNumber(n: Option<int>) {
    n.Some? && n.value != 0
  }
}
