/** An optional value: a JSON field that is present (`Some`) or absent (`None`). */
module Wrappers {

  datatype Option<+T> = None | Some(value: T) {

    /** The value when present, otherwise `default`. */
    function GetOr(default: T): T {
      match this
      case Some(v) => v
      case None => default
    }

    /** `this` when present, otherwise `prior`: the effect of `{...prior, ...this}` on one key. */
    function Or(prior: Option<T>): Option<T> {
      if Some? then this else prior
    }
  }
}
