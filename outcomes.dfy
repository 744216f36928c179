/** Results of decoding: a value, a recoverable decode error carrying its
    message, or a fatal abort (what the Rust code does with `panic!`,
    `assert!` and `todo!`). */
module Outcomes {

  datatype Option<+T> = None | Some(value: T)

  datatype Result<+T> = Ok(value: T) | Err(message: string) | Abort(message: string)

  /** `OptionExt::try_map` (src/xml/mod.rs:1-4): apply a fallible `f` to an
      optional value and move the failure outwards, i.e. `map` then `transpose`.
      An absent value is never a failure; a present one succeeds exactly when
      `f` does, with the same failure otherwise. */
  function TryMap<T, U>(o: Option<T>, f: T -> Result<U>): (r: Result<Option<U>>)
    ensures o.None? ==> r == Ok(None)
    ensures o.Some? ==> (r.Ok? <==> f(o.value).Ok?)
    ensures o.Some? && r.Ok? ==> r.value == Some(f(o.value).value)
    ensures o.Some? && f(o.value).Err? ==> r == Err(f(o.value).message)
    ensures o.Some? && f(o.value).Abort? ==> r == Abort(f(o.value).message)
  {
    match o
    case None => Ok(None)
    case Some(x) =>
      match f(x)
      case Ok(y) => Ok(Some(y))
      case Err(m) => Err(m)
      case Abort(m) => Abort(m)
  }
}
