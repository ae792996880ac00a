/** The optional-value library the patch code depends on. Its source is not part
    of this model; its behaviour is assumed to be the obvious one: an option is
    empty or holds one value, `Matches`/`Match` compare the held value with a bare
    value, `Eq` is structural equality of two options, `Get`/`Unwrap` fail on an
    empty option, and `Set`/`Clear` overwrite the option a pointer refers to. */
module Optional {
  import opened Errors

  datatype Option<T(==)> = None | Some(value: T) {

    predicate IsSome() { Some? }

    predicate IsNone() { None? }

    /** The library's `Match` and `Matches`: holds a value equal to `v`. */
    predicate Matches(v: T) { Some? && value == v }

    /** The library's `Eq`: the same presence and, when present, the same value. */
    predicate Eq(other: Option<T>) { this == other }

    /** The library's `Get` and `Unwrap`: the held value, or an error when empty. */
    function Unwrap(): (r: Result<T>)
      ensures r.Ok? <==> Some?
      ensures r.Ok? ==> r.value == value
      ensures r.Err? ==> r.error == EmptyOptional
    {
      match this
      case Some(v) => Ok(v)
      case None => Err(EmptyOptional)
    }
  }

  /** An `optional.Optional[T]`: a pointer to an option that `Set` and `Clear`
      update in place. */
  class OptionalCell<T(==)> {
    var value: Option<T>

    constructor (init: Option<T>)
      ensures value == init
    {
      value := init;
    }

    method Set(v: T)
      modifies this
      ensures value == Some(v)
    {
      value := Some(v);
    }

    method Clear()
      modifies this
      ensures value == None
    {
      value := None;
    }
  }
}
