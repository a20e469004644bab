/** The runtime's own `Result` (Sources/LarkRuntime/Result.swift): a success carrying a value or a
    failure carrying the error that was thrown. A throwing call is modelled as a function into
    `Wrappers.Result`, whose `Err` is the thrown error. */
module RuntimeResult {
  import W = Wrappers

  datatype Result<T, E> = Success(value: T) | Failure(error: E) {
    /** `isSuccess`. */
    predicate IsSuccess() {
      match this
      case Success(_) => true
      case Failure(_) => false
    }

    /** `isFailure`: exactly when it is not a success. */
    predicate IsFailure()
      ensures IsFailure() <==> !IsSuccess()
      ensures IsFailure() <==> Failure?
    {
      !IsSuccess()
    }

    /** `value`: present exactly on a success, and then the payload. */
    function Value(): (r: W.Option<T>)
      ensures r.Some? <==> IsSuccess()
      ensures r.Some? ==> Success? && r.value == value
    {
      match this
      case Success(v) => W.Some(v)
      case Failure(_) => W.None
    }

    /** `error`: present exactly on a failure, and then the stored error. */
    function Error(): (r: W.Option<E>)
      ensures r.Some? <==> IsFailure()
      ensures r.Some? ==> Failure? && r.value == error
      ensures r.Some? <==> Value().None?
    {
      match this
      case Success(_) => W.None
      case Failure(e) => W.Some(e)
    }

    /** `resolve()`: returns the payload of a success and throws the error of a failure. */
    function Resolve(): (r: W.Result<T, E>)
      ensures r.Ok? <==> IsSuccess()
      ensures r.Ok? ==> W.Some(r.value) == Value()
      ensures r.Err? ==> W.Some(r.error) == Error()
    {
      match this
      case Success(v) => W.Ok(v)
      case Failure(e) => W.Err(e)
    }

    /** `map(_:)`: on a success, the success of `f`'s result or the failure of the error `f`
        throws; a failure keeps its error and `f` is never applied. */
    function Map<U>(f: T -> W.Result<U, E>): (r: Result<U, E>)
      ensures Failure? ==> r == Failure(error)
      ensures Success? ==> (r.IsSuccess() <==> f(value).Ok?)
      ensures Success? && f(value).Ok? ==> r.Value() == W.Some(f(value).value)
      ensures Success? && f(value).Err? ==> r.Error() == W.Some(f(value).error)
    {
      match Resolve()
      case Ok(v) =>
        (match f(v)
         case Ok(u) => Success(u)
         case Err(e) => Failure(e))
      case Err(e) => Failure(e)
    }
  }

  /** The result that `resolve()` would be read back into: the inverse of `Resolve`. */
  function FromResolved<T, E>(r: W.Result<T, E>): (res: Result<T, E>)
    ensures res.IsSuccess() <==> r.Ok?
  {
    match r
    case Ok(v) => Success(v)
    case Err(e) => Failure(e)
  }

  lemma ResolveRoundTrip<T, E>(res: Result<T, E>, r: W.Result<T, E>)
    ensures FromResolved(res.Resolve()) == res
    ensures FromResolved(r).Resolve() == r
  {
  }

  /** Mapping a function that never throws and returns its argument changes nothing. */
  lemma MapIdentity<T, E>(res: Result<T, E>)
    ensures res.Map((x: T) => W.Ok(x)) == res
  {
  }

  /** Mapping twice is mapping once with the composed function, which stops at the first throw. */
  lemma MapComposition<T, U, V, E>(res: Result<T, E>, f: T -> W.Result<U, E>, g: U -> W.Result<V, E>)
    ensures res.Map(f).Map(g) == res.Map((x: T) => if f(x).Ok? then g(f(x).value) else W.Err(f(x).error))
  {
  }
}
