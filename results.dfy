/** The `Success`/`Failure` result types and the `IResult` extensions that tell them apart. */
module Results {
  import opened Wrappers

  /** An `IResult`: one of the library's four classes, or a foreign implementation known only
      by whether it implements `ISuccess` and `IFailure`. A message may be null. */
  datatype IResult<T> =
    | Success
    | SuccessOf(value: T)
    | Failure(message: Option<string>)
    | FailureOf(value: T, message: Option<string>)
    | Foreign(implementsSuccess: bool, implementsFailure: bool)
  {
    /** The four classes this library defines. */
    predicate IsLibraryType() {
      !Foreign?
    }

    /** Whether the object is an instance of class `Failure` (which `Failure<T>` derives from). */
    predicate IsFailureClass() {
      Failure? || FailureOf?
    }

    /** Whether the object implements `IResult<T>` and so has a `Value`. */
    predicate HasValue() {
      SuccessOf? || FailureOf?
    }
  }

  // Construction

  function NewSuccess<T>(): (r: IResult<T>)
    ensures IsSuccess(r) && !IsFailure(r) && FailureMessage(r) == Some("")
  {
    Success
  }

  function NewSuccessOf<T>(value: T): (r: IResult<T>)
    ensures r.HasValue() && r.value == value
    ensures IsSuccess(r) && !IsFailure(r) && FailureMessage(r) == Some("")
  {
    SuccessOf(value)
  }

  /** `new Failure()` delegates to `Failure(string.Empty)`. */
  function NewFailure<T>(): (r: IResult<T>)
    ensures IsFailure(r) && !IsSuccess(r) && FailureMessage(r) == Some("")
  {
    NewFailureWithMessage(Some(""))
  }

  function NewFailureWithMessage<T>(message: Option<string>): (r: IResult<T>)
    ensures IsFailure(r) && !IsSuccess(r) && FailureMessage(r) == message
  {
    Failure(message)
  }

  /** `new Failure<T>(value)` delegates to `Failure<T>(value, string.Empty)`. */
  function NewFailureOf<T>(value: T): (r: IResult<T>)
    ensures r.HasValue() && r.value == value
    ensures IsFailure(r) && !IsSuccess(r) && FailureMessage(r) == Some("")
  {
    NewFailureOfWithMessage(value, Some(""))
  }

  function NewFailureOfWithMessage<T>(value: T, message: Option<string>): (r: IResult<T>)
    ensures r.HasValue() && r.value == value
    ensures IsFailure(r) && !IsSuccess(r) && FailureMessage(r) == message
  {
    FailureOf(value, message)
  }

  // The extensions

  /** `result is ISuccess` */
  function IsSuccess<T>(result: IResult<T>): (r: bool)
    ensures r <==> result.Success? || result.SuccessOf? || (result.Foreign? && result.implementsSuccess)
  {
    match result
    case Success | SuccessOf(_) => true
    case Failure(_) | FailureOf(_, _) => false
    case Foreign(s, _) => s
  }

  /** `result is IFailure` */
  function IsFailure<T>(result: IResult<T>): (r: bool)
    ensures r <==> result.Failure? || result.FailureOf? || (result.Foreign? && result.implementsFailure)
  {
    match result
    case Success | SuccessOf(_) => false
    case Failure(_) | FailureOf(_, _) => true
    case Foreign(_, f) => f
  }

  /** `result is Failure failure ? failure.Message : string.Empty` */
  function FailureMessage<T>(result: IResult<T>): (r: Option<string>)
    ensures result.IsFailureClass() ==> r == result.message
    ensures !result.IsFailureClass() ==> r == Some("")
  {
    if result.IsFailureClass() then result.message else Some("")
  }

  /** For the library's own types exactly one of `IsSuccess` and `IsFailure` holds. */
  lemma ExactlyOneOfSuccessAndFailure<T>(result: IResult<T>)
    requires result.IsLibraryType()
    ensures IsSuccess(result) != IsFailure(result)
  {
  }

  /** A foreign `IFailure` that does not derive from `Failure` has the empty failure message. */
  lemma ForeignFailureHasEmptyMessage<T>(result: IResult<T>)
    requires result.Foreign?
    ensures FailureMessage(result) == Some("")
  {
  }
}
