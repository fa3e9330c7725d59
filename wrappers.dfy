/** Option, the exceptions the library raises, and the two ways a call can end. */
module Wrappers {

  /** `None` stands for C#'s `null`. */
  datatype Option<+T> = None | Some(value: T)

  /** The `?.` lifted comparisons of C#: any comparison with `null` is false. */
  predicate LiftedEquals(x: Option<int>, y: int) {
    match x
    case None => false
    case Some(v) => v == y
  }

  predicate LiftedGreater(x: Option<int>, y: int) {
    match x
    case None => false
    case Some(v) => v > y
  }

  predicate LiftedAtMost(x: Option<int>, y: int) {
    match x
    case None => false
    case Some(v) => v <= y
  }

  /** The length of a nullable string, null for null. */
  function NullableLength(s: Option<string>): Option<int> {
    match s
    case None => None
    case Some(t) => Some(|t|)
  }

  /** `String.IsNullOrEmpty(s)` */
  predicate IsNullOrEmpty(s: Option<string>) {
    s == None || s == Some("")
  }
}

module Exceptions {
  import opened Wrappers

  /** The exceptions thrown by the modelled code, with the messages the library itself supplies. */
  datatype Exception =
    | ConditionException(message: Option<string>)
    | ArgumentException(text: string)
    | IndexOutOfRangeException(text: string)
    | InvalidOperationException
    | EndOfStreamException
    | IOException
    | ArgumentNullException
    | NullReferenceException

  /** A call that returns a value or throws. */
  datatype Result<+T> = Ok(value: T) | Throw(error: Exception)

  /** A `void` call: it returns normally or throws. */
  datatype Outcome = Pass | Fail(error: Exception)

  /** Decimal rendering of an integer, as string concatenation with an `int` does. */
  function IntToString(n: int): (s: string)
    ensures |s| > 0
    decreases if n < 0 then -n + 1 else n
  {
    if n < 0 then "-" + IntToString(-n)
    else if n < 10 then [Digit(n)]
    else IntToString(n / 10) + [Digit(n % 10)]
  }

  function Digit(d: int): char
    requires 0 <= d < 10
  {
    "0123456789"[d]
  }
}

module Values {
  /** A value seen through `object` or an unconstrained `T`: null, a boxed bool, a boxed int,
      a string, an `ICollection` (known by its `Count`), or any other non-null object. */
  datatype Value =
    | Null
    | Bool(b: bool)
    | Int(i: int)
    | Str(s: string)
    | Collection(count: nat)
    | Other(id: nat)
}
