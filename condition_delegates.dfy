/** The `Condition` checks built on a failure delegate. The delegate overload calls the delegate
    (when it is not null) exactly in the failure case; the message overload passes a delegate that
    throws a `ConditionException` with that message; the parameterless overload passes a fixed
    message. A user delegate is known only by name: what it does besides being called is outside
    the model. */
module Condition {
  import opened Wrappers
  import opened Values
  import opened Exceptions

  datatype FailureDelegate = ThrowCondition(message: Option<string>) | Handler(name: string)

  /** Which delegate, if any, a check called. */
  datatype Invocation = NotInvoked | Invoked(failureDelegate: FailureDelegate)

  /** Calling a delegate: the throwing one throws, a user handler returns normally. */
  function Invoke(d: FailureDelegate): Outcome {
    match d
    case ThrowCondition(m) => Fail(ConditionException(m))
    case Handler(_) => Pass
  }

  function Run(i: Invocation): Outcome {
    match i
    case NotInvoked => Pass
    case Invoked(d) => Invoke(d)
  }

  /** The delegate is invoked when there is one, and nothing happens otherwise. */
  function CallIfNotNull(failureDelegate: Option<FailureDelegate>): Invocation {
    match failureDelegate
    case None => NotInvoked
    case Some(d) => Invoked(d)
  }

  // IsTrue

  function IsTrueWithDelegate(value: bool, failureDelegate: Option<FailureDelegate>): (r: Invocation)
    ensures r.Invoked? <==> !value && failureDelegate.Some?
    ensures r.Invoked? ==> Some(r.failureDelegate) == failureDelegate
  {
    if value != true then CallIfNotNull(failureDelegate) else NotInvoked
  }

  function IsTrueWithMessage(value: bool, message: Option<string>): (r: Outcome)
    ensures r.Fail? <==> !value
    ensures r.Fail? ==> r.error == ConditionException(message)
  {
    Run(IsTrueWithDelegate(value, Some(ThrowCondition(message))))
  }

  function IsTrue(value: bool): (r: Outcome)
    ensures r == if value then Pass else Fail(ConditionException(Some("The condition was not true")))
  {
    IsTrueWithMessage(value, Some("The condition was not true"))
  }

  // IsFalse

  function IsFalseWithDelegate(value: bool, failureDelegate: Option<FailureDelegate>): (r: Invocation)
    ensures r.Invoked? <==> value && failureDelegate.Some?
    ensures r.Invoked? ==> Some(r.failureDelegate) == failureDelegate
  {
    if value != false then
      if failureDelegate != None then Invoked(failureDelegate.value) else NotInvoked
    else NotInvoked
  }

  function IsFalseWithMessage(value: bool, message: Option<string>): (r: Outcome)
    ensures r.Fail? <==> value
    ensures r.Fail? ==> r.error == ConditionException(message)
  {
    Run(IsFalseWithDelegate(value, Some(ThrowCondition(message))))
  }

  function IsFalse(value: bool): (r: Outcome)
    ensures r == if value then Fail(ConditionException(Some("The condition was not false"))) else Pass
  {
    IsFalseWithMessage(value, Some("The condition was not false"))
  }

  // IsNull

  function IsNullWithDelegate(value: Value, failureDelegate: Option<FailureDelegate>): (r: Invocation)
    ensures r.Invoked? <==> value != Null && failureDelegate.Some?
    ensures r.Invoked? ==> Some(r.failureDelegate) == failureDelegate
  {
    if value != Null then
      if failureDelegate != None then Invoked(failureDelegate.value) else NotInvoked
    else NotInvoked
  }

  function IsNullWithMessage(value: Value, message: Option<string>): (r: Outcome)
    ensures r.Fail? <==> value != Null
    ensures r.Fail? ==> r.error == ConditionException(message)
  {
    Run(IsNullWithDelegate(value, Some(ThrowCondition(message))))
  }

  function IsNull(value: Value): (r: Outcome)
    ensures r == if value == Null then Pass else Fail(ConditionException(Some("The condition was not null")))
  {
    IsNullWithMessage(value, Some("The condition was not null"))
  }

  // IsNotNull

  function IsNotNullWithDelegate(value: Value, failureDelegate: Option<FailureDelegate>): (r: Invocation)
    ensures r.Invoked? <==> value == Null && failureDelegate.Some?
    ensures r.Invoked? ==> Some(r.failureDelegate) == failureDelegate
  {
    if value == Null then
      if failureDelegate != None then Invoked(failureDelegate.value) else NotInvoked
    else NotInvoked
  }

  function IsNotNullWithMessage(value: Value, message: Option<string>): (r: Outcome)
    ensures r.Fail? <==> value == Null
    ensures r.Fail? ==> r.error == ConditionException(message)
  {
    Run(IsNotNullWithDelegate(value, Some(ThrowCondition(message))))
  }

  function IsNotNull(value: Value): (r: Outcome)
    ensures r == if value == Null then Fail(ConditionException(Some("The condition was null"))) else Pass
  {
    IsNotNullWithMessage(value, Some("The condition was null"))
  }

  // Assert

  function AssertWithDelegate(value: bool, failureDelegate: Option<FailureDelegate>): (r: Invocation)
    ensures r.Invoked? <==> !value && failureDelegate.Some?
    ensures r.Invoked? ==> Some(r.failureDelegate) == failureDelegate
  {
    if value != true then
      if failureDelegate != None then Invoked(failureDelegate.value) else NotInvoked
    else NotInvoked
  }

  function AssertWithMessage(value: bool, message: Option<string>): (r: Outcome)
    ensures r.Fail? <==> !value
    ensures r.Fail? ==> r.error == ConditionException(message)
  {
    Run(AssertWithDelegate(value, Some(ThrowCondition(message))))
  }

  function Assert(value: bool): (r: Outcome)
    ensures r == if value then Pass else Fail(ConditionException(Some("The assert was not true")))
  {
    AssertWithMessage(value, Some("The assert was not true"))
  }

  /** `Assert` calls the delegate in exactly the same cases as `IsTrue`. */
  lemma AssertIsIsTrue(value: bool, failureDelegate: Option<FailureDelegate>, message: Option<string>)
    ensures AssertWithDelegate(value, failureDelegate) == IsTrueWithDelegate(value, failureDelegate)
    ensures AssertWithMessage(value, message) == IsTrueWithMessage(value, message)
  {
  }

  /** A null delegate turns every failure into a no-op. */
  lemma NullDelegateIsNoOp(b: bool, value: Value)
    ensures IsTrueWithDelegate(b, None) == NotInvoked && IsFalseWithDelegate(b, None) == NotInvoked
    ensures IsNullWithDelegate(value, None) == NotInvoked && IsNotNullWithDelegate(value, None) == NotInvoked
    ensures AssertWithDelegate(b, None) == NotInvoked
  {
  }
}
