/** The throwing `Condition` checks: each passes silently or throws a `ConditionException`
    carrying the supplied message (`null` when none is given). */
module SimpleCondition {
  import opened Wrappers
  import opened Values
  import opened Exceptions
  import If

  function IsTrue(value: bool, message: Option<string>): (r: Outcome)
    ensures r.Fail? <==> !value
    ensures r.Fail? ==> r.error == ConditionException(message)
  {
    if value != true then Fail(ConditionException(message)) else Pass
  }

  function IsFalse(value: bool, message: Option<string>): (r: Outcome)
    ensures r.Fail? <==> value
    ensures r.Fail? ==> r.error == ConditionException(message)
  {
    if value != false then Fail(ConditionException(message)) else Pass
  }

  function IsNotNull(value: Value, message: Option<string>): (r: Outcome)
    ensures r.Fail? <==> value == Null
    ensures r.Fail? ==> r.error == ConditionException(message)
  {
    if If.IsNull(value) then Fail(ConditionException(message)) else Pass
  }

  function IsNull(value: Value, message: Option<string>): (r: Outcome)
    ensures r.Fail? <==> value != Null
    ensures r.Fail? ==> r.error == ConditionException(message)
  {
    if If.IsNotNull(value) then Fail(ConditionException(message)) else Pass
  }

  /** Throws only for a non-empty string or a non-empty collection. */
  function IsEmpty(value: Value, message: Option<string>): (r: Outcome)
    ensures r.Fail? <==> (value.Str? && value.s != "") || (value.Collection? && value.count > 0)
    ensures r.Fail? ==> r.error == ConditionException(message)
  {
    var s := AsString(value);
    if s != None then
      if If.IsNotEmpty(s) then Fail(ConditionException(message)) else Pass
    else
      var collection := AsCollection(value);
      if If.IsNotEmptyCollection(collection) then Fail(ConditionException(message)) else Pass
  }

  /** Throws when `value < lowestInclusive` or `value > highestInclusive`. */
  function InRange(lowestInclusive: int, highestInclusive: int, value: int, message: Option<string>): (r: Outcome)
    ensures r.Pass? <==> lowestInclusive <= value <= highestInclusive
    ensures r.Fail? ==> r.error == ConditionException(message)
  {
    if value < lowestInclusive || value > highestInclusive then Fail(ConditionException(message)) else Pass
  }

  /** `value as string` */
  function AsString(value: Value): Option<string> {
    if value.Str? then Some(value.s) else None
  }

  /** `value as ICollection`, seen through its `Count` */
  function AsCollection(value: Value): Option<nat> {
    if value.Collection? then Some(value.count) else None
  }

  /** Null, the empty string, empty collections and other objects all pass `IsEmpty`. */
  lemma IsEmptyPasses(count: nat, id: nat, message: Option<string>)
    ensures IsEmpty(Null, message) == Pass
    ensures IsEmpty(Str(""), message) == Pass
    ensures IsEmpty(Collection(0), message) == Pass
    ensures IsEmpty(Int(count), message) == Pass && IsEmpty(Other(id), message) == Pass
  {
  }

  /** Both bounds of `InRange` are accepted whenever the range is not empty. */
  lemma InRangeAcceptsBounds(lo: int, hi: int, message: Option<string>)
    requires lo <= hi
    ensures InRange(lo, hi, lo, message) == Pass && InRange(lo, hi, hi, message) == Pass
    ensures InRange(lo, hi, lo - 1, message).Fail? && InRange(lo, hi, hi + 1, message).Fail?
  {
  }
}
