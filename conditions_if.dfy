/** The `If` predicates: readable one-line tests on values, strings and collections.
    A string or collection argument may be `null` (`None`); a collection is known by its `Count`. */
module If {
  import opened Wrappers
  import opened Values

  function IsNotNull(value: Value): (r: bool)
    ensures r <==> !value.Null?
  {
    value != Null
  }

  function IsNull(value: Value): (r: bool)
    ensures r <==> value.Null?
  {
    value == Null
  }

  /** Whether the string has length zero; the lifted comparison makes null not empty. */
  function IsEmpty(s: Option<string>): (r: bool)
    ensures r <==> s == Some("")
  {
    LiftedEquals(NullableLength(s), 0)
  }

  /** Whether the string has a positive length; false for null. */
  function IsNotEmpty(s: Option<string>): (r: bool)
    ensures r <==> s.Some? && s.value != ""
  {
    LiftedGreater(NullableLength(s), 0)
  }

  /** Whether the collection holds no element; false for null. */
  function IsEmptyCollection(count: Option<nat>): (r: bool)
    ensures r <==> count == Some(0)
  {
    LiftedEquals(CountOf(count), 0)
  }

  /** Whether the collection holds some element; false for null. */
  function IsNotEmptyCollection(count: Option<nat>): (r: bool)
    ensures r <==> count.Some? && count.value > 0
  {
    LiftedGreater(CountOf(count), 0)
  }

  /** Whether the collection is null or holds no element. */
  function IsNullOrEmpty(count: Option<nat>): (r: bool)
    ensures r <==> count == None || count == Some(0)
  {
    IsNull(CollectionValue(count)) || IsEmptyCollection(count)
  }

  function IsTrue(value: bool): (r: bool)
    ensures r == value
  {
    value
  }

  function IsFalse(value: bool): (r: bool)
    ensures r == !value
  {
    !value
  }

  /** A nullable collection seen as an object. */
  function CollectionValue(count: Option<nat>): Value {
    match count
    case None => Null
    case Some(n) => Collection(n)
  }

  function CountOf(count: Option<nat>): Option<int> {
    match count
    case None => None
    case Some(n) => Some(n)
  }

  lemma IsNullIsNotIsNotNull(value: Value)
    ensures IsNull(value) == !IsNotNull(value)
  {
  }

  /** A null string or collection is neither empty nor non-empty. */
  lemma NullIsNeitherEmptyNorNotEmpty()
    ensures !IsEmpty(None) && !IsNotEmpty(None)
    ensures !IsEmptyCollection(None) && !IsNotEmptyCollection(None)
    ensures IsNullOrEmpty(None)
  {
  }

  /** On a non-null string or collection exactly one of the two holds. */
  lemma NonNullIsEmptyOrNotEmpty(s: string, count: nat)
    ensures IsEmpty(Some(s)) != IsNotEmpty(Some(s))
    ensures IsEmptyCollection(Some(count)) != IsNotEmptyCollection(Some(count))
  {
  }
}
