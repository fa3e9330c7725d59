/**
  `EnumDescriptor`: names, descriptions and display names of the members of an enumerated
  type, and parsing a string back to a member.

  An enumerated type is its optional `[Description]` and its members in value order, each a
  name and an optional `[Description]`. A member is identified by its position; its
  `ToString()` is its name. The culture-sensitive comparisons become exact equality, and
  their case-insensitive form equality after folding ASCII letters to lower case.
*/
module EnumDescriptor {
  import opened Wrappers
  import opened Exceptions

  datatype Member = Member(name: string, description: Option<string>)

  datatype EnumType = EnumType(description: Option<string>, members: seq<Member>)

  /** The members of an enumerated type have distinct names. */
  predicate DistinctNames(e: EnumType) {
    forall i, j :: 0 <= i < j < |e.members| ==> e.members[i].name != e.members[j].name
  }

  /** `GetDescription(Type)`: the type's own description, or null. */
  function GetTypeDescription(e: EnumType): Option<string> {
    e.description
  }

  /** `enumType.GetMember(key)`: the position of the first member named `key`. */
  function FindMember(members: seq<Member>, key: string): (r: Option<nat>)
    ensures r.Some? ==>
      r.value < |members| && members[r.value].name == key
      && forall j :: 0 <= j < r.value ==> members[j].name != key
    ensures r.None? <==> forall j :: 0 <= j < |members| ==> members[j].name != key
  {
    if |members| == 0 then None
    else if members[0].name == key then Some(0)
    else
      match FindMember(members[1..], key)
      case None => None
      case Some(i) => Some(i + 1)
  }

  /** `GetDescription(Type, object)`: the description of the member named `key`, or null
      when there is no such member or it has no description. */
  function GetDescription(e: EnumType, key: string): Option<string> {
    match FindMember(e.members, key)
    case None => None
    case Some(i) => e.members[i].description
  }

  /** `GetDisplayName`: the description if there is one, otherwise `key` itself. */
  function GetDisplayName(e: EnumType, key: string): string {
    match GetDescription(e, key)
    case Some(d) => d
    case None => key
  }

  /** In a type with distinct names, a member's description is found by its name. */
  lemma DescriptionOfMember(e: EnumType, i: nat)
    requires DistinctNames(e) && i < |e.members|
    ensures GetDescription(e, e.members[i].name) == e.members[i].description
  {
    var found := FindMember(e.members, e.members[i].name);
    assert found.Some?;
    assert e.members[found.value].name == e.members[i].name;
  }

  /** A member's display name is its description, or its name when it has none. */
  lemma DisplayNameOfMember(e: EnumType, i: nat)
    requires DistinctNames(e) && i < |e.members|
    ensures GetDisplayName(e, e.members[i].name)
      == if e.members[i].description.Some? then e.members[i].description.value else e.members[i].name
  {
    DescriptionOfMember(e, i);
  }

  /** A value that names no member displays as itself. */
  lemma DisplayNameOfUnknown(e: EnumType, key: string)
    requires forall j :: 0 <= j < |e.members| ==> e.members[j].name != key
    ensures GetDescription(e, key) == None && GetDisplayName(e, key) == key
  {
  }

  /** `GetDisplayNames`: one display name per member, in value order. */
  method GetDisplayNames(e: EnumType) returns (names: seq<string>)
    ensures |names| == |e.members|
    ensures forall i :: 0 <= i < |names| ==> names[i] == GetDisplayName(e, e.members[i].name)
  {
    var values := seq(|e.members|, k requires 0 <= k < |e.members| => e.members[k].name);
    var descriptions := new string[|values|];
    for i := 0 to descriptions.Length
      invariant forall k :: 0 <= k < i ==> descriptions[k] == GetDisplayName(e, values[k])
    {
      descriptions[i] := GetDisplayName(e, values[i]);
    }
    names := descriptions[..];
  }

  /** `GetDescriptions`: one description (or null) per member, in value order. */
  method GetDescriptions(e: EnumType) returns (descriptions: seq<Option<string>>)
    ensures |descriptions| == |e.members|
    ensures forall i :: 0 <= i < |descriptions| ==> descriptions[i] == GetDescription(e, e.members[i].name)
  {
    var values := seq(|e.members|, k requires 0 <= k < |e.members| => e.members[k].name);
    var result := new Option<string>[|values|];
    for i := 0 to result.Length
      invariant forall k :: 0 <= k < i ==> result[k] == GetDescription(e, values[k])
    {
      result[i] := GetDescription(e, values[i]);
    }
    descriptions := result[..];
  }

  // Comparison

  function Lower(c: char): char {
    if 'A' <= c <= 'Z' then (c as int + 32) as char else c
  }

  function FoldCase(s: string): (t: string)
    ensures |t| == |s| && forall i :: 0 <= i < |s| ==> t[i] == Lower(s[i])
  {
    seq(|s|, i requires 0 <= i < |s| => Lower(s[i]))
  }

  /** `a.Equals(b, comparison)` for `CurrentCulture` or `CurrentCultureIgnoreCase`. */
  predicate EqualsUnder(a: string, b: string, ignoreCase: bool) {
    if ignoreCase then FoldCase(a) == FoldCase(b) else a == b
  }

  /** The comparison is an equivalence, and the case-insensitive one accepts all that the
      case-sensitive one does. */
  lemma EqualsUnderProperties(a: string, b: string, c: string, ignoreCase: bool)
    ensures EqualsUnder(a, a, ignoreCase)
    ensures EqualsUnder(a, b, ignoreCase) ==> EqualsUnder(b, a, ignoreCase)
    ensures EqualsUnder(a, b, ignoreCase) && EqualsUnder(b, c, ignoreCase) ==> EqualsUnder(a, c, ignoreCase)
    ensures EqualsUnder(a, b, false) ==> EqualsUnder(a, b, true)
  {
  }

  const NotFound: string := "' was not found."

  function NotFoundMessage(value: string): string {
    "Requested value '" + value + NotFound
  }

  /** `String.Format` prints a null argument as the empty string. */
  function Formatted(value: Option<string>): string {
    if value.Some? then value.value else ""
  }

  // Parsing

  /** The test inside `ParseDisplayName`'s loop: member i's name or display name matches.
      No string equals null. */
  predicate MatchesDisplayName(e: EnumType, i: nat, value: Option<string>, ignoreCase: bool)
    requires i < |e.members|
  {
    var name := e.members[i].name;
    value.Some? &&
    (EqualsUnder(name, value.value, ignoreCase) || EqualsUnder(GetDisplayName(e, name), value.value, ignoreCase))
  }

  /** The test inside `ParseDescription`'s loop: member i has a non-empty description that
      matches. */
  predicate MatchesDescription(e: EnumType, i: nat, value: Option<string>, ignoreCase: bool)
    requires i < |e.members|
  {
    var description := GetDescription(e, e.members[i].name);
    !IsNullOrEmpty(description) && value.Some? && EqualsUnder(description.value, value.value, ignoreCase)
  }

  /** `ParseDisplayName(Type, string, bool)`: the first member, in value order, whose name or
      display name matches; `ArgumentException` when none does. */
  method ParseDisplayName(e: EnumType, value: Option<string>, ignoreCase: bool) returns (r: Result<nat>)
    ensures r.Ok? ==>
      r.value < |e.members| && MatchesDisplayName(e, r.value, value, ignoreCase)
      && forall j :: 0 <= j < r.value ==> !MatchesDisplayName(e, j, value, ignoreCase)
    ensures r.Throw? <==> forall j :: 0 <= j < |e.members| ==> !MatchesDisplayName(e, j, value, ignoreCase)
    ensures r.Throw? ==> r.error == ArgumentException(NotFoundMessage(Formatted(value)))
  {
    for i := 0 to |e.members|
      invariant forall j :: 0 <= j < i ==> !MatchesDisplayName(e, j, value, ignoreCase)
    {
      var name := e.members[i].name;
      if value.Some? && (EqualsUnder(name, value.value, ignoreCase) || EqualsUnder(GetDisplayName(e, name), value.value, ignoreCase)) {
        assert MatchesDisplayName(e, i, value, ignoreCase);
        return Ok(i);
      }
    }
    return Throw(ArgumentException(NotFoundMessage(Formatted(value))));
  }

  /** `ParseDescription(Type, string, bool)`: the first member, in value order, with a
      non-empty description that matches; `ArgumentException` when none does. */
  method ParseDescription(e: EnumType, value: Option<string>, ignoreCase: bool) returns (r: Result<nat>)
    ensures r.Ok? ==>
      r.value < |e.members| && MatchesDescription(e, r.value, value, ignoreCase)
      && forall j :: 0 <= j < r.value ==> !MatchesDescription(e, j, value, ignoreCase)
    ensures r.Throw? <==> forall j :: 0 <= j < |e.members| ==> !MatchesDescription(e, j, value, ignoreCase)
    ensures r.Throw? ==> r.error == ArgumentException(NotFoundMessage(Formatted(value)))
  {
    for i := 0 to |e.members|
      invariant forall j :: 0 <= j < i ==> !MatchesDescription(e, j, value, ignoreCase)
    {
      var description := GetDescription(e, e.members[i].name);
      if !IsNullOrEmpty(description) {
        if value.Some? && EqualsUnder(description.value, value.value, ignoreCase) {
          assert MatchesDescription(e, i, value, ignoreCase);
          return Ok(i);
        }
      }
    }
    return Throw(ArgumentException(NotFoundMessage(Formatted(value))));
  }

  /** `IsDisplayNameDefined`: whether the case-sensitive `ParseDisplayName` of the value's
      string succeeds. For a null value, `value.ToString()` throws `NullReferenceException`,
      which the `catch` of `ArgumentException` lets through. */
  method IsDisplayNameDefined(e: EnumType, value: Option<string>) returns (r: Result<bool>)
    ensures value.None? <==> r == Throw(NullReferenceException)
    ensures value.Some? ==> r == Ok(exists j :: 0 <= j < |e.members| && MatchesDisplayName(e, j, value, false))
  {
    if value.None? {
      return Throw(NullReferenceException);
    }
    var parsed := ParseDisplayName(e, value, false);
    return Ok(parsed.Ok?);
  }

  /** `IsDescriptionDefined`: whether the case-sensitive `ParseDescription` of the value's
      string succeeds; `NullReferenceException` for a null value, as above. */
  method IsDescriptionDefined(e: EnumType, value: Option<string>) returns (r: Result<bool>)
    ensures value.None? <==> r == Throw(NullReferenceException)
    ensures value.Some? ==> r == Ok(exists j :: 0 <= j < |e.members| && MatchesDescription(e, j, value, false))
  {
    if value.None? {
      return Throw(NullReferenceException);
    }
    var parsed := ParseDescription(e, value, false);
    return Ok(parsed.Ok?);
  }

  /** A null value: both parsers throw the not-found exception with an empty value in its
      message, and both `Is...Defined` tests throw `NullReferenceException` instead of
      answering false. */
  method NullValue(e: EnumType, ignoreCase: bool)
    returns (display: Result<nat>, description: Result<nat>, displayDefined: Result<bool>, descriptionDefined: Result<bool>)
    ensures display == Throw(ArgumentException("Requested value '' was not found."))
    ensures description == Throw(ArgumentException("Requested value '' was not found."))
    ensures displayDefined == Throw(NullReferenceException)
    ensures descriptionDefined == Throw(NullReferenceException)
  {
    display := ParseDisplayName(e, None, ignoreCase);
    description := ParseDescription(e, None, ignoreCase);
    displayDefined := IsDisplayNameDefined(e, None);
    descriptionDefined := IsDescriptionDefined(e, None);
  }

  /** No member's name or display name equals another member's display name. */
  predicate NoCollisions(e: EnumType) {
    DistinctNames(e)
    && forall i, j :: 0 <= i < |e.members| && 0 <= j < |e.members| && i != j ==>
      e.members[j].name != GetDisplayName(e, e.members[i].name)
      && GetDisplayName(e, e.members[j].name) != GetDisplayName(e, e.members[i].name)
  }

  /** Without collisions, parsing a member's display name gives the member back. */
  method DisplayNameRoundTrip(e: EnumType, i: nat) returns (r: Result<nat>)
    requires NoCollisions(e) && i < |e.members|
    ensures r == Ok(i)
  {
    var display := GetDisplayName(e, e.members[i].name);
    r := ParseDisplayName(e, Some(display), false);
    assert MatchesDisplayName(e, i, Some(display), false);
  }

  /** A member with a non-empty description, which no other member shares, is parsed back
      from that description. */
  method DescriptionRoundTrip(e: EnumType, i: nat) returns (r: Result<nat>)
    requires DistinctNames(e) && i < |e.members|
    requires e.members[i].description.Some? && e.members[i].description.value != ""
    requires forall j :: 0 <= j < |e.members| && j != i ==> e.members[j].description != e.members[i].description
    ensures r == Ok(i)
  {
    var d := e.members[i].description.value;
    r := ParseDescription(e, Some(d), false);
    DescriptionOfMember(e, i);
    assert MatchesDescription(e, i, Some(d), false);
    forall j | 0 <= j < |e.members| && j != i
      ensures !MatchesDescription(e, j, Some(d), false)
    {
      DescriptionOfMember(e, j);
    }
  }

  /** A member without a description is never found by `ParseDescription` under its name,
      unless another member's description is that name. */
  method BareNameRejected(e: EnumType, i: nat) returns (r: Result<nat>)
    requires DistinctNames(e) && i < |e.members| && e.members[i].description.None?
    requires forall j :: 0 <= j < |e.members| ==> e.members[j].description != Some(e.members[i].name)
    ensures r == Throw(ArgumentException(NotFoundMessage(e.members[i].name)))
  {
    var name := e.members[i].name;
    r := ParseDescription(e, Some(name), false);
    forall j | 0 <= j < |e.members|
      ensures !MatchesDescription(e, j, Some(name), false)
    {
      DescriptionOfMember(e, j);
    }
  }

  // The enumerated type of the library's tests.

  const TestEnum: EnumType := EnumType(Some("List of test enumerations"), [
    Member("One", None),
    Member("Two", Some("Number Two")),
    Member("Three", Some("Third")),
    Member("Four", Some("Four")),
    Member("Five", Some("Five gold rings"))
  ])

  lemma TestEnumDescriptions()
    ensures GetTypeDescription(TestEnum) == Some("List of test enumerations")
    ensures GetTypeDescription(EnumType(None, [])) == None
    ensures GetDescription(TestEnum, "One") == None && GetDisplayName(TestEnum, "One") == "One"
    ensures GetDescription(TestEnum, "Two") == Some("Number Two") && GetDisplayName(TestEnum, "Two") == "Number Two"
  {
  }

  lemma TestEnumDistinct()
    ensures DistinctNames(TestEnum)
  {
  }

  /** `GetDisplayNames` on the test enumeration, in value order. */
  method TestEnumDisplayNames() returns (names: seq<string>)
    ensures |names| == 5
    ensures names[0] == "One" && names[1] == "Number Two" && names[2] == "Third"
    ensures names[3] == "Four" && names[4] == "Five gold rings"
  {
    names := GetDisplayNames(TestEnum);
    DisplayOfOne();
    DisplayOfTwo();
    DisplayOfThree();
    DisplayOfFour();
    DisplayOfFive();
  }

  lemma DisplayOfOne()
    ensures GetDisplayName(TestEnum, TestEnum.members[0].name) == "One"
  {
  }

  lemma DisplayOfTwo()
    ensures GetDisplayName(TestEnum, TestEnum.members[1].name) == "Number Two"
  {
  }

  lemma DisplayOfThree()
    ensures GetDisplayName(TestEnum, TestEnum.members[2].name) == "Third"
  {
  }

  lemma DisplayOfFour()
    ensures GetDisplayName(TestEnum, TestEnum.members[3].name) == "Four"
  {
  }

  lemma DisplayOfFive()
    ensures GetDisplayName(TestEnum, TestEnum.members[4].name) == "Five gold rings"
  {
  }

  /** `ParseDisplayName("one", true)` finds `One`. */
  method TestEnumParseIgnoringCase() returns (r: Result<nat>)
    ensures r == Ok(0)
  {
    r := ParseDisplayName(TestEnum, Some("one"), true);
    assert FoldCase("One") == "one" == FoldCase("one");
    assert MatchesDisplayName(TestEnum, 0, Some("one"), true);
  }

  /** `ParseDescription("One")` throws: `One` has no description. */
  method TestEnumBareName() returns (r: Result<nat>)
    ensures r == Throw(ArgumentException(NotFoundMessage("One")))
  {
    TestEnumDistinct();
    r := BareNameRejected(TestEnum, 0);
  }
}
