/** `Range<T>`: an immutable closed interval `[Min, Max]` over a total order, here `int`. */
module Ranges {
  import opened Wrappers
  import opened Exceptions

  datatype Range = Range(min: int, max: int)

  /** `a.CompareTo(b)` for integers: negative, zero or positive. */
  function CompareTo(a: int, b: int): (c: int)
    ensures (c < 0 <==> a < b) && (c == 0 <==> a == b) && (c > 0 <==> a > b)
  {
    if a < b then -1 else if a == b then 0 else 1
  }

  /** `GetMin(a, b)`: `a` when it is strictly smaller, otherwise `b`. */
  function GetMin(a: int, b: int): (r: int)
    ensures r <= a && r <= b && (r == a || r == b)
  {
    if CompareTo(a, b) < 0 then a else b
  }

  /** `GetMax(a, b)`: `a` when it is strictly larger, otherwise `b`. */
  function GetMax(a: int, b: int): (r: int)
    ensures r >= a && r >= b && (r == a || r == b)
  {
    if CompareTo(a, b) > 0 then a else b
  }

  /** The constructor takes `Max = GetMax(toInclusive, toInclusive)`, which is always
      `toInclusive`: a reversed pair gives the one-point range at `toInclusive`. */
  function New(fromInclusive: int, toInclusive: int): (r: Range)
    ensures r.max == toInclusive
    ensures r.min == if fromInclusive < toInclusive then fromInclusive else toInclusive
    ensures r.min <= r.max
  {
    Range(GetMin(fromInclusive, toInclusive), GetMax(toInclusive, toInclusive))
  }

  function Between(fromInclusive: int, toInclusive: int): (r: Range)
    ensures r == New(fromInclusive, toInclusive)
    ensures fromInclusive <= toInclusive ==> r == Range(fromInclusive, toInclusive)
  {
    New(fromInclusive, toInclusive)
  }

  /** Both ends are inclusive. */
  function Contains(r: Range, value: int): (b: bool)
    ensures b <==> r.min <= value <= r.max
  {
    CompareTo(value, r.min) >= 0 && CompareTo(value, r.max) <= 0
  }

  /** The other range lies entirely within this one. */
  function ContainsRange(r: Range, other: Range): (b: bool)
    ensures b <==> r.min <= other.min && other.max <= r.max
  {
    CompareTo(other.min, r.min) >= 0 && CompareTo(other.max, r.max) <= 0
  }

  /** `[max of the mins, min of the maxes]`, or `ArgumentException` when that is empty. */
  function Intersection(r: Range, other: Range): (res: Result<Range>)
    ensures var lo := if r.min <= other.min then other.min else r.min;
            var hi := if r.max >= other.max then other.max else r.max;
            (res.Ok? <==> lo <= hi) && (res.Ok? ==> res.value == Range(lo, hi))
    ensures res.Throw? ==> res.error == ArgumentException("No intersection found")
    ensures res.Ok? ==> ContainsRange(r, res.value) && ContainsRange(other, res.value)
  {
    var minMin := if CompareTo(r.min, other.min) <= 0 then other.min else r.min;
    var minMax := if CompareTo(r.max, other.max) >= 0 then other.max else r.max;
    if CompareTo(minMin, minMax) > 0 then Throw(ArgumentException("No intersection found"))
    else Ok(New(minMin, minMax))
  }

  function IsBefore(r: Range, value: int): (b: bool)
    ensures b <==> value < r.min
  {
    CompareTo(value, r.min) < 0
  }

  function IsAfter(r: Range, value: int): (b: bool)
    ensures b <==> value > r.max
  {
    CompareTo(value, r.max) > 0
  }

  /** Compares the other range's `Min` only. */
  function IsBeforeRange(r: Range, other: Range): (b: bool)
    ensures b <==> other.min < r.min
  {
    CompareTo(other.min, r.min) < 0
  }

  /** Compares the other range's `Max` only. */
  function IsAfterRange(r: Range, other: Range): (b: bool)
    ensures b <==> other.max > r.max
  {
    CompareTo(other.max, r.max) > 0
  }

  /** `Equals(object)`: `obj` is `None` when it is null or not a `Range<T>`. */
  function Equals(r: Range, obj: Option<Range>): (b: bool)
    ensures b <==> obj.Some? && obj.value.min == r.min && obj.value.max == r.max
  {
    match obj
    case None => false
    case Some(other) => (r.min, r.max) == (other.min, other.max)
  }

  /** A contained value is neither before nor after the range, and every value of a
      well-formed range is exactly one of before, contained, after. */
  lemma BeforeContainedAfter(r: Range, value: int)
    requires r.min <= r.max
    ensures Contains(r, value) ==> !IsBefore(r, value) && !IsAfter(r, value)
    ensures (IsBefore(r, value) || Contains(r, value) || IsAfter(r, value))
    ensures !(IsBefore(r, value) && IsAfter(r, value))
  {
  }

  /** A value lies in the intersection exactly when it lies in both ranges, and the
      intersection fails exactly when no value lies in both. */
  lemma IntersectionIsCommonValues(a: Range, b: Range)
    ensures Intersection(a, b).Ok? ==>
      forall v :: Contains(Intersection(a, b).value, v) <==> Contains(a, v) && Contains(b, v)
    ensures Intersection(a, b).Throw? <==> forall v :: !(Contains(a, v) && Contains(b, v))
  {
    var lo := if a.min <= b.min then b.min else a.min;
    var hi := if a.max >= b.max then b.max else a.max;
    if Intersection(a, b).Ok? {
      assert Contains(a, lo) && Contains(b, lo);
    }
  }

  lemma IntersectionCommutes(a: Range, b: Range)
    ensures Intersection(a, b) == Intersection(b, a)
  {
  }

  /** Equality is symmetric and holds iff both bounds agree. */
  lemma EqualsIsSymmetric(a: Range, b: Range)
    ensures Equals(a, Some(b)) == Equals(b, Some(a))
    ensures Equals(a, Some(b)) <==> a == b
    ensures !Equals(a, None)
  {
  }

  /** The cases from the range tests. */
  lemma Examples()
    ensures New(20, 50) == Range(20, 50) && New(50, 20) == Range(20, 20)
    ensures Contains(Between(20, 50), 20) && Contains(Between(20, 50), 50) && !Contains(Between(20, 50), 10)
    ensures ContainsRange(Between(20, 50), Between(25, 40)) && !ContainsRange(Between(20, 50), Between(10, 16))
    ensures Intersection(Between(20, 50), Between(10, 25)) == Ok(Range(20, 25))
    ensures Intersection(Between(20, 50), Between(10, 13)).Throw? && Intersection(Between(20, 50), Between(51, 60)).Throw?
  {
  }
}
