/** The second, block-bodied copy of `Range<T>`, over `int`. It is written out again because it
    is a separate class; `SameAsRanges` shows that it agrees with `Ranges` on every operation. */
module RangesCopy {
  import opened Wrappers
  import opened Exceptions
  import Ranges

  datatype Range = Range(min: int, max: int)

  function CompareTo(a: int, b: int): int {
    if a < b then -1 else if a == b then 0 else 1
  }

  function GetMin(a: int, b: int): (r: int)
    ensures r <= a && r <= b && (r == a || r == b)
  {
    if CompareTo(a, b) < 0 then a else b
  }

  function GetMax(a: int, b: int): (r: int)
    ensures r >= a && r >= b && (r == a || r == b)
  {
    if CompareTo(a, b) > 0 then a else b
  }

  /** The same constructor quirk: `Max` is always `toInclusive`. */
  function New(fromInclusive: int, toInclusive: int): (r: Range)
    ensures r.max == toInclusive
    ensures r.min == if fromInclusive < toInclusive then fromInclusive else toInclusive
    ensures r.min <= r.max
  {
    Range(GetMin(fromInclusive, toInclusive), GetMax(toInclusive, toInclusive))
  }

  function Between(fromInclusive: int, toInclusive: int): Range {
    New(fromInclusive, toInclusive)
  }

  function Contains(r: Range, value: int): (b: bool)
    ensures b <==> r.min <= value <= r.max
  {
    CompareTo(value, r.min) >= 0 && CompareTo(value, r.max) <= 0
  }

  function ContainsRange(r: Range, other: Range): (b: bool)
    ensures b <==> r.min <= other.min && other.max <= r.max
  {
    CompareTo(other.min, r.min) >= 0 && CompareTo(other.max, r.max) <= 0
  }

  function Intersection(r: Range, other: Range): (res: Result<Range>)
    ensures res.Ok? ==> ContainsRange(r, res.value) && ContainsRange(other, res.value)
    ensures res.Throw? <==> forall v :: !(Contains(r, v) && Contains(other, v))
  {
    var minMin := if CompareTo(r.min, other.min) <= 0 then other.min else r.min;
    var minMax := if CompareTo(r.max, other.max) >= 0 then other.max else r.max;
    if CompareTo(minMin, minMax) > 0 then Throw(ArgumentException("No intersection found"))
    else assert Contains(r, minMin) && Contains(other, minMin); Ok(New(minMin, minMax))
  }

  function IsBefore(r: Range, value: int): (b: bool)
    ensures b <==> value < r.min
  {
    CompareTo(value, r.min) < 0
  }

  function IsAfter(r: Range, value: int): (b: bool)
    ensures b <==> value > r.max
  {
    CompareTo(value, r.max) > 0
  }

  function IsBeforeRange(r: Range, other: Range): (b: bool)
    ensures b <==> other.min < r.min
  {
    CompareTo(other.min, r.min) < 0
  }

  function IsAfterRange(r: Range, other: Range): (b: bool)
    ensures b <==> other.max > r.max
  {
    CompareTo(other.max, r.max) > 0
  }

  function Equals(r: Range, obj: Option<Range>): (b: bool)
    ensures b <==> obj == Some(r)
  {
    match obj
    case None => false
    case Some(other) => (r.min, r.max) == (other.min, other.max)
  }

  function AsRanges(r: Range): Ranges.Range {
    Ranges.Range(r.min, r.max)
  }

  function ResultAsRanges(res: Result<Range>): Result<Ranges.Range> {
    match res
    case Ok(r) => Ok(AsRanges(r))
    case Throw(e) => Throw(e)
  }

  /** Every operation of this copy gives the result the expression-bodied `Range<T>` gives. */
  lemma SameAsRanges(a: Range, b: Range, from: int, to: int, value: int)
    ensures AsRanges(New(from, to)) == Ranges.New(from, to)
    ensures AsRanges(Between(from, to)) == Ranges.Between(from, to)
    ensures Contains(a, value) == Ranges.Contains(AsRanges(a), value)
    ensures ContainsRange(a, b) == Ranges.ContainsRange(AsRanges(a), AsRanges(b))
    ensures ResultAsRanges(Intersection(a, b)) == Ranges.Intersection(AsRanges(a), AsRanges(b))
    ensures IsBefore(a, value) == Ranges.IsBefore(AsRanges(a), value)
    ensures IsAfter(a, value) == Ranges.IsAfter(AsRanges(a), value)
    ensures IsBeforeRange(a, b) == Ranges.IsBeforeRange(AsRanges(a), AsRanges(b))
    ensures IsAfterRange(a, b) == Ranges.IsAfterRange(AsRanges(a), AsRanges(b))
    ensures Equals(a, Some(b)) == Ranges.Equals(AsRanges(a), Some(AsRanges(b)))
    ensures Equals(a, None) == Ranges.Equals(AsRanges(a), None)
    ensures GetMin(from, to) == Ranges.GetMin(from, to) && GetMax(from, to) == Ranges.GetMax(from, to)
  {
  }
}
