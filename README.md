# PutridParrot.Utilities in Dafny

A model of the core of PutridParrot.Utilities, a collection of small C# utilities:

- the expiring key/value cache (`CacheLite`, `CacheEntry`, `CacheScheduler`);
- the Java-style big-endian streams (`DataOutputStream`, `DataInputStream`);
- `Path.Combine`;
- the two copies of `Range<T>`;
- the `BitFields` word;
- `EnumDescriptor`;
- the `Condition` checks, the `If` predicates and the NUnit-style constraints;
- the `Success`/`Failure` results.

Each stateful class of the library is a Dafny `class` whose methods change its fields:
- the cache's store;
- the scheduler's subscriber list and timer;
- the written bytes of an output stream;
- the position of an input stream;
- the state of a `BitFields`;
- the stack of a `ConstraintExpression`.

Each method's `ensures` states its whole new state and its result. Pure code is functions over datatypes. Lemmas state what the library promises across calls:
- round trips: stream writes read back; path split and join;
- the invariants an operation keeps;
- error cases;
- the behaviour the library's tests expect.

C# integers are unbounded `int`s restricted to their range. Wrap-around, arithmetic shifts and truncating casts are written out (modules `Words`, `Bytes`). `null` is `None` of `Option`. An exception is the `Throw`/`Fail` case of `Result`/`Outcome`, carrying the exception and, where the library supplies one, its message.

The clock is not read. Every operation that reads `DateTime.Now` takes the instant `now` as a parameter, in ticks. The threading timer is a record of how it was started, and its tick is a call of `CacheScheduler.Update`. Serialization is a `Codec` value: serialize, deserialize and `default(T)`. A cache round trip holds under the `RoundTrips` premise that deserializing undoes serializing.

Where the C# code and its tests disagree, the model follows the code:
- **CacheLite test:** `ScheduledExpiry_EnsureItemRemoved` expects a 1-second entry to be gone right after `Update`. `Touch` makes it expire one second after `now`, so `CacheScenarios.ScheduledExpiry` shows it surviving a tick at the same instant. That test class is marked as ignored.
- **Scheduler:** the comment in `CacheScheduler.Check` says the timer stops when no client is registered. The code can never take that branch (see `Cache.CheckNeverStops`). The model keeps the code's behaviour, and the timer stays once started.
- **Range constructor:** `Max` is `GetMax(toInclusive, toInclusive)`, which is always `toInclusive`, so `Range(50, 20)` is `[20, 20]`.

## Model

| member | source | states |
|---|---|---|
| Condition.IsTrueWithDelegate | PutridParrot.Utilities/PutridParrot.Utilities/Condition.cs:43-49 | the delegate is called exactly when the value is false and the delegate is not null |
| Condition.IsTrueWithMessage | PutridParrot.Utilities/PutridParrot.Utilities/Condition.cs:32-35 | fails exactly when the value is false, with a `ConditionException` carrying the message |
| Condition.IsTrue | PutridParrot.Utilities/PutridParrot.Utilities/Condition.cs:22-25 | passes on true; otherwise throws with the fixed message "The condition was not true" |
| Condition.IsFalseWithDelegate | PutridParrot.Utilities/PutridParrot.Utilities/Condition.cs:79-88 | the delegate is called exactly when the value is true and the delegate is not null |
| Condition.IsFalseWithMessage | PutridParrot.Utilities/PutridParrot.Utilities/Condition.cs:66-73 | fails exactly when the value is true, with the message |
| Condition.IsFalse | PutridParrot.Utilities/PutridParrot.Utilities/Condition.cs:57-60 | fails on true with "The condition was not false" |
| Condition.IsNullWithDelegate | PutridParrot.Utilities/PutridParrot.Utilities/Condition.cs:121-130 | the delegate is called exactly for a non-null value and a non-null delegate |
| Condition.IsNullWithMessage | PutridParrot.Utilities/PutridParrot.Utilities/Condition.cs:106-114 | fails exactly for a non-null value, with the message |
| Condition.IsNull | PutridParrot.Utilities/PutridParrot.Utilities/Condition.cs:96-99 | fails on a non-null value with "The condition was not null" |
| Condition.IsNotNullWithDelegate | PutridParrot.Utilities/PutridParrot.Utilities/Condition.cs:160-169 | the delegate is called exactly for null and a non-null delegate |
| Condition.IsNotNullWithMessage | PutridParrot.Utilities/PutridParrot.Utilities/Condition.cs:147-154 | fails exactly for null, with the message |
| Condition.IsNotNull | PutridParrot.Utilities/PutridParrot.Utilities/Condition.cs:138-141 | fails on null with "The condition was null" |
| Condition.AssertWithDelegate | PutridParrot.Utilities/PutridParrot.Utilities/Condition.cs:201-210 | the delegate is called exactly when the value is false and the delegate is not null |
| Condition.AssertWithMessage | PutridParrot.Utilities/PutridParrot.Utilities/Condition.cs:188-195 | fails exactly when the value is false, with the message |
| Condition.Assert | PutridParrot.Utilities/PutridParrot.Utilities/Condition.cs:179-182 | fails on false with "The assert was not true" |
| Condition.AssertIsIsTrue | PutridParrot.Utilities/PutridParrot.Utilities/Condition.cs:188-210 | `Assert` behaves as `IsTrue` in both its delegate and its message overloads |
| Condition.NullDelegateIsNoOp | PutridParrot.Utilities/PutridParrot.Utilities/Condition.cs:43-210 | a null failure delegate makes every check a no-op |
| SimpleCondition.IsTrue | PutridParrot.Utilities/Conditions/SimpleCondition.cs:11-17 | throws exactly when the value is false, with the given (possibly null) message |
| SimpleCondition.IsFalse | PutridParrot.Utilities/Conditions/SimpleCondition.cs:19-25 | throws exactly when the value is true |
| SimpleCondition.IsNotNull | PutridParrot.Utilities/Conditions/SimpleCondition.cs:27-33 | throws exactly for null |
| SimpleCondition.IsNull | PutridParrot.Utilities/Conditions/SimpleCondition.cs:35-41 | throws exactly for a non-null value |
| SimpleCondition.IsEmpty | PutridParrot.Utilities/Conditions/SimpleCondition.cs:43-61 | throws exactly for a non-empty string or a collection with a positive count |
| SimpleCondition.InRange | PutridParrot.Utilities/Conditions/SimpleCondition.cs:63-69 | passes exactly when lowest <= value <= highest |
| SimpleCondition.IsEmptyPasses | PutridParrot.Utilities/Conditions/SimpleCondition.cs:43-61 | null, "", an empty collection and any other object pass `IsEmpty` |
| SimpleCondition.InRangeAcceptsBounds | PutridParrot.Utilities/Conditions/SimpleCondition.cs:63-69 | both bounds are inside, their neighbours outside |
| If.IsNotNull | PutridParrot.Utilities/PutridParrot.Utilities/Conditions/If.cs:11-14 | true exactly for a non-null value |
| If.IsNull | PutridParrot.Utilities/PutridParrot.Utilities/Conditions/If.cs:16-19 | true exactly for null |
| If.IsEmpty | PutridParrot.Utilities/PutridParrot.Utilities/Conditions/If.cs:21-24 | true exactly for the empty string; false for null (lifted comparison) |
| If.IsNotEmpty | PutridParrot.Utilities/PutridParrot.Utilities/Conditions/If.cs:26-29 | true exactly for a non-null, non-empty string |
| If.IsEmptyCollection | PutridParrot.Utilities/PutridParrot.Utilities/Conditions/If.cs:31-34 | true exactly for a non-null collection of count 0 |
| If.IsNotEmptyCollection | PutridParrot.Utilities/PutridParrot.Utilities/Conditions/If.cs:36-39 | true exactly for a non-null collection with a positive count |
| If.IsNullOrEmpty | PutridParrot.Utilities/PutridParrot.Utilities/Conditions/If.cs:41-44 | true exactly for null or count 0 |
| If.IsTrue | PutridParrot.Utilities/PutridParrot.Utilities/Conditions/If.cs:46-49 | the value itself |
| If.IsFalse | PutridParrot.Utilities/PutridParrot.Utilities/Conditions/If.cs:51-54 | the negated value |
| If.IsNullIsNotIsNotNull | PutridParrot.Utilities/PutridParrot.Utilities/Conditions/If.cs:11-19 | `IsNull` is the negation of `IsNotNull` |
| If.NullIsNeitherEmptyNorNotEmpty | PutridParrot.Utilities/PutridParrot.Utilities/Conditions/If.cs:21-44 | null is neither empty nor non-empty, and is `IsNullOrEmpty` |
| If.NonNullIsEmptyOrNotEmpty | PutridParrot.Utilities/PutridParrot.Utilities/Conditions/If.cs:21-39 | a non-null string or collection is exactly one of empty and non-empty |
| Constraints.Accepts | PutridParrot.Utilities/Conditions/NotConstraint.cs:5-8 | each leaf constraint's test: `Not` rejects only a boxed `true`; `True`/`False` accept only that boxed bool; `Null`/`NotNull` test nullness |
| Constraints.NullAndNotNullAreComplementary | PutridParrot.Utilities/Conditions/NotNullConstraint.cs:5-8 | `NotNull` accepts exactly what `Null` rejects |
| Constraints.NonBooleanValues | PutridParrot.Utilities/PutridParrot.Utilities/Conditions/TrueConstraint.cs:5-8 | a non-boolean satisfies neither `True` nor `False` but does satisfy `Not` |
| Constraints.BooleanValues | PutridParrot.Utilities/Conditions/FalseConstraint.cs:5-8 | on booleans `Not` and `False` negate and `True` is the identity |
| Constraints.Evaluate | PutridParrot.Utilities/Conditions/ConstraintExpression.cs:16-24 | an empty stack throws `InvalidOperationException`; a single constraint is simply applied |
| Constraints.FoldNotChain | PutridParrot.Utilities/Conditions/ConstraintExpression.cs:16-24 | a chain of k `Not`s negates a boolean k times |
| Constraints.ConstraintExpression.constructor | PutridParrot.Utilities/PutridParrot.Utilities/Conditions/Is.cs:13 | a new expression has an empty stack |
| Constraints.ConstraintExpression.Chain | PutridParrot.Utilities/Conditions/ConstraintExpression.cs:10-14 | pushes the constraint and returns the same expression |
| Constraints.ConstraintExpression.Not | PutridParrot.Utilities/Conditions/ConstraintExpression.cs:26 | pushes a `NotConstraint` |
| Constraints.ConstraintExpression.Null | PutridParrot.Utilities/Conditions/ConstraintExpression.cs:27 | pushes a `NullConstraint` |
| Constraints.ConstraintExpression.Check | PutridParrot.Utilities/Conditions/ConstraintExpression.cs:16-24 | the result is `Evaluate` of the stack before the call, and the stack is drained |
| Constraints.IsNotNull | PutridParrot.Utilities/PutridParrot.Utilities/Conditions/Is.cs:8 | `Is.NotNull` is the not-null constraint |
| Constraints.IsNull | PutridParrot.Utilities/PutridParrot.Utilities/Conditions/Is.cs:9 | `Is.Null` is the null constraint |
| Constraints.IsTrue | PutridParrot.Utilities/PutridParrot.Utilities/Conditions/Is.cs:10 | `Is.True` is the true constraint |
| Constraints.IsFalse | PutridParrot.Utilities/PutridParrot.Utilities/Conditions/Is.cs:11 | `Is.False` is the false constraint |
| Constraints.IsNot | PutridParrot.Utilities/PutridParrot.Utilities/Conditions/Is.cs:13 | `Is.Not` is a fresh expression holding one `NotConstraint` |
| Constraints.IsNotNullExpression | PutridParrot.Utilities/PutridParrot.Utilities/Conditions/Is.cs:13 | `Is.Not.Null` accepts exactly the non-null values |
| Constraints.NotNullStack | PutridParrot.Utilities/Conditions/ConstraintExpression.cs:16-24 | the stack `[Not, Null]` evaluates to "not null" |
| Constraints.CheckTwice | PutridParrot.Utilities/Conditions/ConstraintExpression.cs:16-24 | a second `Check` of the same expression throws, because the first drained it |
| Constraints.CheckCondition | PutridParrot.Utilities/PutridParrot.Utilities/Conditions/Condition.cs:9-15 | `Condition.Check` with a constraint throws exactly when the constraint rejects the value |
| Constraints.CheckExpressionCondition | PutridParrot.Utilities/PutridParrot.Utilities/Conditions/Condition.cs:17-23 | `Condition.Check` with an expression: the expression's exception propagates, and a false result throws with the message |
| Results.NewSuccess | PutridParrot.Utilities/Result/Success.cs:3-5 | a `Success` is a success, not a failure, with the empty failure message |
| Results.NewSuccessOf | PutridParrot.Utilities/Result/Success.cs:9-12 | `Success<T>` keeps its value and is a success |
| Results.NewFailure | PutridParrot.Utilities/Result/Failure.cs:9-12 | `new Failure()` is a failure with the empty message |
| Results.NewFailureWithMessage | PutridParrot.Utilities/Result/Failure.cs:14-17 | a failure with the given message |
| Results.NewFailureOf | PutridParrot.Utilities/Result/Failure.cs:30-33 | `Failure<T>(value)` keeps the value and has the empty message |
| Results.NewFailureOfWithMessage | PutridParrot.Utilities/Result/Failure.cs:35-39 | keeps both the value and the message |
| Results.IsSuccess | PutridParrot.Utilities/Result/ResultExtensions.cs:8-9 | true exactly for the types implementing `ISuccess` |
| Results.IsFailure | PutridParrot.Utilities/Result/ResultExtensions.cs:11-12 | true exactly for the types implementing `IFailure` |
| Results.FailureMessage | PutridParrot.Utilities/Result/ResultExtensions.cs:14-15 | the message of a `Failure`, the empty string for anything else |
| Results.ExactlyOneOfSuccessAndFailure | PutridParrot.Utilities/Result/ResultExtensions.cs:8-12 | each of the library's own result types is exactly one of success and failure |
| Results.ForeignFailureHasEmptyMessage | PutridParrot.Utilities/Result/ResultExtensions.cs:14-15 | a foreign `IFailure` has the empty message |
| Ranges.CompareTo | PutridParrot.Utilities/Range.cs:37-38 | the sign of the comparison matches the order |
| Ranges.GetMin | PutridParrot.Utilities/Range.cs:113-114 | the smaller of the two, which is one of them |
| Ranges.GetMax | PutridParrot.Utilities/Range.cs:125-126 | the larger of the two, which is one of them |
| Ranges.New | PutridParrot.Utilities/Range.cs:13-17 | `Max` is always `toInclusive`, `Min` the smaller of the bounds, and `Min <= Max` |
| Ranges.Between | PutridParrot.Utilities/Range.cs:19-20 | the constructor; ordered bounds are kept as given |
| Ranges.Contains | PutridParrot.Utilities/Range.cs:37-38 | Min <= value <= Max, both ends inclusive |
| Ranges.ContainsRange | PutridParrot.Utilities/Range.cs:46-47 | the other range lies entirely within |
| Ranges.Intersection | PutridParrot.Utilities/Range.cs:55-66 | [larger Min, smaller Max], contained in both; `ArgumentException("No intersection found")` when empty |
| Ranges.IsBefore | PutridParrot.Utilities/Range.cs:74-75 | value < Min |
| Ranges.IsAfter | PutridParrot.Utilities/Range.cs:83-84 | value > Max |
| Ranges.IsBeforeRange | PutridParrot.Utilities/Range.cs:92-93 | compares only the other range's `Min` |
| Ranges.IsAfterRange | PutridParrot.Utilities/Range.cs:101-102 | compares only the other range's `Max` |
| Ranges.Equals | PutridParrot.Utilities/Range.cs:135-136 | true exactly for a non-null range with the same bounds |
| Ranges.BeforeContainedAfter | PutridParrot.Utilities/Range.cs:37-84 | every value is before, in or after the range, and a contained value is neither before nor after |
| Ranges.IntersectionIsCommonValues | PutridParrot.Utilities/Range.cs:55-66 | the intersection holds exactly the values in both ranges, and throws exactly when there are none |
| Ranges.IntersectionCommutes | PutridParrot.Utilities/Range.cs:55-66 | the intersection does not depend on the order of its operands |
| Ranges.EqualsIsSymmetric | PutridParrot.Utilities/Range.cs:135-136 | equality is symmetric, means equal bounds, and is false for null |
| Ranges.Examples | Tests.PutridParrot.Utilities/RangeTests.cs:13-134 | the cases from the range tests |
| RangesCopy.GetMin | PutridParrot.Utilities/PutridParrot.Utilities/Range.cs:80-83 | the smaller of the two |
| RangesCopy.GetMax | PutridParrot.Utilities/PutridParrot.Utilities/Range.cs:85-88 | the larger of the two |
| RangesCopy.New | PutridParrot.Utilities/PutridParrot.Utilities/Range.cs:16-20 | the same constructor behaviour: `Max` is always `toInclusive` |
| RangesCopy.Contains | PutridParrot.Utilities/PutridParrot.Utilities/Range.cs:30-33 | Min <= value <= Max |
| RangesCopy.ContainsRange | PutridParrot.Utilities/PutridParrot.Utilities/Range.cs:35-38 | the other range lies within |
| RangesCopy.Intersection | PutridParrot.Utilities/PutridParrot.Utilities/Range.cs:46-57 | contained in both; throws exactly when no value lies in both |
| RangesCopy.IsBefore | PutridParrot.Utilities/PutridParrot.Utilities/Range.cs:59-62 | value < Min |
| RangesCopy.IsAfter | PutridParrot.Utilities/PutridParrot.Utilities/Range.cs:64-67 | value > Max |
| RangesCopy.IsBeforeRange | PutridParrot.Utilities/PutridParrot.Utilities/Range.cs:69-72 | other.Min < Min |
| RangesCopy.IsAfterRange | PutridParrot.Utilities/PutridParrot.Utilities/Range.cs:74-77 | other.Max > Max |
| RangesCopy.Equals | PutridParrot.Utilities/PutridParrot.Utilities/Range.cs:90-93 | true exactly for a range with the same bounds |
| RangesCopy.SameAsRanges | PutridParrot.Utilities/PutridParrot.Utilities/Range.cs:13-99 | every operation of the block-bodied copy agrees with the expression-bodied `Range<T>` |
| BitFields.BitsDetermineLong | PutridParrot.Utilities/BitField.cs:15 | a `long` is determined by its 64 bits |
| BitFields.AndIsBitwise | PutridParrot.Utilities/BitField.cs:113-116 | bit i of `a & b` is bit i of a and bit i of b |
| BitFields.OrIsBitwise | PutridParrot.Utilities/BitField.cs:123-126 | bit i of `a \| b` is either bit |
| BitFields.XorIsBitwise | PutridParrot.Utilities/BitField.cs:133-136 | bit i of `a ^ b` is the bits' difference |
| BitFields.NotIsBitwise | PutridParrot.Utilities/BitField.cs:142-145 | bit i of `~a` is the inverted bit |
| BitFields.PatternOfNot | PutridParrot.Utilities/BitField.cs:142-145 | the pattern of `~a` is the complement of a's pattern |
| BitFields.AndAll | PutridParrot.Utilities/BitField.cs:152-155 | the `&` operator is bitwise AND on all 64 bits |
| BitFields.OrAll | PutridParrot.Utilities/BitField.cs:162-165 | the `\|` operator is bitwise OR on all 64 bits |
| BitFields.XorAll | PutridParrot.Utilities/BitField.cs:172-175 | the `^` operator is bitwise XOR on all 64 bits |
| BitFields.NotAll | PutridParrot.Utilities/BitField.cs:181-184 | the `~` operator inverts all 64 bits |
| BitFields.XorTwice | PutridParrot.Utilities/BitField.cs:69 | toggling the same mask twice restores the state |
| BitFields.XorZero | PutridParrot.Utilities/BitField.cs:69 | toggling a mask into the clear word gives the mask |
| BitFields.MaskBelow31 | PutridParrot.Utilities/BitField.cs:60 | for `index & 31` below 31, `1 << index` is 2^(index & 31) |
| BitFields.MaskAt31 | PutridParrot.Utilities/BitField.cs:60 | for `index & 31 == 31`, `1 << index` is `int.MinValue` |
| BitFields.PatternOfMaskAt31 | PutridParrot.Utilities/BitField.cs:60 | widened to `long`, that mask has bits 31..63 set |
| BitFields.BitOfMask | PutridParrot.Utilities/BitField.cs:60 | the widened mask has exactly the bits `MaskCovers` names |
| BitFields.ReadsSomeCoveredBit | PutridParrot.Utilities/BitField.cs:60-61 | the getter is true exactly when some covered bit is set |
| BitFields.ReadsLowBit | PutridParrot.Utilities/BitField.cs:60-61 | for counts below 31 the getter reads bit `index & 31` |
| BitFields.ReadsTopBits | PutridParrot.Utilities/BitField.cs:60-61 | for count 31 the getter reports whether the state lies outside [0, 2^31) |
| BitFields.ToggleBits | PutridParrot.Utilities/BitField.cs:69 | the setter flips exactly the covered bits |
| BitFields.ToggleFlipsRead | PutridParrot.Utilities/BitField.cs:55-70 | for count below 31, a set then a get of the same index reads the opposite of before |
| BitFields.ToggleFrame | PutridParrot.Utilities/BitField.cs:55-70 | toggling one index leaves the read of every index whose bit it does not cover |
| BitFields.MaskAliases | PutridParrot.Utilities/BitField.cs:60 | indices 32 apart share a mask |
| BitFields.ShiftCount | PutridParrot.Utilities/BitField.cs:193 | the count of a `long` shift is `amount & 63` |
| BitFields.PatternOfDouble | PutridParrot.Utilities/BitField.cs:193 | the pattern of a wrapped doubling |
| BitFields.PatternOfHalf | PutridParrot.Utilities/BitField.cs:203 | the pattern of an arithmetic halving |
| BitFields.DoubleBits | PutridParrot.Utilities/BitField.cs:193 | doubling moves each bit up by one and clears bit 0 |
| BitFields.HalveBits | PutridParrot.Utilities/BitField.cs:203 | halving moves each bit down by one and repeats the sign bit |
| BitFields.ShiftLeftBits | PutridParrot.Utilities/BitField.cs:191-194 | bit i of `v << n` is bit i-n of v, and clear below n |
| BitFields.ShiftRightBits | PutridParrot.Utilities/BitField.cs:201-204 | bit i of `v >> n` is bit min(i+n, 63) of v |
| BitFields.ShiftRightKeepsSign | PutridParrot.Utilities/BitField.cs:201-204 | an arithmetic right shift keeps the sign |
| BitFields.ShiftLeftIsProduct | PutridParrot.Utilities/BitField.cs:191-194 | `v << n` is v * 2^n wrapped to 64 bits |
| BitFields.BitFields.constructor | PutridParrot.Utilities/BitField.cs:20-22 | a new word is clear |
| BitFields.BitFields.FromState | PutridParrot.Utilities/BitField.cs:28-32 | holds the given state; also the implicit conversion from `long` |
| BitFields.BitFields.SetState | PutridParrot.Utilities/BitField.cs:37-41 | the `State` setter replaces the state |
| BitFields.BitFields.Get | PutridParrot.Utilities/BitField.cs:55-63 | throws `IndexOutOfRangeException` with the library's message exactly outside [0, 64); otherwise reads the covered bits |
| BitFields.BitFields.Set | PutridParrot.Utilities/BitField.cs:64-70 | the same range check; the state is XOR-ed with the mask, and the assigned value is not consulted |
| BitFields.BitFields.AndWith | PutridParrot.Utilities/BitField.cs:77-78 | the bitwise AND of the two states |
| BitFields.BitFields.OrWith | PutridParrot.Utilities/BitField.cs:85-88 | the bitwise OR of the two states |
| BitFields.BitFields.XorWith | PutridParrot.Utilities/BitField.cs:94-97 | the bitwise XOR of the two states |
| BitFields.BitFields.Inverted | PutridParrot.Utilities/BitField.cs:103-106 | every bit inverted |
| BitFields.BitFields.ShiftedLeft | PutridParrot.Utilities/BitField.cs:191-194 | bits move up by `amount & 63` |
| BitFields.BitFields.ShiftedRight | PutridParrot.Utilities/BitField.cs:201-204 | bits move down by `amount & 63`, filled with the sign |
| BitFields.SetTwiceRestores | PutridParrot.Utilities/BitField.cs:64-70 | two assignments to one index restore the state |
| BitFields.ConversionsRoundTrip | PutridParrot.Utilities/BitField.cs:211-223 | the two implicit conversions are inverse |
| BitFields.CountIsWidth | PutridParrot.Utilities/BitField.cs:45 | `Count` is 64 |
| BitFields.AndExample | Tests.PutridParrot.Utilities/BitFieldTests.cs:118-122 | 3 & 2 == 2 |
| BitFields.OrExample | Tests.PutridParrot.Utilities/BitFieldTests.cs:124-128 | 3 \| 2 == 3 |
| BitFields.XorExample | Tests.PutridParrot.Utilities/BitFieldTests.cs:130-134 | 3 ^ 2 == 1 |
| BitFields.NotExample | Tests.PutridParrot.Utilities/BitFieldTests.cs:136-140 | ~3 == -4 |
| BitFields.ShiftExamples | Tests.PutridParrot.Utilities/BitFieldTests.cs:170-182 | 1 << 3 == 8 and 1 >> 3 == 0 |
| BitFields.MaskOfTwo | PutridParrot.Utilities/BitField.cs:60 | `1 << 2` is 4 |
| BitFields.BitTwoOfFour | PutridParrot.Utilities/BitField.cs:61 | bit 2 of 4 is set |
| BitFields.IndexerExample | Tests.PutridParrot.Utilities/BitFieldTests.cs:41-48 | after `bits[2] = true` on a clear word the state is 4 and `bits[2]` is true |
| BitFields.OutOfRangeExamples | Tests.PutridParrot.Utilities/BitFieldTests.cs:50-68 | indices -1 and 64 throw |
| BitFields.SetIgnoresValue | PutridParrot.Utilities/BitField.cs:64-70 | after `bits[2] = false` on a clear word the state is 4 |
| BitFields.MaskOfForty | PutridParrot.Utilities/BitField.cs:60 | `1 << 40` is 256 |
| BitFields.BitEightOf256 | PutridParrot.Utilities/BitField.cs:61 | bit 8 of 256 is set |
| BitFields.HighIndexSetsLowBit | PutridParrot.Utilities/BitField.cs:64-70 | assigning index 40 sets bit 8 |
| BitFields.TopIndexSetsUpperHalf | PutridParrot.Utilities/BitField.cs:64-70 | assigning index 31 sets bits 31..63 |
| BitFields.Single | PutridParrot.Utilities/BitField.cs:60 | the corrected mask `1L << k` has only bit k set |
| BitFields.ReadAt | PutridParrot.Utilities/BitField.cs:55-63 | the corrected read is exactly bit k |
| BitFields.ReadsBit | PutridParrot.Utilities/BitField.cs:61 | `(1L << k & s) != 0` is bit k of s |
| BitFields.AssignAt | PutridParrot.Utilities/BitField.cs:64-70 | the corrected assignment sets bit k to the value and keeps every other bit |
| BitFields.Assign | PutridParrot.Utilities/BitField.cs:64-70 | the corrected setter: the same range check and message, then bit `index` becomes the value |
| BitFields.AssignReadsBack | PutridParrot.Utilities/BitField.cs:53-70 | after the corrected assignment the corrected read gives the value, and other indices are unchanged |
| BitFields.AssignIdempotent | PutridParrot.Utilities/BitField.cs:64-70 | assigning twice is assigning once; assigning the current value changes nothing |
| Bytes.BigEndianBytes | PutridParrot.Utilities/Streams/DataOutputStream.cs:109-117 | byte k of the big-endian form is `(byte)(0xff & (x >> 8(n-1-k)))` |
| Bytes.LittleEndianBytes | PutridParrot.Utilities/Streams/DataOutputStream.cs:54-57 | byte k of the little-endian form is `(byte)(0xff & (x >> 8k))` |
| Bytes.LittleEndianReversed | PutridParrot.Utilities/Streams/DataOutputStream.cs:54-57 | the little-endian form is the big-endian form reversed |
| Bytes.BigEndianTwo | PutridParrot.Utilities/Streams/DataOutputStream.cs:87-93 | the two bytes of a short are `(byte)(v >> 8)` then `(byte)v` |
| Bytes.BigEndianFour | PutridParrot.Utilities/Streams/DataOutputStream.cs:109-117 | the four bytes of an int, shifts 24, 16, 8, 0 |
| Bytes.BigEndianEight | PutridParrot.Utilities/Streams/DataOutputStream.cs:122-134 | the eight bytes of a long, shifts 56 down to 0 |
| Bytes.BigEndianValue | PutridParrot.Utilities/Streams/DataOutputStream.cs:109-117 | the n low bytes and the shifted rest make up the number |
| Bytes.UnsignedInverse | PutridParrot.Utilities/Streams/DataInputStream.cs:129-134 | encoding the number a byte sequence denotes gives the sequence back |
| Bytes.TwoBytes | PutridParrot.Utilities/Streams/DataInputStream.cs:129-134 | two bytes read back the low 16 bits |
| Bytes.FourBytes | PutridParrot.Utilities/Streams/DataInputStream.cs:91-98 | four bytes read back an `int` |
| Bytes.EightBytes | PutridParrot.Utilities/Streams/DataInputStream.cs:103-116 | eight bytes read back a `long` |
| Utf8.EncodeChar | PutridParrot.Utilities/Streams/DataOutputStream.cs:157-162 | the UTF-8 form of a scalar is one to four bytes |
| Utf8.Next | PutridParrot.Utilities/Streams/DataInputStream.cs:172-175 | one decoder step consumes between one byte and what is there |
| Utf8.NextOfTwo | PutridParrot.Utilities/Streams/DataInputStream.cs:172-175 | a well-formed two-byte sequence decodes to its scalar |
| Utf8.NextOfThree | PutridParrot.Utilities/Streams/DataInputStream.cs:172-175 | a well-formed three-byte sequence decodes to its scalar |
| Utf8.NextOfFour | PutridParrot.Utilities/Streams/DataInputStream.cs:172-175 | a well-formed four-byte sequence decodes to its scalar |
| Utf8.NextOfEncoded | PutridParrot.Utilities/Streams/DataInputStream.cs:172-175 | the decoder reads an encoded scalar back, whatever follows |
| Utf8.DecodeEncode | PutridParrot.Utilities/Streams/DataInputStream.cs:168-177 | decoding the UTF-8 form of any string gives the string |
| Utf8.EncodeAppend | PutridParrot.Utilities/Streams/DataOutputStream.cs:157-162 | encoding distributes over concatenation |
| Utf8.EncodeAscii | PutridParrot.Utilities/Streams/DataOutputStream.cs:157-162 | an ASCII string encodes to its char codes, one byte each |
| Utf8.EncodedLength | PutridParrot.Utilities/Streams/DataOutputStream.cs:177-187 | the UTF-8 form is never shorter than `str.Length`, and equal exactly for ASCII |
| Utf8.SmallEAcute | PutridParrot.Utilities/Streams/DataOutputStream.cs:177-187 | "é" has two UTF-8 bytes and length 1 |
| DataOutput.DataOutputStream.constructor | PutridParrot.Utilities/Streams/DataOutputStream.cs:21-24 | nothing written yet |
| DataOutput.DataOutputStream.Write | PutridParrot.Utilities/Streams/DataOutputStream.cs:36-39 | appends the whole buffer |
| DataOutput.DataOutputStream.WriteRange | PutridParrot.Utilities/Streams/DataOutputStream.cs:46-49 | appends `b[off..off+len]`, or fails the argument checks of `BinaryWriter.Write` with nothing written |
| DataOutput.DataOutputStream.WriteInt32 | PutridParrot.Utilities/Streams/DataOutputStream.cs:54-57 | `Write(int)` appends four bytes, least significant first |
| DataOutput.DataOutputStream.WriteBoolean | PutridParrot.Utilities/Streams/DataOutputStream.cs:71-74 | appends 1 or 0 |
| DataOutput.DataOutputStream.WriteByte | PutridParrot.Utilities/Streams/DataOutputStream.cs:79-82 | appends four little-endian bytes, not one |
| DataOutput.DataOutputStream.WriteShort | PutridParrot.Utilities/Streams/DataOutputStream.cs:87-93 | appends the low two bytes, most significant first |
| DataOutput.DataOutputStream.WriteChar | PutridParrot.Utilities/Streams/DataOutputStream.cs:98-104 | the same two bytes as `WriteShort` |
| DataOutput.DataOutputStream.WriteInt | PutridParrot.Utilities/Streams/DataOutputStream.cs:109-117 | appends four bytes, most significant first |
| DataOutput.DataOutputStream.WriteLong | PutridParrot.Utilities/Streams/DataOutputStream.cs:122-134 | appends eight bytes, most significant first |
| DataOutput.DataOutputStream.WriteBytes | PutridParrot.Utilities/Streams/DataOutputStream.cs:157-162 | appends the UTF-8 bytes without a prefix; a null string throws `ArgumentNullException` and writes nothing |
| DataOutput.DataOutputStream.WriteChars | PutridParrot.Utilities/Streams/DataOutputStream.cs:167-172 | the same bytes, and the same null case, as `WriteBytes` |
| DataOutput.DataOutputStream.WriteUtf | PutridParrot.Utilities/Streams/DataOutputStream.cs:177-187 | appends `str.Length` in two bytes, then the UTF-8 bytes; a null string throws `NullReferenceException` and writes nothing |
| DataOutput.DataOutputStream.WriteUtfByteLength | PutridParrot.Utilities/Streams/DataOutputStream.cs:177-187 | corrected `WriteUtf`: the prefix is the number of UTF-8 bytes that follow |
| DataOutput.NullStringsWriteNothing | PutridParrot.Utilities/Streams/DataOutputStream.cs:157-187 | the three string writers on null: `ArgumentNullException` twice, then `NullReferenceException`, and no bytes written |
| DataOutput.WriteByteExample | PutridParrot.Utilities/Streams/DataOutputStream.cs:79-82 | `WriteByte(1)` appends 01 00 00 00 |
| DataOutput.BigEndianExamples | PutridParrot.Utilities/Streams/DataOutputStream.cs:87-117 | `WriteShort(0x1234)` appends 12 34, and `WriteInt(-2)` appends FF FF FF FE |
| DataInput.Available | PutridParrot.Utilities/Streams/DataInputStream.cs:74 | what `ReadBytes(count)` finds: the bytes that are left, up to count |
| DataInput.DataInputStream.constructor | PutridParrot.Utilities/Streams/DataInputStream.cs:21-24 | the stream's bytes, at position 0 |
| DataInput.DataInputStream.ReadBytes | PutridParrot.Utilities/Streams/DataInputStream.cs:74 | returns the available bytes and advances past them |
| DataInput.DataInputStream.ReadByte | PutridParrot.Utilities/Streams/DataInputStream.cs:64-67 | the next byte, or `EndOfStreamException` at the end with the position kept |
| DataInput.DataInputStream.ReadUnsignedByte | PutridParrot.Utilities/Streams/DataInputStream.cs:121-124 | the same as `ReadByte` |
| DataInput.DataInputStream.ReadBoolean | PutridParrot.Utilities/Streams/DataInputStream.cs:55-59 | true for any non-zero byte |
| DataInput.DataInputStream.ReadChar | PutridParrot.Utilities/Streams/DataInputStream.cs:72-76 | the two bytes as a code unit; with fewer than two left, `IndexOutOfRangeException` after the position has moved |
| DataInput.DataInputStream.ReadShort | PutridParrot.Utilities/Streams/DataInputStream.cs:81-86 | the two bytes as a signed `short`, with the same failure |
| DataInput.DataInputStream.ReadUnsignedShort | PutridParrot.Utilities/Streams/DataInputStream.cs:129-134 | the two bytes unsigned |
| DataInput.DataInputStream.ReadInt | PutridParrot.Utilities/Streams/DataInputStream.cs:91-98 | four bytes, with the `int` shifts wrapping |
| DataInput.DataInputStream.ReadLong | PutridParrot.Utilities/Streams/DataInputStream.cs:103-116 | eight bytes, as a `long` |
| DataInput.DataInputStream.ReadUtf | PutridParrot.Utilities/Streams/DataInputStream.cs:168-177 | an unsigned-short length n, then the decoding of up to n bytes |
| DataInput.DataInputStream.ReadLine | PutridParrot.Utilities/Streams/DataInputStream.cs:159-163 | the same as `ReadUtf` |
| DataInput.DataInputStream.SkipBytes | PutridParrot.Utilities/Streams/DataInputStream.cs:183-186 | the new position, which may lie past the end; a position before the start throws `IOException` |
| DataInput.DataInputStream.ReadFully | PutridParrot.Utilities/Streams/DataInputStream.cs:36-39 | the front of the buffer receives what is left, up to its length; the rest of the buffer is unchanged |
| DataInput.DataInputStream.ReadFullyRange | PutridParrot.Utilities/Streams/DataInputStream.cs:47-50 | the argument checks of `BinaryReader.Read`, then up to len bytes copied from off |
| DataInput.DataInputStream.Fill | PutridParrot.Utilities/Streams/DataInputStream.cs:47-50 | copies the available bytes into the buffer from off, leaving the rest |
| DataInput.CharAfterWriteChar | PutridParrot.Utilities/Streams/DataInputStream.cs:72-76 | reading the bytes of `WriteChar(v)` gives v mod 2^16 |
| DataInput.UnsignedShortAfterWriteShort | PutridParrot.Utilities/Streams/DataInputStream.cs:129-134 | reading the bytes of `WriteShort(v)` unsigned gives v mod 2^16 |
| DataInput.ShortAfterWriteShort | PutridParrot.Utilities/Streams/DataInputStream.cs:81-86 | reading them signed gives `(short)v` |
| DataInput.ShortIsSignedUnsignedShort | PutridParrot.Utilities/Streams/DataInputStream.cs:81-134 | `ReadShort` and `ReadUnsignedShort` read the same 16 bits |
| DataInput.IntAfterWriteInt | PutridParrot.Utilities/Streams/DataInputStream.cs:91-98 | reading the bytes of `WriteInt(v)` gives v |
| DataInput.LongAfterWriteLong | PutridParrot.Utilities/Streams/DataInputStream.cs:103-116 | reading the bytes of `WriteLong(v)` gives v |
| StreamRoundTrips.ShortRoundTrip | PutridParrot.Utilities/Streams/DataInputStream.cs:81-86 | `ReadShort` after `WriteShort(v)` gives `(short)v` |
| StreamRoundTrips.UnsignedShortRoundTrip | PutridParrot.Utilities/Streams/DataInputStream.cs:129-134 | `ReadUnsignedShort` after `WriteShort(v)` gives v mod 2^16 |
| StreamRoundTrips.CharRoundTrip | PutridParrot.Utilities/Streams/DataInputStream.cs:72-76 | `ReadChar` after `WriteChar(v)` gives the code unit, v itself when in range |
| StreamRoundTrips.IntRoundTrip | PutridParrot.Utilities/Streams/DataInputStream.cs:91-98 | `ReadInt` after `WriteInt(v)` gives v |
| StreamRoundTrips.LongRoundTrip | PutridParrot.Utilities/Streams/DataInputStream.cs:103-116 | `ReadLong` after `WriteLong(v)` gives v |
| StreamRoundTrips.BooleanRoundTrip | PutridParrot.Utilities/Streams/DataInputStream.cs:55-59 | `ReadBoolean` after `WriteBoolean(v)` gives v |
| StreamRoundTrips.ByteRoundTrip | PutridParrot.Utilities/Streams/DataInputStream.cs:64-67 | `ReadByte` after `WriteByte(v)` gives the low byte and leaves three bytes unread |
| StreamRoundTrips.IntThenLongRoundTrip | PutridParrot.Utilities/Streams/DataInputStream.cs:91-116 | reads in write order find each value |
| StreamRoundTrips.ShortReadFails | PutridParrot.Utilities/Streams/DataInputStream.cs:91-98 | `ReadInt` over two bytes throws, having consumed both |
| StreamRoundTrips.NextOfPartial | PutridParrot.Utilities/Streams/DataInputStream.cs:172-175 | a strict prefix of an encoded scalar is an unfinished sequence |
| StreamRoundTrips.DecodeTruncated | PutridParrot.Utilities/Streams/DataInputStream.cs:168-177 | decoding a strict prefix of a string's UTF-8 form loses at least one char |
| StreamRoundTrips.UtfPayload | PutridParrot.Utilities/Streams/DataInputStream.cs:168-171 | after a prefix n, `ReadUtf` takes the first n of the UTF-8 bytes |
| StreamRoundTrips.UtfRoundTrip | PutridParrot.Utilities/Streams/DataInputStream.cs:168-177 | `ReadUtf` after `WriteUtf(s)` succeeds, and gives s back exactly when s is ASCII |
| StreamRoundTrips.UtfReadsBackAscii | PutridParrot.Utilities/Streams/DataOutputStream.cs:177-187 | the UTF-8 bytes cut to `s.Length` decode to s exactly when s is ASCII |
| StreamRoundTrips.UtfLosesSmallEAcute | PutridParrot.Utilities/Streams/DataOutputStream.cs:177-187 | `WriteUtf("é")` writes 00 01 C3 A9, and `ReadUtf` reads the empty string |
| StreamRoundTrips.UtfByteLengthRoundTrip | PutridParrot.Utilities/Streams/DataInputStream.cs:168-177 | with the byte-count prefix every string that fits comes back |
| FilePath.TrimStartSpec | PutridParrot.Utilities/File/Path.cs:76 | `TrimStart` drops exactly the longest prefix of the class |
| FilePath.TrimEndSpec | PutridParrot.Utilities/File/Path.cs:31 | `TrimEnd` drops exactly the longest suffix of the class |
| FilePath.Split | PutridParrot.Utilities/File/Path.cs:36-37 | at least one piece, none holding a separator |
| FilePath.JoinSnoc | PutridParrot.Utilities/File/Path.cs:63-70 | joining with one more piece appends a separator and the piece |
| FilePath.Combine | PutridParrot.Utilities/File/Path.cs:28-77 | a null root or relative path throws `NullReferenceException` (and only then); otherwise the result is `Combined` |
| FilePath.CombineStrings | PutridParrot.Utilities/File/Path.cs:28-72 | the three loops compute `Combined`: push the root pieces, pop on `..` or push, then join from the bottom of the stack |
| FilePath.Emit | PutridParrot.Utilities/File/Path.cs:61-71 | walking the reversed stack from its end yields the pieces joined bottom first, one separator between neighbours |
| FilePath.JoinSplit | PutridParrot.Utilities/File/Path.cs:36-71 | joining the pieces of a string gives the string |
| FilePath.SplitJoin | PutridParrot.Utilities/File/Path.cs:36-71 | splitting a join of separator-free pieces gives the pieces, empty ones included |
| FilePath.JoinAppend | PutridParrot.Utilities/File/Path.cs:63-70 | joining two lists is joining each with one separator between |
| FilePath.ResolveAppend | PutridParrot.Utilities/File/Path.cs:45-58 | resolving in two parts is resolving at once |
| FilePath.ResolveNoBack | PutridParrot.Utilities/File/Path.cs:45-58 | without `..` every segment is pushed |
| FilePath.BackPops | PutridParrot.Utilities/File/Path.cs:47-53 | `..` removes the most recent segment |
| FilePath.BackOnEmptyIgnored | PutridParrot.Utilities/File/Path.cs:49-52 | `..` on an empty stack is ignored |
| FilePath.ResolveBound | PutridParrot.Utilities/File/Path.cs:45-58 | the stack never exceeds the root pieces plus the pushed segments |
| FilePath.ResolvePieces | PutridParrot.Utilities/File/Path.cs:40-58 | every stacked piece comes from the root or the relative path |
| FilePath.CombinedSegments | PutridParrot.Utilities/File/Path.cs:28-71 | the result is the join of the stack, and splitting it gives the stack back |
| FilePath.CombineWithoutBack | PutridParrot.Utilities/File/Path.cs:40-71 | with no `..`, the result is normalized root + separator + normalized relative |
| FilePath.NormalizedEnds | PutridParrot.Utilities/File/Path.cs:31-32 | the normalized root neither starts nor ends with a separator; the relative does not start with one |
| FilePath.CombineTrailingSeparator | PutridParrot.Utilities/File/Path.cs:37-71 | a trailing separator on the relative path gives one on the result |
| FilePath.SplitEndsEmpty | PutridParrot.Utilities/File/Path.cs:37 | a string ending in a separator splits with an empty last piece |
| FilePath.TrimStartDrops | PutridParrot.Utilities/File/Path.cs:76 | a prefix of the class is trimmed away |
| FilePath.TrimEndDrops | PutridParrot.Utilities/File/Path.cs:31 | a suffix of the class is trimmed away |
| FilePath.TrimStartAppend | PutridParrot.Utilities/File/Path.cs:76 | trimming both ends ignores an appended run of the class |
| FilePath.TrimIgnoresOuterWhiteSpace | PutridParrot.Utilities/File/Path.cs:76 | `Trim` ignores white space around the string |
| FilePath.CombineIgnoresOuterWhiteSpace | PutridParrot.Utilities/File/Path.cs:74-77 | white space around either argument does not change the result |
| FilePath.TrimStartKeeps | PutridParrot.Utilities/File/Path.cs:76 | trimming the front keeps whatever follows a kept char |
| FilePath.CombineIgnoresRootTrailingSeparators | PutridParrot.Utilities/File/Path.cs:31 | trailing separators on the root are dropped |
| PathExamples.PlainNormalized | PutridParrot.Utilities/File/Path.cs:31-32 | a path with no white space or separator at either end is left as it is by the normalization |
| PathExamples.CombinePieces | PutridParrot.Utilities/File/Path.cs:28-72 | joins of separator-free pieces combine to the join of the resolved pieces |
| PathExamples.CombineBackTooFar | Tests.PutridParrot.Utilities/PathTests.cs:137-144 | `c:\home` with `..\..\..\home` gives `home` |
| PathExamples.CombineOneBack | Tests.PutridParrot.Utilities/PathTests.cs:12-18 | `c:\home\sub\one` with `..\two` gives `c:\home\sub\two` |
| EnumDescriptor.FindMember | PutridParrot.Utilities/PutridParrot.Utilities/EnumDescriptor.cs:90-101 | the first member of that name, or none when no member has it |
| EnumDescriptor.DescriptionOfMember | PutridParrot.Utilities/PutridParrot.Utilities/EnumDescriptor.cs:90-101 | a member's description attribute, or null |
| EnumDescriptor.DisplayNameOfMember | PutridParrot.Utilities/PutridParrot.Utilities/EnumDescriptor.cs:120-123 | the description when there is one, else the member's name |
| EnumDescriptor.DisplayNameOfUnknown | PutridParrot.Utilities/PutridParrot.Utilities/EnumDescriptor.cs:90-123 | an unknown value has no description and its text as display name |
| EnumDescriptor.GetDisplayNames | PutridParrot.Utilities/PutridParrot.Utilities/EnumDescriptor.cs:162-172 | one display name per member, in value order |
| EnumDescriptor.GetDescriptions | PutridParrot.Utilities/PutridParrot.Utilities/EnumDescriptor.cs:187-197 | one description (or null) per member, in value order |
| EnumDescriptor.FoldCase | PutridParrot.Utilities/PutridParrot.Utilities/EnumDescriptor.cs:237-249 | the case folding used by the ignore-case comparison, char by char |
| EnumDescriptor.EqualsUnderProperties | PutridParrot.Utilities/PutridParrot.Utilities/EnumDescriptor.cs:237-249 | the comparison is an equivalence, and exact equality implies the ignore-case one |
| EnumDescriptor.ParseDisplayName | PutridParrot.Utilities/PutridParrot.Utilities/EnumDescriptor.cs:237-249 | the first member whose name or display name matches; `ArgumentException` "Requested value '…' was not found." exactly when none does, which includes a null value (printed as empty) |
| EnumDescriptor.ParseDescription | PutridParrot.Utilities/PutridParrot.Utilities/EnumDescriptor.cs:288-304 | the first member with a non-empty matching description; the same exception exactly when none does, a null value included |
| EnumDescriptor.IsDisplayNameDefined | PutridParrot.Utilities/PutridParrot.Utilities/EnumDescriptor.cs:366-377 | true exactly when some member's name or display name equals the value; a null value throws `NullReferenceException`, which the `catch` does not handle |
| EnumDescriptor.IsDescriptionDefined | PutridParrot.Utilities/PutridParrot.Utilities/EnumDescriptor.cs:395-406 | true exactly when some member's non-empty description equals the value; a null value throws `NullReferenceException` |
| EnumDescriptor.NullValue | PutridParrot.Utilities/PutridParrot.Utilities/EnumDescriptor.cs:237-406 | on null both parsers throw "Requested value '' was not found." and both `Is...Defined` tests throw `NullReferenceException` |
| EnumDescriptor.DisplayNameRoundTrip | PutridParrot.Utilities/PutridParrot.Utilities/EnumDescriptor.cs:237-249 | parsing a member's display name gives the member back, when display names do not collide |
| EnumDescriptor.DescriptionRoundTrip | PutridParrot.Utilities/PutridParrot.Utilities/EnumDescriptor.cs:288-304 | parsing a unique description gives its member |
| EnumDescriptor.BareNameRejected | PutridParrot.Utilities/PutridParrot.Utilities/EnumDescriptor.cs:288-304 | the name of a member without a description is not a description |
| EnumDescriptor.TestEnumDescriptions | Tests.PutridParrot.Utilities/EnumDescriptorTests.cs:42-56 | the type description, and the member descriptions and display names of the test enum |
| EnumDescriptor.TestEnumDistinct | Tests.PutridParrot.Utilities/EnumDescriptorTests.cs:23-35 | the test enum's member names are distinct |
| EnumDescriptor.TestEnumDisplayNames | Tests.PutridParrot.Utilities/EnumDescriptorTests.cs:143-153 | the display names "One", "Number Two", "Third", "Four", "Five gold rings" |
| EnumDescriptor.TestEnumParseIgnoringCase | Tests.PutridParrot.Utilities/EnumDescriptorTests.cs:274-281 | "one" parses to the first member ignoring case |
| EnumDescriptor.TestEnumBareName | Tests.PutridParrot.Utilities/EnumDescriptorTests.cs:222 | `ParseDescription("One")` throws, as the commented-out test case expects |
| Cache.ExpiresAtMonotonic | PutridParrot.Utilities/PutridParrot.Utilities/Cache/CacheEntry.cs:19-24 | a later touch never gives an earlier expiry |
| Cache.ExpiresNotBeforeTouch | PutridParrot.Utilities/PutridParrot.Utilities/Cache/CacheEntry.cs:21-23 | with a non-negative expiry, an entry touched at `now` expires no earlier than `now` |
| Cache.ToBytes | PutridParrot.Utilities/PutridParrot.Utilities/Serialization.cs:59-70 | null bytes exactly for `default(T)` |
| Cache.FromBytes | PutridParrot.Utilities/PutridParrot.Utilities/Serialization.cs:72-83 | null bytes give `default(T)` |
| Cache.BytesRoundTrip | PutridParrot.Utilities/PutridParrot.Utilities/Serialization.cs:59-83 | under a round-tripping codec, a value stored through `ToBytes` comes back, the default value included |
| Cache.Boxed | PutridParrot.Utilities/Cache/CacheLite.cs:41 | a `T` passed as `object` is null exactly when it is null |
| Cache.CacheEntry.constructor | PutridParrot.Utilities/PutridParrot.Utilities/Cache/CacheEntry.cs:7-13 | stores the bytes and the expiry, then sets `expires` as `Touch` does |
| Cache.CacheEntry.Touch | PutridParrot.Utilities/PutridParrot.Utilities/Cache/CacheEntry.cs:19-24 | `DateTime.MaxValue` for `TimeSpan.MaxValue`, otherwise now + expiry; only `expires` changes |
| Cache.LiveKeys | PutridParrot.Utilities/Cache/CacheLite.cs:125 | a key survives scavenging exactly when now < its expiry, and keeps its entry |
| Cache.LiveIdempotent | PutridParrot.Utilities/Cache/CacheLite.cs:124-130 | a second scavenge at the same instant changes nothing |
| Cache.LiveDistinct | PutridParrot.Utilities/Cache/CacheLite.cs:124-130 | scavenging keeps entries unshared between keys |
| Cache.CacheLite.constructor | PutridParrot.Utilities/Cache/CacheLite.cs:21-31 | an empty store, subscribed to the scheduler when there is one |
| Cache.CacheLite.Set | PutridParrot.Utilities/Cache/CacheLite.cs:38-52 | a null or empty key fails with message "key", then a null value with "value", leaving the store; otherwise the key maps to a fresh entry with the serialized value and expiry as `Touch` computes, and the other keys keep their entries |
| Cache.CacheLite.Get | PutridParrot.Utilities/Cache/CacheLite.cs:54-74 | a null or empty key fails; an absent key gives `default(T)`; a present one the deserialized bytes, touching that entry only; the store's keys never change |
| Cache.CacheLite.Remove | PutridParrot.Utilities/Cache/CacheLite.cs:76-89 | a null or empty key fails; otherwise the key is gone and nothing else changes |
| Cache.CacheLite.Exists | PutridParrot.Utilities/Cache/CacheLite.cs:91-104 | a null or empty key fails; otherwise whether the key has an entry, touching nothing |
| Cache.CacheLite.Clear | PutridParrot.Utilities/Cache/CacheLite.cs:106-117 | the store becomes empty |
| Cache.CacheLite.Scavenge | PutridParrot.Utilities/Cache/CacheLite.cs:119-136 | removes exactly the entries with now >= expires and keeps the rest as they were |
| Cache.CacheLite.Dispose | PutridParrot.Utilities/Cache/CacheLite.cs:138-145 | unsubscribes the cache from its scheduler |
| Cache.InvocationCount | PutridParrot.Utilities/PutridParrot.Utilities/Cache/CacheScheduler.cs:28 | the delegate is null with no subscribers; otherwise its invocation list has one entry per subscription |
| Cache.CheckNeverStops | PutridParrot.Utilities/PutridParrot.Utilities/Cache/CacheScheduler.cs:26-47 | whatever the subscribers, `Check` keeps an existing timer and starts one when there is none: the stop branch is dead |
| Cache.RemoveLast | PutridParrot.Utilities/PutridParrot.Utilities/Cache/CacheScheduler.cs:69 | removing a handler that is not subscribed changes nothing; otherwise the list shrinks by one |
| Cache.RemoveLastMultiset | PutridParrot.Utilities/PutridParrot.Utilities/Cache/CacheScheduler.cs:69 | exactly one occurrence of the handler goes |
| Cache.RemoveLastOfAdded | PutridParrot.Utilities/PutridParrot.Utilities/Cache/CacheScheduler.cs:64-69 | removing the handler just added restores the list |
| Cache.CacheScheduler.constructor | PutridParrot.Utilities/PutridParrot.Utilities/Cache/CacheScheduler.cs:14-19 | the period is 60 s (600 000 000 ticks) for `default(TimeSpan)`, otherwise the given one; no subscribers, no timer |
| Cache.CacheScheduler.Dispose | PutridParrot.Utilities/PutridParrot.Utilities/Cache/CacheScheduler.cs:21-24 | disposes the timer if any and keeps the subscribers |
| Cache.CacheScheduler.Check | PutridParrot.Utilities/PutridParrot.Utilities/Cache/CacheScheduler.cs:26-47 | the timer after the lifted `count <= 0` test, with the subscribers unchanged |
| Cache.CacheScheduler.Update | PutridParrot.Utilities/PutridParrot.Utilities/Cache/CacheScheduler.cs:54-58 | every subscribed cache ends up scavenged at `now`, once or (if subscribed twice) to the same effect |
| Cache.CacheScheduler.Subscribe | PutridParrot.Utilities/PutridParrot.Utilities/Cache/CacheScheduler.cs:62-66 | appends the handler, then `Check` |
| Cache.CacheScheduler.Unsubscribe | PutridParrot.Utilities/PutridParrot.Utilities/Cache/CacheScheduler.cs:67-71 | removes the last occurrence, then `Check` |
| CacheScenarios.SetThenGet | Tests.PutridParrot.Utilities/CacheLiteTests.cs:12-19 | under a round-tripping codec, a value set is what `Get` returns |
| CacheScenarios.SetThenExists | Tests.PutridParrot.Utilities/CacheLiteTests.cs:21-28 | a key set exists |
| CacheScenarios.SetThenRemove | Tests.PutridParrot.Utilities/CacheLiteTests.cs:30-38 | a key set and removed does not exist |
| CacheScenarios.SetThenClear | Tests.PutridParrot.Utilities/CacheLiteTests.cs:40-48 | after `Clear` the key does not exist |
| CacheScenarios.GetMissing | PutridParrot.Utilities/Cache/CacheLite.cs:58-63 | a missing key reads as `default(T)` without an error |
| CacheScenarios.EmptyKeyRejected | PutridParrot.Utilities/Cache/CacheLite.cs:40-41 | every keyed operation refuses null and "" with message "key", and `Set` a null value with "value" |
| CacheScenarios.ScheduledExpiry | Tests.PutridParrot.Utilities/CacheLiteTests.cs:50-61 | a 1-second entry survives a tick at the instant it was set, and a tick at `later` removes it exactly when a second has passed |
| CacheScenarios.DisposeKeepsTimer | PutridParrot.Utilities/PutridParrot.Utilities/Cache/CacheScheduler.cs:28-36 | after the only cache is disposed, no subscriber remains but the timer keeps running |
| CacheScenarios.UnsubscribeIdleStartsTimer | PutridParrot.Utilities/PutridParrot.Utilities/Cache/CacheScheduler.cs:67-71 | removing a handler from an idle scheduler starts its timer |

## Left out

- Floating point: `WriteFloat`, `WriteDouble`, `ReadFloat` and `ReadDouble` reinterpret IEEE bits through `BitConverter`, and the double overloads of `Condition.InRange` compare doubles.
- Stream plumbing: the constructors over a `Stream`, `Close`, and the `BinaryReader`/`BinaryWriter` objects themselves. The output stream is the sequence of bytes written, and the input stream is a byte sequence with a position.
- Null arguments: a null buffer passed to `Write`/`ReadFully` is not modelled, because Dafny arrays are never null. `GetDescription` and `GetDisplayName` take their value as a non-null string, although a null value makes `value.ToString()` throw `NullReferenceException`. The library's own callers pass them member names only. The corrected `WriteUtfByteLength` takes a non-null string. Null strings are modelled for `WriteBytes`, `WriteChars`, `WriteUtf`, `Combine`, `ParseDisplayName`, `ParseDescription`, `IsDisplayNameDefined` and `IsDescriptionDefined`.
- DataInput.DataInputStream.SkipBytes: the position is an unbounded integer, so a seek whose target overflows a `long` is not modelled.
- Strings: a Dafny `char` is a Unicode scalar value, so C# strings holding lone surrogates are not represented.
- Utf8.Decode: the decoder's handling of surrogate code points encoded in three bytes follows the "maximal subpart" rule, not any .NET version's particular quirks.
- EnumDescriptor.EqualsUnder: the culture-sensitive comparisons (`CurrentCulture`, `CurrentCultureIgnoreCase`) are exact equality and ASCII case folding.
- Reflection: an enum type is the list of its members in value order, each with a name and an optional description attribute. Aliased enum values are not modelled.
- The thin forwards of `EnumDescriptor` are left out: `GetName`, `Parse`, `IsDefined`, `GetUnderlyingType`, `Format` and `GetValues`, which call `System.Enum`, and the generic overloads, which pass `typeof(T)` on.
- `Range<T>` is modelled over `int` as its ordered type. `GetHashCode` is left out.
- Cache concurrency: the `ReaderWriterLockSlim`, the threading `Timer` and its callback `Update(object)`, and the lock's disposal in `CacheLite.Dispose`.
- Cache clock: `DateTime.Now` is the `now` parameter. `Update` hands one instant to every subscriber, where each scavenge would read the clock itself. The `ArgumentOutOfRangeException` of `DateTime.Add` on overflow is not modelled.
- Cache.CacheLite.Scavenge: the C# code removes keys while enumerating a lazy `Where` over the same dictionary. The model gives the intended effect, a filter against one snapshot of `now`.
- Cache subscribers: the scheduler's event is modelled with caches as its only handlers. Per-handler exceptions, and handlers of other kinds, are left out.
- Cache.CacheScheduler.Check: the stop branch is modelled by its effect on the timer field. `Timer.Change(-1, -1)` and disposal there are not modelled separately, since the branch never runs.
- Serialization: `BinaryFormatter`, `Clone`, `ToStream` and `FromStream` are replaced by the `Codec` value. Each `Set`/`Get` call names its codec, standing for the type argument.
- `ObjectComparer`, `Disposables`, `AutoDisposer` and `ActionDisposable` are not part of this model; they have no logic of their own beyond foreign calls and double/culture parsing.
- `ConditionException` and the `IResult`/`ISuccess`/`IFailure` interfaces are declarations only. They appear as the `ConditionException` case and the `IResult` datatype.

## Findings

| source | as written | input that shows it | evidently intended | confidence | as-written member | corrected member |
|---|---|---|---|---|---|---|
| PutridParrot.Utilities/BitField.cs:64-70 | the indexer setter XORs the mask into the state and never reads `value` | on a clear word, `bits[2] = false` leaves the state 4 with `bits[2]` true | bit `index` becomes `value` | high, not executed | BitFields.SetIgnoresValue | BitFields.AssignReadsBack |
| PutridParrot.Utilities/BitField.cs:60 | the mask `1 << index` is an `int` shift, so its count is `index & 31`, and `1 << 31` widens to bits 31..63 | on a clear word, `bits[40] = true` sets bit 8 (state 256); `bits[31] = true` gives -2^31 | a `long` mask `1L << index` with only bit `index` set | high, not executed | BitFields.HighIndexSetsLowBit | BitFields.ReadsBit |
| PutridParrot.Utilities/Streams/DataOutputStream.cs:177-187 | the length prefix of `WriteUtf` is `str.Length` (UTF-16 code units), while the payload is the UTF-8 bytes | `WriteUtf("é")` writes 00 01 C3 A9, and `ReadUtf` then reads 1 byte and returns "" | the prefix counts the UTF-8 bytes, so `ReadUtf` reads the string back | high, not executed | StreamRoundTrips.UtfLosesSmallEAcute | StreamRoundTrips.UtfByteLengthRoundTrip |
