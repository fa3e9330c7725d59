/** Constraints in the NUnit style: leaf constraints that test one value, a `ConstraintExpression`
    that chains them on a stack, the `Is` entry points and `Condition.Check`, which throws when
    a constraint rejects a value. */
module Constraints {
  import opened Wrappers
  import opened Values
  import opened Exceptions

  /** The library's `IConstraint` implementations, plus any user implementation given by the
      function its `Check` computes. */
  datatype Constraint =
    | NotConstraint
    | NullConstraint
    | NotNullConstraint
    | TrueConstraint
    | FalseConstraint
    | Custom(check: Value -> bool)

  /** `b.Equals(value)` for a boxed `bool` b: true only for a boxed bool equal to b. */
  function BoolEquals(b: bool, value: Value): bool {
    match value
    case Bool(v) => v == b
    case _ => false
  }

  /** `IConstraint.Check(value)` */
  function Accepts(c: Constraint, value: Value): (r: bool)
    ensures c.NotConstraint? ==> (r <==> value != Bool(true))
    ensures c.TrueConstraint? ==> (r <==> value == Bool(true))
    ensures c.FalseConstraint? ==> (r <==> value == Bool(false))
    ensures c.NullConstraint? ==> (r <==> value.Null?)
    ensures c.NotNullConstraint? ==> (r <==> !value.Null?)
  {
    match c
    case NotConstraint => !BoolEquals(true, value)
    case NullConstraint => value == Null
    case NotNullConstraint => value != Null
    case TrueConstraint => BoolEquals(true, value)
    case FalseConstraint => BoolEquals(false, value)
    case Custom(f) => f(value)
  }

  /** `NullConstraint` and `NotNullConstraint` disagree on every value. */
  lemma NullAndNotNullAreComplementary(value: Value)
    ensures Accepts(NullConstraint, value) == !Accepts(NotNullConstraint, value)
  {
  }

  /** A value that is not a boolean satisfies neither `TrueConstraint` nor `FalseConstraint`,
      and always satisfies `NotConstraint`. */
  lemma NonBooleanValues(value: Value)
    requires !value.Bool?
    ensures !Accepts(TrueConstraint, value) && !Accepts(FalseConstraint, value)
    ensures Accepts(NotConstraint, value)
  {
  }

  /** On booleans, `NotConstraint` is negation and `TrueConstraint` the identity. */
  lemma BooleanValues(b: bool)
    ensures Accepts(NotConstraint, Bool(b)) == !b
    ensures Accepts(TrueConstraint, Bool(b)) == b
    ensures Accepts(FalseConstraint, Bool(b)) == !b
  {
  }

  /** What `ConstraintExpression.Check` computes from a stack (top = last element):
      the top constraint tests the value, each one below tests the boolean so far. */
  function Evaluate(stack: seq<Constraint>, value: Value): (r: Result<bool>)
    ensures r.Throw? <==> |stack| == 0
    ensures r.Throw? ==> r.error == InvalidOperationException
    ensures |stack| == 1 ==> r == Ok(Accepts(stack[0], value))
  {
    if |stack| == 0 then Throw(InvalidOperationException)
    else Ok(Fold(stack[..|stack| - 1], Accepts(stack[|stack| - 1], value)))
  }

  /** Apply the remaining constraints, from the top down, to a boolean result. */
  function Fold(rest: seq<Constraint>, current: bool): bool
    decreases |rest|
  {
    if |rest| == 0 then current
    else Fold(rest[..|rest| - 1], Accepts(rest[|rest| - 1], Bool(current)))
  }

  /** A chain of k `Not` constraints negates a boolean k times. */
  lemma {:induction false} FoldNotChain(k: nat, b: bool)
    ensures Fold(seq(k, _ => NotConstraint), b) == (if k % 2 == 0 then b else !b)
  {
    if k > 0 {
      var s := seq(k, _ => NotConstraint);
      assert s[..k - 1] == seq(k - 1, _ => NotConstraint);
      FoldNotChain(k - 1, !b);
    }
  }

  class ConstraintExpression {
    /** The stack of constraints; its top is the last element. */
    var constraints: seq<Constraint>

    constructor ()
      ensures |constraints| == 0
    {
      constraints := [];
    }

    /** Push one constraint and return the same expression. */
    method Chain(constraint: Constraint) returns (self: ConstraintExpression)
      modifies this
      ensures constraints == old(constraints) + [constraint]
      ensures self == this
    {
      constraints := constraints + [constraint];
      self := this;
    }

    method Not() returns (self: ConstraintExpression)
      modifies this
      ensures constraints == old(constraints) + [NotConstraint]
      ensures self == this
    {
      self := Chain(NotConstraint);
    }

    method Null() returns (self: ConstraintExpression)
      modifies this
      ensures constraints == old(constraints) + [NullConstraint]
      ensures self == this
    {
      self := Chain(NullConstraint);
    }

    /** Pops the top constraint and applies it to the value, then pops each remaining one and
        applies it to the previous result. The stack is drained; popping an empty stack throws. */
    method Check(value: Value) returns (r: Result<bool>)
      modifies this
      ensures r == Evaluate(old(constraints), value)
      ensures |constraints| == 0
    {
      if |constraints| == 0 {
        return Throw(InvalidOperationException);
      }
      var top := constraints[|constraints| - 1];
      constraints := constraints[..|constraints| - 1];
      var current := Accepts(top, value);
      while |constraints| > 0
        invariant Fold(constraints, current) == Fold(old(constraints)[..|old(constraints)| - 1], Accepts(top, value))
        decreases |constraints|
      {
        var c := constraints[|constraints| - 1];
        constraints := constraints[..|constraints| - 1];
        current := Accepts(c, Bool(current));
      }
      r := Ok(current);
    }
  }

  // The `Is` entry points.

  function IsNotNull(): Constraint { NotNullConstraint }
  function IsNull(): Constraint { NullConstraint }
  function IsTrue(): Constraint { TrueConstraint }
  function IsFalse(): Constraint { FalseConstraint }

  /** `Is.Not`: a fresh expression holding one `NotConstraint`. */
  method IsNot() returns (e: ConstraintExpression)
    ensures fresh(e) && e.constraints == [NotConstraint]
  {
    e := new ConstraintExpression();
    e := e.Not();
  }

  /** `Is.Not.Null` accepts exactly the non-null values, and leaves its stack empty. */
  method IsNotNullExpression(value: Value) returns (r: Result<bool>)
    ensures r == Ok(value != Null)
  {
    var e := IsNot();
    e := e.Null();
    NotNullStack(value);
    r := e.Check(value);
  }

  lemma NotNullStack(value: Value)
    ensures Evaluate([NotConstraint, NullConstraint], value) == Ok(value != Null)
  {
    var stack := [NotConstraint, NullConstraint];
    assert stack[..1] == [NotConstraint];
    assert [NotConstraint][..0] == [];
    calc {
      Evaluate(stack, value);
      Ok(Fold([NotConstraint], Accepts(NullConstraint, value)));
      Ok(Fold([], Accepts(NotConstraint, Bool(value == Null))));
    }
  }

  /** A second `Check` on the same expression throws, as does `Check` on a fresh one. */
  method CheckTwice(value: Value) returns (first: Result<bool>, second: Result<bool>)
    ensures first == Ok(value != Null)
    ensures second == Throw(InvalidOperationException)
  {
    var e := IsNot();
    e := e.Null();
    NotNullStack(value);
    first := e.Check(value);
    second := e.Check(value);
  }

  /** `Condition.Check(value, constraint, message)` */
  function CheckCondition(value: Value, condition: Constraint, message: Option<string>): (r: Outcome)
    ensures r.Fail? <==> !Accepts(condition, value)
    ensures r.Fail? ==> r.error == ConditionException(message)
  {
    if !Accepts(condition, value) then Fail(ConditionException(message)) else Pass
  }

  /** `Condition.Check(value, expression, message)`: an exception from the expression propagates. */
  method CheckExpressionCondition(value: Value, expression: ConstraintExpression, message: Option<string>)
    returns (r: Outcome)
    modifies expression
    ensures var v := Evaluate(old(expression.constraints), value);
      r == if v.Throw? then Fail(v.error) else if !v.value then Fail(ConditionException(message)) else Pass
    ensures |expression.constraints| == 0
  {
    var checked := expression.Check(value);
    if checked.Throw? {
      return Fail(checked.error);
    }
    if !checked.value {
      return Fail(ConditionException(message));
    }
    r := Pass;
  }
}
