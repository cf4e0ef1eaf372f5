/**
 * src/number.py: `validate_number`, a fixed sequence of guarded checks. Python's
 * `bool` is a subclass of `int`, so booleans are numbers here (True is 1, False
 * is 0), and a bound that is not a number makes the comparison raise.
 */
module Number {
  import opened Wrappers
  import opened JsonValue

  /** `x.is_integer()` */
  predicate IsIntegral(x: real)
  {
    x.Floor as real == x
  }

  /** `k` copies of `m` */
  function Times(k: int, m: real): real
  {
    k as real * m
  }

  /** `m` goes into `v` a whole number of times. */
  ghost predicate MultipleOf(v: real, m: real)
  {
    exists k: int :: v == Times(k, m)
  }

  /** The `multipleOf` check: a zero divisor raises ZeroDivisionError, a non-number TypeError. */
  function CheckMultipleOf(v: real, schema: Fields): (r: Result<(), Error>)
    ensures r.Success? <==> (!HasKey(schema, "multipleOf") ||
      exists m :: BoundOf(schema, "multipleOf") == Success(Some(m)) && m != 0.0 && IsIntegral(v / m))
    ensures r == Failure(NotMultiple) <==>
      exists m :: BoundOf(schema, "multipleOf") == Success(Some(m)) && m != 0.0 && !IsIntegral(v / m)
  {
    var m :- BoundOf(schema, "multipleOf");
    match m
    case None => Success(())
    case Some(d) =>
      if d == 0.0 then Failure(MalformedSchema("division by zero"))
      else if !IsIntegral(v / d) then Failure(NotMultiple)
      else Success(())
  }

  /** `validate_number(obj, schema)`: type, minimum, exclusiveMinimum, maximum, exclusiveMaximum, multipleOf. */
  function ValidateNumber(obj: Json, schema: Fields): (r: Result<Json, Error>)
    ensures r.Success? ==> r.value == obj
  {
    if NumberValue(obj).None? then Failure(NotA("number"))
    else
      var v := NumberValue(obj).value;
      var lo :- BoundOf(schema, "minimum");
      if lo.Some? && v < lo.value then Failure(BelowMinimum)
      else
        var xlo :- BoundOf(schema, "exclusiveMinimum");
        if xlo.Some? && v <= xlo.value then Failure(NotAboveExclusiveMinimum)
        else
          var hi :- BoundOf(schema, "maximum");
          if hi.Some? && v > hi.value then Failure(AboveMaximum)
          else
            var xhi :- BoundOf(schema, "exclusiveMaximum");
            if xhi.Some? && v >= xhi.value then Failure(NotBelowExclusiveMaximum)
            else
              var _ :- CheckMultipleOf(v, schema);
              Success(obj)
  }

  /** An absent bound, or one that is a number. */
  predicate BoundIsNumber(schema: Fields, key: string)
  {
    HasKey(schema, key) ==> NumberValue(Lookup(schema, key).value).Some?
  }

  /**
   * What an accepted number meets, stated bound by bound: every bound present is
   * a number, the two inclusive bounds admit equality, the two exclusive ones do
   * not, and the divisor is a non-zero number dividing the value a whole number of times.
   */
  ghost predicate Satisfies(v: real, schema: Fields)
  {
    && BoundIsNumber(schema, "minimum") && BoundIsNumber(schema, "exclusiveMinimum")
    && BoundIsNumber(schema, "maximum") && BoundIsNumber(schema, "exclusiveMaximum")
    && BoundIsNumber(schema, "multipleOf")
    && (HasKey(schema, "minimum") ==> NumberValue(Lookup(schema, "minimum").value).value <= v)
    && (HasKey(schema, "exclusiveMinimum") ==> NumberValue(Lookup(schema, "exclusiveMinimum").value).value < v)
    && (HasKey(schema, "maximum") ==> v <= NumberValue(Lookup(schema, "maximum").value).value)
    && (HasKey(schema, "exclusiveMaximum") ==> v < NumberValue(Lookup(schema, "exclusiveMaximum").value).value)
    && (HasKey(schema, "multipleOf") ==>
          NumberValue(Lookup(schema, "multipleOf").value).value != 0.0 &&
          MultipleOf(v, NumberValue(Lookup(schema, "multipleOf").value).value))
  }

  /** `validate_number` accepts exactly the numbers that meet every bound present, and returns them unchanged. */
  lemma AcceptedIffSatisfies(obj: Json, schema: Fields)
    ensures ValidateNumber(obj, schema).Success? <==> NumberValue(obj).Some? && Satisfies(NumberValue(obj).value, schema)
  {
    AcceptedIffStagesPass(obj, schema);
    if NumberValue(obj).Some? {
      var v := NumberValue(obj).value;
      StagePassesIff(v, schema, "minimum", AtLeast);
      StagePassesIff(v, schema, "exclusiveMinimum", Above);
      StagePassesIff(v, schema, "maximum", AtMost);
      StagePassesIff(v, schema, "exclusiveMaximum", Below);
      if HasKey(schema, "multipleOf") {
        var m := NumberValue(Lookup(schema, "multipleOf").value);
        if m.Some? && m.value != 0.0 {
          QuotientIntegralIffMultiple(v, m.value);
        }
      }
    }
  }

  /** How a value must compare with a bound for the bound's check to pass. */
  datatype Comparison = AtLeast | Above | AtMost | Below

  predicate Holds(v: real, bound: real, c: Comparison)
  {
    match c
    case AtLeast => bound <= v
    case Above => bound < v
    case AtMost => v <= bound
    case Below => v < bound
  }

  /** The check of one bound passes: it is absent, or a number the value compares with as required. */
  predicate StagePasses(v: real, schema: Fields, key: string, c: Comparison)
  {
    BoundOf(schema, key).Success? && (BoundOf(schema, key).value.Some? ==> Holds(v, BoundOf(schema, key).value.value, c))
  }

  /** `validate_number` passes exactly when each of its checks does. */
  lemma AcceptedIffStagesPass(obj: Json, schema: Fields)
    ensures ValidateNumber(obj, schema).Success? <==>
      NumberValue(obj).Some? &&
      StagePasses(NumberValue(obj).value, schema, "minimum", AtLeast) &&
      StagePasses(NumberValue(obj).value, schema, "exclusiveMinimum", Above) &&
      StagePasses(NumberValue(obj).value, schema, "maximum", AtMost) &&
      StagePasses(NumberValue(obj).value, schema, "exclusiveMaximum", Below) &&
      CheckMultipleOf(NumberValue(obj).value, schema).Success?
  {
  }

  lemma StagePassesIff(v: real, schema: Fields, key: string, c: Comparison)
    ensures StagePasses(v, schema, key, c) <==>
      BoundIsNumber(schema, key) && (HasKey(schema, key) ==> Holds(v, NumberValue(Lookup(schema, key).value).value, c))
  {
  }

  /** The integrality test on the quotient is exactly divisibility. */
  lemma {:induction false} QuotientIntegralIffMultiple(v: real, m: real)
    requires m != 0.0
    ensures IsIntegral(v / m) <==> MultipleOf(v, m)
  {
    if IsIntegral(v / m) {
      var k := (v / m).Floor;
      assert v == (v / m) * m;
      assert v == Times(k, m);
    }
    if MultipleOf(v, m) {
      var k: int :| v == Times(k, m);
      assert v / m == k as real;
    }
  }

  /** The bound check for `key`: a bound that is not a number raises, one the value does not meet gives `err`. */
  function Compare(v: real, schema: Fields, key: string, c: Comparison, err: Error): Result<(), Error>
  {
    var b :- BoundOf(schema, key);
    if b.Some? && !Holds(v, b.value, c) then Failure(err) else Success(())
  }

  /** The checks after the type check, numbered in source order. */
  function Check(v: real, schema: Fields, k: nat): Result<(), Error>
    requires k < 5
  {
    match k
    case 0 => Compare(v, schema, "minimum", AtLeast, BelowMinimum)
    case 1 => Compare(v, schema, "exclusiveMinimum", Above, NotAboveExclusiveMinimum)
    case 2 => Compare(v, schema, "maximum", AtMost, AboveMaximum)
    case 3 => Compare(v, schema, "exclusiveMaximum", Below, NotBelowExclusiveMaximum)
    case _ => CheckMultipleOf(v, schema)
  }

  /**
   * Fail-fast order: a non-number is reported before any bound; for a number, the
   * first check that fails is the one reported, whatever the later checks would
   * say; and when none fails the value comes back unchanged.
   */
  lemma FirstFailureReported(obj: Json, schema: Fields, k: nat)
    requires k < 5
    ensures NumberValue(obj).None? ==> ValidateNumber(obj, schema) == Failure(NotA("number"))
    ensures (&& NumberValue(obj).Some?
             && (forall j | 0 <= j < k :: Check(NumberValue(obj).value, schema, j).Success?)
             && Check(NumberValue(obj).value, schema, k).Failure?) ==>
      ValidateNumber(obj, schema) == Failure(Check(NumberValue(obj).value, schema, k).error)
    ensures NumberValue(obj).Some? && (forall j | 0 <= j < 5 :: Check(NumberValue(obj).value, schema, j).Success?) ==>
      ValidateNumber(obj, schema) == Success(obj)
  {
    if NumberValue(obj).Some? {
      var v := NumberValue(obj).value;
      var c0, c1, c2, c3, c4 := Check(v, schema, 0), Check(v, schema, 1), Check(v, schema, 2), Check(v, schema, 3), Check(v, schema, 4);
      assert c0 == Compare(v, schema, "minimum", AtLeast, BelowMinimum);
      assert c1 == Compare(v, schema, "exclusiveMinimum", Above, NotAboveExclusiveMinimum);
      assert c2 == Compare(v, schema, "maximum", AtMost, AboveMaximum);
      assert c3 == Compare(v, schema, "exclusiveMaximum", Below, NotBelowExclusiveMaximum);
      assert c4 == CheckMultipleOf(v, schema);
    }
  }

  /** A minimum that is met does not hide the exclusive minimum: 5 under minimum 3 and exclusiveMinimum 5 fails on the latter. */
  lemma ExclusiveMinimumAfterMinimum()
    ensures ValidateNumber(Num(5.0), [("minimum", Num(3.0)), ("exclusiveMinimum", Num(5.0))]) == Failure(NotAboveExclusiveMinimum)
  {
  }

  /** Booleans pass the type check as the integers 0 and 1. */
  lemma BooleansAreNumbers(b: bool)
    ensures ValidateNumber(Bool(b), []) == Success(Bool(b))
    ensures ValidateNumber(Bool(b), [("minimum", Num(1.0))]).Success? <==> b
  {
  }

  /** A zero `multipleOf` makes every number an error (ZeroDivisionError), never a pass. */
  lemma ZeroDivisorIsSchemaError(v: real)
    ensures ValidateNumber(Num(v), [("multipleOf", Num(0.0))]) == Failure(MalformedSchema("division by zero"))
  {
  }

  /** The bounds examples: minimum 3 accepts 3 and 4, rejects 2; exclusiveMinimum 3 accepts 4, rejects 3; maximum 3 accepts 3 and 2, rejects 4; exclusiveMaximum 3 accepts 2, rejects 4. */
  lemma RangeExamples()
    ensures ValidateNumber(Num(3.0), [("type", Str("number")), ("minimum", Num(3.0))]) == Success(Num(3.0))
    ensures ValidateNumber(Num(4.0), [("type", Str("number")), ("minimum", Num(3.0))]) == Success(Num(4.0))
    ensures ValidateNumber(Num(2.0), [("type", Str("number")), ("minimum", Num(3.0))]) == Failure(BelowMinimum)
    ensures ValidateNumber(Num(4.0), [("type", Str("number")), ("exclusiveMinimum", Num(3.0))]) == Success(Num(4.0))
    ensures ValidateNumber(Num(3.0), [("type", Str("number")), ("exclusiveMinimum", Num(3.0))]) == Failure(NotAboveExclusiveMinimum)
    ensures ValidateNumber(Num(3.0), [("type", Str("number")), ("maximum", Num(3.0))]) == Success(Num(3.0))
    ensures ValidateNumber(Num(2.0), [("type", Str("number")), ("maximum", Num(3.0))]) == Success(Num(2.0))
    ensures ValidateNumber(Num(4.0), [("type", Str("number")), ("maximum", Num(3.0))]) == Failure(AboveMaximum)
    ensures ValidateNumber(Num(2.0), [("type", Str("number")), ("exclusiveMaximum", Num(3.0))]) == Success(Num(2.0))
    ensures ValidateNumber(Num(4.0), [("type", Str("number")), ("exclusiveMaximum", Num(3.0))]) == Failure(NotBelowExclusiveMaximum)
  {
  }

  /** The multipleOf examples: 3 accepts 3 and rejects 5 and 3.5; 3.5 accepts 7. */
  lemma MultipleOfExamples()
    ensures ValidateNumber(Num(3.0), [("type", Str("number")), ("multipleOf", Num(3.0))]) == Success(Num(3.0))
    ensures ValidateNumber(Num(5.0), [("type", Str("number")), ("multipleOf", Num(3.0))]) == Failure(NotMultiple)
    ensures ValidateNumber(Num(3.5), [("type", Str("number")), ("multipleOf", Num(3.0))]) == Failure(NotMultiple)
    ensures ValidateNumber(Num(7.0), [("type", Str("number")), ("multipleOf", Num(3.5))]) == Success(Num(7.0))
  {
    assert (5.0 / 3.0).Floor == 1;
    assert (3.5 / 3.0).Floor == 1;
  }
}
