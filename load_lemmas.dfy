/**
 * What src/load.py promises about `loado` and its walkers, proved of `Loader`.
 */
module LoadLemmas {
  import opened Wrappers
  import opened JsonValue
  import opened Library
  import opened Loader
  import opened Readings
  import Number

  /** `{"type": t}` */
  function TypeOnly(t: string): Json
  {
    Obj([("type", Str(t))])
  }

  // ---------------------------------------------------------------- loado

  /** With no schema the instance comes back as it is. */
  lemma NoSchemaUnchanged(obj: Json, ext: Option<map<string, Decoder>>, lib: Library, rd: Reading)
    ensures Load(obj, Null, ext, lib, rd) == Success(obj)
  {
  }

  /**
   * The scalar types only test the instance's kind and return it unchanged,
   * whatever else the schema holds: `boolean` accepts exactly booleans, `null`
   * exactly None, `number` and `integer` exactly ints, floats and booleans (a bool
   * is an int). Bounds such as `minimum` or `multipleOf` are never looked at.
   */
  lemma ScalarTypes(obj: Json, fields: Fields, ext: Option<map<string, Decoder>>, lib: Library, rd: Reading)
    ensures Lookup(fields, "type") == Some(Str("boolean")) ==> (Load(obj, Obj(fields), ext, lib, rd).Success? <==> obj.Bool?)
    ensures Lookup(fields, "type") == Some(Str("null")) ==> (Load(obj, Obj(fields), ext, lib, rd).Success? <==> obj == Null)
    ensures Lookup(fields, "type") == Some(Str("number")) || Lookup(fields, "type") == Some(Str("integer")) ==>
      (Load(obj, Obj(fields), ext, lib, rd).Success? <==> obj.Num? || obj.Bool?)
    ensures (&& Lookup(fields, "type").Some?
             && Lookup(fields, "type").value in {Str("boolean"), Str("null"), Str("number"), Str("integer")}
             && Load(obj, Obj(fields), ext, lib, rd).Success?) ==> Load(obj, Obj(fields), ext, lib, rd).value == obj
  {
  }

  /** `loado(10, {"type": "number", "maximum": 3})` returns 10, where `validate_number` refuses it. */
  lemma NumberBoundsIgnored(ext: Option<map<string, Decoder>>, lib: Library, rd: Reading)
    ensures Load(Num(10.0), Obj([("type", Str("number")), ("maximum", Num(3.0))]), ext, lib, rd) == Success(Num(10.0))
    ensures Number.ValidateNumber(Num(10.0), [("type", Str("number")), ("maximum", Num(3.0))]) == Failure(AboveMaximum)
  {
    assert Lookup([("type", Str("number")), ("maximum", Num(3.0))], "type") == Some(Str("number"));
  }

  /** Any `type` value other than the seven names is an error naming it, whatever the instance. */
  lemma UnknownTypeRejected(obj: Json, fields: Fields, ext: Option<map<string, Decoder>>, lib: Library, rd: Reading)
    requires Lookup(fields, "type").Some?
    requires Lookup(fields, "type").value !in
      {Str("object"), Str("array"), Str("string"), Str("number"), Str("integer"), Str("boolean"), Str("null")}
    ensures Load(obj, Obj(fields), ext, lib, rd) == Failure(UnsupportedType(Lookup(fields, "type").value))
  {
  }

  /** A dict schema without `type` is a schema error, and so is a schema that is not a dict. */
  lemma MalformedSchemas(obj: Json, schema: Json, ext: Option<map<string, Decoder>>, lib: Library, rd: Reading)
    requires schema != Null
    requires !schema.Obj? || !HasKey(schema.fields, "type")
    ensures Load(obj, schema, ext, lib, rd).Failure? && Load(obj, schema, ext, lib, rd).error.MalformedSchema?
  {
  }

  // ---------------------------------------------------------------- _object

  /** Without `properties` a dict comes back unchanged and `required` is not looked at at all. */
  lemma ObjectWithoutProperties(obj: Json, schema: Json, ext: Option<map<string, Decoder>>, lib: Library, rd: Reading)
    requires schema.Obj? && !HasKey(schema.fields, "properties")
    ensures LoadObject(obj, schema, ext, lib, rd).Success? <==> obj.Obj?
    ensures obj.Obj? ==> LoadObject(obj, schema, ext, lib, rd) == Success(obj)
  {
  }

  /** `{"type": "object", "required": ["a1", "a2"]}` accepts `{}`: names that no property lists are never checked. */
  lemma RequiredAloneNotChecked(ext: Option<map<string, Decoder>>, lib: Library, rd: Reading)
    ensures Load(Obj([]), Obj([("type", Str("object")), ("required", Arr([Str("a1"), Str("a2")]))]), ext, lib, rd) == Success(Obj([]))
  {
    var fields := [("type", Str("object")), ("required", Arr([Str("a1"), Str("a2")]))];
    assert Lookup(fields, "type") == Some(Str("object"));
    assert Lookup(fields, "properties") == None;
  }

  /** A property that is both listed and required, but absent from the instance, makes the loop fail. */
  lemma {:induction false} RequiredListedMissing(props: Json, i: nat, rest: Fields, required: set<string>, j: nat,
                                                  ext: Option<map<string, Decoder>>, lib: Library, rd: Reading)
    requires props.Obj? && i <= j < |props.fields|
    requires props.fields[j].0 in required && !HasKey(rest, props.fields[j].0)
    ensures ObjectProps(props, i, rest, required, ext, lib, rd).Failure?
    decreases |props.fields| - i
  {
    var prop := props.fields[i].0;
    if HasKey(rest, prop) {
      if Load(Lookup(rest, prop).value, props.fields[i].1, ext, lib, rd).Success? {
        RequiredListedMissing(props, i + 1, Remove(rest, prop), required, j, ext, lib, rd);
      }
    } else if prop !in required {
      RequiredListedMissing(props, i + 1, rest, required, j, ext, lib, rd);
    }
  }

  /** Required names that no property lists make no difference to the loop. */
  lemma {:induction false} UnlistedRequiredIgnored(props: Json, i: nat, rest: Fields, required: set<string>,
                                                    ext: Option<map<string, Decoder>>, lib: Library, rd: Reading)
    requires props.Obj? && i <= |props.fields|
    ensures ObjectProps(props, i, rest, required, ext, lib, rd) == ObjectProps(props, i, rest, required * Keys(props.fields), ext, lib, rd)
    decreases |props.fields| - i
  {
    if i < |props.fields| {
      var prop := props.fields[i].0;
      assert prop in Keys(props.fields);
      if HasKey(rest, prop) {
        UnlistedRequiredIgnored(props, i + 1, Remove(rest, prop), required, ext, lib, rd);
      } else {
        UnlistedRequiredIgnored(props, i + 1, rest, required, ext, lib, rd);
      }
    }
  }

  /**
   * What the loop builds from the `i`-th property on, when it succeeds: an entry
   * for every listed property the instance has, holding `loado` of the instance's
   * value under the first schema listed for it; and, left over, exactly the
   * instance's other entries, unchanged.
   */
  lemma {:induction false} ObjectPropsShape(props: Json, i: nat, rest: Fields, required: set<string>,
                                             ext: Option<map<string, Decoder>>, lib: Library, rd: Reading)
    requires props.Obj? && i <= |props.fields|
    requires ObjectProps(props, i, rest, required, ext, lib, rd).Success?
    ensures var p := ObjectProps(props, i, rest, required, ext, lib, rd).value;
      && Keys(p.0) == Keys(props.fields[i..]) * Keys(rest)
      && Keys(p.1) == Keys(rest) - Keys(props.fields[i..])
      && (forall k | k in Keys(p.1) :: Lookup(p.1, k) == Lookup(rest, k))
      && (forall k | k in Keys(p.0) ::
            Load(Lookup(rest, k).value, Lookup(props.fields[i..], k).value, ext, lib, rd) == Success(Lookup(p.0, k).value))
    decreases |props.fields| - i
  {
    if i == |props.fields| {
      assert props.fields[i..] == [];
    } else {
      var prop := props.fields[i].0;
      assert props.fields[i..] == [props.fields[i]] + props.fields[i + 1..];
      KeysCons(props.fields[i..]);
      assert props.fields[i..][1..] == props.fields[i + 1..];
      if HasKey(rest, prop) {
        var v := Load(Lookup(rest, prop).value, props.fields[i].1, ext, lib, rd).value;
        var rest' := Remove(rest, prop);
        ObjectPropsShape(props, i + 1, rest', required, ext, lib, rd);
        var after := ObjectProps(props, i + 1, rest', required, ext, lib, rd).value;
        var p := ObjectProps(props, i, rest, required, ext, lib, rd).value;
        assert p.0 == [(prop, v)] + after.0;
        KeysCons(p.0);
        assert p.0[1..] == after.0;
      } else {
        ObjectPropsShape(props, i + 1, rest, required, ext, lib, rd);
      }
    }
  }

  /**
   * On success, `_object` keeps the instance's key set: each listed property is
   * replaced by its own `loado` result, every other entry is copied unchanged.
   */
  lemma LoadObjectShape(obj: Json, schema: Json, ext: Option<map<string, Decoder>>, lib: Library, rd: Reading)
    requires schema.Obj?
    requires LoadObject(obj, schema, ext, lib, rd).Success?
    ensures var out := LoadObject(obj, schema, ext, lib, rd).value;
      && obj.Obj? && out.Obj?
      && Keys(out.fields) == Keys(obj.fields)
      && (forall k | k in Keys(obj.fields) && !HasPropertySchema(schema, k) ::
            Lookup(out.fields, k) == Lookup(obj.fields, k))
      && (forall k | k in Keys(obj.fields) && HasPropertySchema(schema, k) ::
            Load(Lookup(obj.fields, k).value, PropertySchema(schema, k), ext, lib, rd) == Success(Lookup(out.fields, k).value))
  {
    if HasKey(schema.fields, "properties") {
      var required := RequiredNames(schema.fields).value;
      var props := Lookup(schema.fields, "properties").value;
      assert props.fields[0..] == props.fields;
      ObjectPropsShape(props, 0, obj.fields, required, ext, lib, rd);
      var p := ObjectProps(props, 0, obj.fields, required, ext, lib, rd).value;
      KeysAppend(p.0, p.1);
      forall k | k in Keys(obj.fields)
        ensures Lookup(p.0 + p.1, k) == if k in Keys(p.0) then Lookup(p.0, k) else Lookup(p.1, k)
      {
        LookupAppend(p.0, p.1, k);
      }
    }
  }

  /** `schema['properties']` is a dict listing `k`. */
  predicate HasPropertySchema(schema: Json, k: string)
    requires schema.Obj?
  {
    HasKey(schema.fields, "properties") && Lookup(schema.fields, "properties").value.Obj? &&
    HasKey(Lookup(schema.fields, "properties").value.fields, k)
  }

  /** `schema['properties'][k]` */
  function PropertySchema(schema: Json, k: string): Json
    requires schema.Obj? && HasPropertySchema(schema, k)
  {
    Lookup(Lookup(schema.fields, "properties").value.fields, k).value
  }

  /** With `additionalProperties` present, whatever its value (even `true`), an instance key no property lists is refused. */
  lemma AdditionalPropertiesRefuseLeftovers(obj: Json, schema: Json, k: string, ext: Option<map<string, Decoder>>, lib: Library, rd: Reading)
    requires schema.Obj? && obj.Obj?
    requires HasKey(schema.fields, "properties") && HasKey(schema.fields, "additionalProperties")
    requires k in Keys(obj.fields) && !HasPropertySchema(schema, k)
    ensures LoadObject(obj, schema, ext, lib, rd).Failure?
  {
    var required := RequiredNames(schema.fields);
    var props := Lookup(schema.fields, "properties").value;
    if required.Success? && props.Obj? {
      var r := ObjectProps(props, 0, obj.fields, required.value, ext, lib, rd);
      if r.Success? {
        assert props.fields[0..] == props.fields;
        ObjectPropsShape(props, 0, obj.fields, required.value, ext, lib, rd);
        assert k in Keys(r.value.1);
      }
    }
  }

  /** A required property listed in the schema but absent from the instance makes `_object` fail. */
  lemma MissingRequiredPropertyRejected(obj: Json, schema: Json, k: string, ext: Option<map<string, Decoder>>, lib: Library, rd: Reading)
    requires schema.Obj? && obj.Obj? && HasPropertySchema(schema, k)
    requires RequiredNames(schema.fields).Success? && k in RequiredNames(schema.fields).value
    requires k !in Keys(obj.fields)
    ensures LoadObject(obj, schema, ext, lib, rd).Failure?
  {
    var props := Lookup(schema.fields, "properties").value;
    var j :| 0 <= j < |props.fields| && props.fields[j].0 == k;
    RequiredListedMissing(props, 0, obj.fields, RequiredNames(schema.fields).value, j, ext, lib, rd);
  }

  /** Properties are visited in schema order: when the first listed property fails, its error is reported whatever the second does. */
  lemma FirstPropertyErrorReported(a: string, sa: Json, b: string, sb: Json, va: Json, vb: Json,
                                   ext: Option<map<string, Decoder>>, lib: Library, rd: Reading)
    requires a != b
    requires Load(va, sa, ext, lib, rd).Failure?
    ensures LoadObject(Obj([(a, va), (b, vb)]), Obj([("type", Str("object")), ("properties", Obj([(a, sa), (b, sb)]))]), ext, lib, rd)
         == Failure(Load(va, sa, ext, lib, rd).error)
  {
    var fields := [("type", Str("object")), ("properties", Obj([(a, sa), (b, sb)]))];
    assert Lookup(fields, "properties") == Some(Obj([(a, sa), (b, sb)]));
    assert Lookup(fields, "required") == None;
    assert Lookup([(a, va), (b, vb)], a) == Some(va);
  }

  /**
   * Property `j` is found when the loop (started at `i` on `rest`) reaches it: the
   * instance has it and no property visited before it has popped it.
   */
  predicate Found(props: Json, i: nat, rest: Fields, j: nat)
    requires props.Obj? && i <= j < |props.fields|
  {
    props.fields[j].0 in Keys(rest) && props.fields[j].0 !in Keys(props.fields[i..j])
  }

  /** The loop's step at property `j`: a found property is loaded, a missing required one raises, any other passes. */
  function Step(props: Json, i: nat, rest: Fields, required: set<string>, j: nat,
                ext: Option<map<string, Decoder>>, lib: Library, rd: Reading): Result<(), Error>
    requires props.Obj? && i <= j < |props.fields|
  {
    var prop := props.fields[j].0;
    if Found(props, i, rest, j) then
      match Load(Lookup(rest, prop).value, props.fields[j].1, ext, lib, rd)
      case Success(_) => Success(())
      case Failure(e) => Failure(e)
    else if prop in required then Failure(RequiredMissing(prop))
    else Success(())
  }

  /** Visiting property `i` leaves every later step as it was. */
  lemma StepShift(props: Json, i: nat, rest: Fields, required: set<string>, j: nat,
                  ext: Option<map<string, Decoder>>, lib: Library, rd: Reading)
    requires props.Obj? && i < j < |props.fields|
    ensures var rest' := if HasKey(rest, props.fields[i].0) then Remove(rest, props.fields[i].0) else rest;
      Step(props, i, rest, required, j, ext, lib, rd) == Step(props, i + 1, rest', required, j, ext, lib, rd)
  {
    assert props.fields[i..j] == [props.fields[i]] + props.fields[i + 1..j];
    KeysCons(props.fields[i..j]);
    assert props.fields[i..j][1..] == props.fields[i + 1..j];
  }

  /**
   * The properties loop from the `i`-th property on succeeds exactly when every
   * step passes; when it fails, it raises the error of the first step that fails.
   */
  lemma {:induction false} ObjectPropsOutcome(props: Json, i: nat, rest: Fields, required: set<string>,
                                               ext: Option<map<string, Decoder>>, lib: Library, rd: Reading)
    requires props.Obj? && i <= |props.fields|
    ensures ObjectProps(props, i, rest, required, ext, lib, rd).Success? <==>
      forall j | i <= j < |props.fields| :: Step(props, i, rest, required, j, ext, lib, rd).Success?
    ensures ObjectProps(props, i, rest, required, ext, lib, rd).Failure? ==>
      exists j | i <= j < |props.fields| ::
        && Step(props, i, rest, required, j, ext, lib, rd) == Failure(ObjectProps(props, i, rest, required, ext, lib, rd).error)
        && forall n | i <= n < j :: Step(props, i, rest, required, n, ext, lib, rd).Success?
    decreases |props.fields| - i
  {
    if i < |props.fields| {
      var prop := props.fields[i].0;
      var rest' := if HasKey(rest, prop) then Remove(rest, prop) else rest;
      ObjectPropsOutcome(props, i + 1, rest', required, ext, lib, rd);
      StepsShift(props, i, rest, required, ext, lib, rd);
      ObjectPropsStep(props, i, rest, required, ext, lib, rd);
      var r := ObjectProps(props, i, rest, required, ext, lib, rd);
      if r.Failure? {
        if Step(props, i, rest, required, i, ext, lib, rd).Success? {
          var next := i + 1;
          var j :| next <= j < |props.fields|
            && Step(props, next, rest', required, j, ext, lib, rd) == Failure(r.error)
            && forall n | next <= n < j :: Step(props, next, rest', required, n, ext, lib, rd).Success?;
          assert Step(props, i, rest, required, j, ext, lib, rd) == Failure(r.error);
        }
      }
    }
  }

  /** Visiting property `i` leaves all later steps as they were. */
  lemma StepsShift(props: Json, i: nat, rest: Fields, required: set<string>,
                   ext: Option<map<string, Decoder>>, lib: Library, rd: Reading)
    requires props.Obj? && i < |props.fields|
    ensures var rest' := if HasKey(rest, props.fields[i].0) then Remove(rest, props.fields[i].0) else rest;
      forall j | i < j < |props.fields| ::
        Step(props, i, rest, required, j, ext, lib, rd) == Step(props, i + 1, rest', required, j, ext, lib, rd)
  {
    forall j | i < j < |props.fields| {
      StepShift(props, i, rest, required, j, ext, lib, rd);
    }
  }

  /** One step of the loop: a failing step raises its error, a passing one leaves the outcome to the rest of the loop. */
  lemma ObjectPropsStep(props: Json, i: nat, rest: Fields, required: set<string>,
                        ext: Option<map<string, Decoder>>, lib: Library, rd: Reading)
    requires props.Obj? && i < |props.fields|
    ensures var rest' := if HasKey(rest, props.fields[i].0) then Remove(rest, props.fields[i].0) else rest;
      var r := ObjectProps(props, i, rest, required, ext, lib, rd);
      var after := ObjectProps(props, i + 1, rest', required, ext, lib, rd);
      && (Step(props, i, rest, required, i, ext, lib, rd).Failure? ==> r == Failure(Step(props, i, rest, required, i, ext, lib, rd).error))
      && (Step(props, i, rest, required, i, ext, lib, rd).Success? ==>
            (r.Success? <==> after.Success?) && (r.Failure? ==> r.error == after.error))
  {
    assert props.fields[i..i] == [];
  }

  /**
   * `_object` on a dict whose schema lists `properties` (a dict) and a readable
   * `required`: it succeeds exactly when every property step passes and, when
   * `additionalProperties` is present, the instance has no key the properties do
   * not list; when a step fails, the first failing step's error is raised.
   */
  lemma LoadObjectOutcome(obj: Json, schema: Json, ext: Option<map<string, Decoder>>, lib: Library, rd: Reading)
    requires schema.Obj? && obj.Obj? && HasKey(schema.fields, "properties")
    requires RequiredNames(schema.fields).Success? && Lookup(schema.fields, "properties").value.Obj?
    ensures var props := Lookup(schema.fields, "properties").value;
      var required := RequiredNames(schema.fields).value;
      LoadObject(obj, schema, ext, lib, rd).Success? <==>
        && (forall j | 0 <= j < |props.fields| :: Step(props, 0, obj.fields, required, j, ext, lib, rd).Success?)
        && (HasKey(schema.fields, "additionalProperties") ==> Keys(obj.fields) <= Keys(props.fields))
    ensures var props := Lookup(schema.fields, "properties").value;
      var required := RequiredNames(schema.fields).value;
      (exists j | 0 <= j < |props.fields| :: Step(props, 0, obj.fields, required, j, ext, lib, rd).Failure?) ==>
        exists j | 0 <= j < |props.fields| ::
          && Step(props, 0, obj.fields, required, j, ext, lib, rd) == Failure(LoadObject(obj, schema, ext, lib, rd).error)
          && forall n | 0 <= n < j :: Step(props, 0, obj.fields, required, n, ext, lib, rd).Success?
  {
    var props := Lookup(schema.fields, "properties").value;
    var required := RequiredNames(schema.fields).value;
    ObjectPropsOutcome(props, 0, obj.fields, required, ext, lib, rd);
    var r := ObjectProps(props, 0, obj.fields, required, ext, lib, rd);
    if r.Success? {
      assert props.fields[0..] == props.fields;
      ObjectPropsShape(props, 0, obj.fields, required, ext, lib, rd);
      EmptyIffNoKeys(r.value.1);
      assert Keys(r.value.1) == Keys(obj.fields) - Keys(props.fields);
      assert LoadObject(obj, schema, ext, lib, rd).Success? <==>
        !(HasKey(schema.fields, "additionalProperties") && |r.value.1| > 0);
      SubsetIffNoneLeft(Keys(obj.fields), Keys(props.fields));
    }
  }

  lemma SubsetIffNoneLeft(a: set<string>, b: set<string>)
    ensures a <= b <==> a - b == {}
  {
    if a - b == {} {
      forall x | x in a ensures x in b {
        assert x !in a - b;
      }
    }
  }

  lemma EmptyIffNoKeys(fields: Fields)
    ensures |fields| > 0 <==> Keys(fields) != {}
  {
    if |fields| > 0 {
      assert fields[0].0 in Keys(fields);
    }
  }

  // ---------------------------------------------------------------- _array

  /**
   * The items loop from the `i`-th element on: on success one output element per
   * input element, each `loado` of its input; on failure the error of the first
   * element that fails.
   */
  lemma {:induction false} ItemsShape(items: Json, elems: seq<Json>, i: nat, ext: Option<map<string, Decoder>>, lib: Library, rd: Reading)
    requires i <= |elems|
    ensures Items(items, elems, i, ext, lib, rd).Success? ==>
      && |Items(items, elems, i, ext, lib, rd).value| == |elems| - i
      && forall n | 0 <= n < |elems| - i :: Load(elems[i + n], items, ext, lib, rd) == Success(Items(items, elems, i, ext, lib, rd).value[n])
    ensures Items(items, elems, i, ext, lib, rd).Failure? ==>
      exists j | i <= j < |elems| ::
        && Load(elems[j], items, ext, lib, rd) == Failure(Items(items, elems, i, ext, lib, rd).error)
        && forall n | i <= n < j :: Load(elems[n], items, ext, lib, rd).Success?
    decreases |elems| - i
  {
    if i < |elems| {
      ItemsShape(items, elems, i + 1, ext, lib, rd);
      var r := Items(items, elems, i, ext, lib, rd);
      if Load(elems[i], items, ext, lib, rd).Success? {
        var tail := Items(items, elems, i + 1, ext, lib, rd);
        if tail.Success? {
          assert r.value == [Load(elems[i], items, ext, lib, rd).value] + tail.value;
          forall n | 0 <= n < |elems| - i
            ensures Load(elems[i + n], items, ext, lib, rd) == Success(r.value[n])
          {
            if n > 0 {
              assert r.value[n] == tail.value[n - 1];
              assert elems[i + n] == elems[(i + 1) + (n - 1)];
            }
          }
        } else {
          var j :| i + 1 <= j < |elems| && Load(elems[j], items, ext, lib, rd) == Failure(tail.error)
                   && forall n | i + 1 <= n < j :: Load(elems[n], items, ext, lib, rd).Success?;
          assert Load(elems[j], items, ext, lib, rd) == Failure(r.error);
        }
      }
    }
  }

  /** With `items`, a successful `_array` has the input's length and element `n` is `loado(obj[n], items)`. */
  lemma LoadArrayElementwise(obj: Json, schema: Json, ext: Option<map<string, Decoder>>, lib: Library, rd: Reading)
    requires schema.Obj? && HasKey(schema.fields, "items")
    requires LoadArray(obj, schema, ext, lib, rd).Success?
    ensures var out := LoadArray(obj, schema, ext, lib, rd).value;
      && obj.Arr? && out.Arr? && |out.elems| == |obj.elems|
      && forall n | 0 <= n < |obj.elems| :: Load(obj.elems[n], Lookup(schema.fields, "items").value, ext, lib, rd) == Success(out.elems[n])
  {
    ItemsShape(Lookup(schema.fields, "items").value, obj.elems, 0, ext, lib, rd);
  }

  /** With `items`, a failing `_array` reports the first element that fails. */
  lemma LoadArrayFirstFailure(obj: Json, schema: Json, ext: Option<map<string, Decoder>>, lib: Library, rd: Reading)
    requires schema.Obj? && HasKey(schema.fields, "items") && obj.Arr?
    requires LoadArray(obj, schema, ext, lib, rd).Failure?
    ensures exists j | 0 <= j < |obj.elems| ::
      && Load(obj.elems[j], Lookup(schema.fields, "items").value, ext, lib, rd) == Failure(LoadArray(obj, schema, ext, lib, rd).error)
      && forall n | 0 <= n < j :: Load(obj.elems[n], Lookup(schema.fields, "items").value, ext, lib, rd).Success?
  {
    ItemsShape(Lookup(schema.fields, "items").value, obj.elems, 0, ext, lib, rd);
  }

  /**
   * Without `items`, a non-list is refused under both readings; a list comes back
   * emptied as written and unchanged corrected.
   */
  lemma ArrayWithoutItems(obj: Json, schema: Json, ext: Option<map<string, Decoder>>, lib: Library)
    requires schema.Obj? && !HasKey(schema.fields, "items")
    ensures !obj.Arr? ==> LoadArray(obj, schema, ext, lib, AsWritten) == Failure(NotA("array"))
    ensures !obj.Arr? ==> LoadArray(obj, schema, ext, lib, Corrected) == Failure(NotA("array"))
    ensures obj.Arr? ==> LoadArray(obj, schema, ext, lib, AsWritten) == Success(Arr([]))
    ensures obj.Arr? ==> LoadArray(obj, schema, ext, lib, Corrected) == Success(obj)
    ensures obj.Arr? && obj.elems != [] ==> LoadArray(obj, schema, ext, lib, AsWritten) != LoadArray(obj, schema, ext, lib, Corrected)
  {
  }

  /** `loado([1, 2], {"type": "array"})`: as written `[]`, corrected `[1, 2]`. */
  lemma ArrayWithoutItemsExample(ext: Option<map<string, Decoder>>, lib: Library)
    ensures Load(Arr([Num(1.0), Num(2.0)]), TypeOnly("array"), ext, lib, AsWritten) == Success(Arr([]))
    ensures Load(Arr([Num(1.0), Num(2.0)]), TypeOnly("array"), ext, lib, Corrected) == Success(Arr([Num(1.0), Num(2.0)]))
  {
    assert Lookup([("type", Str("array"))], "type") == Some(Str("array"));
    assert Lookup([("type", Str("array"))], "items") == None;
  }

  /**
   * The slip reaches any depth: `loado([[1]], {"type": "array", "items": {"type": "array"}})`
   * is `[[]]` as written, so the as-written `loado` does not keep the instance's
   * shape; corrected it is `[[1]]`.
   */
  lemma NestedListEmptiedAsWritten(ext: Option<map<string, Decoder>>, lib: Library)
    ensures Load(Arr([Arr([Num(1.0)])]), Obj([("type", Str("array")), ("items", TypeOnly("array"))]), ext, lib, AsWritten)
         == Success(Arr([Arr([])]))
    ensures !SameShape(Arr([Arr([Num(1.0)])]), Arr([Arr([])]))
    ensures Load(Arr([Arr([Num(1.0)])]), Obj([("type", Str("array")), ("items", TypeOnly("array"))]), ext, lib, Corrected)
         == Success(Arr([Arr([Num(1.0)])]))
  {
    var outer := [("type", Str("array")), ("items", TypeOnly("array"))];
    assert Lookup(outer, "type") == Some(Str("array"));
    assert Lookup(outer, "items") == Some(TypeOnly("array"));
    assert Lookup([("type", Str("array"))], "type") == Some(Str("array"));
    assert Lookup([("type", Str("array"))], "items") == None;
    var elems := [Arr([Num(1.0)])];
    assert Load(Arr([Num(1.0)]), TypeOnly("array"), ext, lib, AsWritten) == Success(Arr([]));
    assert Load(Arr([Num(1.0)]), TypeOnly("array"), ext, lib, Corrected) == Success(Arr([Num(1.0)]));
    assert Items(TypeOnly("array"), elems, 1, ext, lib, AsWritten) == Success([]);
    assert Items(TypeOnly("array"), elems, 1, ext, lib, Corrected) == Success([]);
    assert elems[0] == Arr([Num(1.0)]);
    assert [Arr([])] + [] == [Arr([])] && [Arr([Num(1.0)])] + [] == elems;
    assert Items(TypeOnly("array"), elems, 0, ext, lib, AsWritten) == Success([Arr([])]);
    assert Items(TypeOnly("array"), elems, 0, ext, lib, Corrected) == Success([Arr([Num(1.0)])]);
    assert LoadArray(Arr(elems), Obj(outer), ext, lib, AsWritten) == Success(Arr([Arr([])]));
    assert LoadArray(Arr(elems), Obj(outer), ext, lib, Corrected) == Success(Arr(elems));
    assert !SameShape(Arr([Num(1.0)]), Arr([]));
  }

  // ---------------------------------------------------------------- _string

  /**
   * A `string` schema refuses every non-string before its `format` is read: the
   * error is the same whatever the schema's other keys and the extensions hold.
   */
  lemma StringRefusesNonStrings(obj: Json, fields: Fields, ext: Option<map<string, Decoder>>, lib: Library, rd: Reading)
    requires Lookup(fields, "type") == Some(Str("string")) && !obj.Str?
    ensures Load(obj, Obj(fields), ext, lib, rd) == Failure(NotA("string"))
  {
  }

  /** `_string` checks no length or pattern: without a format every string comes back unchanged. */
  lemma StringWithoutFormatUnchanged(s: string, schema: Fields, ext: Option<map<string, Decoder>>, lib: Library, rd: Reading)
    requires !HasKey(schema, "format") || Lookup(schema, "format").value == Null
    ensures LoadString(Str(s), schema, ext, lib, rd) == Success(Str(s))
    ensures forall other: Json | !other.Str? :: LoadString(other, schema, ext, lib, rd) == Failure(NotA("string"))
  {
  }

  /**
   * A built-in symbol decodes with the built-in entry whatever `extended_formats`
   * holds; any other symbol needs an extension and fails as unsupported without one.
   */
  lemma StringFormatLookup(s: string, schema: Fields, ext: Option<map<string, Decoder>>, lib: Library, rd: Reading)
    requires Lookup(schema, "format").Some? && Lookup(schema, "format").value.Str?
    ensures Lookup(schema, "format").value.s in LoadFormats(lib, rd) ==>
      LoadString(Str(s), schema, ext, lib, rd) == LoadString(Str(s), schema, None, lib, rd)
    ensures Lookup(schema, "format").value.s !in LoadFormats(lib, rd) && (ext.None? || Lookup(schema, "format").value.s !in ext.value) ==>
      LoadString(Str(s), schema, ext, lib, rd) == Failure(FormatFailed(Lookup(schema, "format").value, "format is not supported"))
  {
  }

  /** The table holds exactly these six symbols under either reading, and its `duration` entry is the identity. */
  lemma LoadFormatSymbols(s: string, lib: Library, rd: Reading)
    ensures LoadFormats(lib, rd).Keys == {"uuid", "date-time", "time", "date", "duration", "bytes"}
    ensures LoadString(Str(s), [("type", Str("string")), ("format", Str("duration"))], None, lib, rd) == Success(Str(s))
  {
    assert Lookup([("type", Str("string")), ("format", Str("duration"))], "format") == Some(Str("duration"));
  }

  /** As written, `uuid` fails on every string, even a valid UUID, and no extension can replace it (the built-in entry wins). */
  lemma UuidAsWrittenAlwaysFails(s: string, ext: Option<map<string, Decoder>>, lib: Library)
    ensures LoadString(Str(s), [("type", Str("string")), ("format", Str("uuid"))], ext, lib, AsWritten).Failure?
  {
    assert Lookup([("type", Str("string")), ("format", Str("uuid"))], "format") == Some(Str("uuid"));
  }

  /** Corrected, `uuid` returns what `uuid.UUID` returns and fails, wrapped, where it fails. */
  lemma UuidDecodes(s: string, ext: Option<map<string, Decoder>>, lib: Library)
    ensures lib.uuidParse(s).Success? ==>
      LoadString(Str(s), [("type", Str("string")), ("format", Str("uuid"))], ext, lib, Corrected) == Success(lib.uuidParse(s).value)
    ensures lib.uuidParse(s).Failure? ==>
      LoadString(Str(s), [("type", Str("string")), ("format", Str("uuid"))], ext, lib, Corrected) == Failure(FormatFailed(Str("uuid"), lib.uuidParse(s).error))
  {
    assert Lookup([("type", Str("string")), ("format", Str("uuid"))], "format") == Some(Str("uuid"));
  }

  // ---------------------------------------------------------------- the output tree

  /**
   * `b` has the shape of `a`: lists keep their length, dicts their key set, each
   * part keeps the shape of its counterpart, and only string leaves may be
   * replaced (by what a format decoded them to).
   */
  predicate SameShape(a: Json, b: Json)
    decreases a
  {
    match a
    case Str(_) => true
    case Arr(xs) => b.Arr? && |xs| == |b.elems| && forall n | 0 <= n < |xs| :: SameShape(xs[n], b.elems[n])
    case Obj(fs) =>
      b.Obj? && Keys(fs) == Keys(b.fields) &&
      forall k | k in Keys(fs) :: SameShape(Lookup(fs, k).value, Lookup(b.fields, k).value)
    case _ => b == a
  }

  lemma {:induction false} SameShapeReflexive(a: Json)
    ensures SameShape(a, a)
    decreases a
  {
    match a
    case Arr(xs) =>
      forall n | 0 <= n < |xs| ensures SameShape(xs[n], xs[n]) {
        SameShapeReflexive(xs[n]);
      }
    case Obj(fs) =>
      forall k | k in Keys(fs) ensures SameShape(Lookup(fs, k).value, Lookup(fs, k).value) {
        SameShapeReflexive(Lookup(fs, k).value);
      }
    case _ =>
  }

  /** Whatever the schema, a successful corrected `loado` returns a tree of the instance's shape: nothing is added, dropped or reordered, only string leaves change. */
  lemma {:induction false} LoadKeepsShape(obj: Json, schema: Json, ext: Option<map<string, Decoder>>, lib: Library)
    requires Load(obj, schema, ext, lib, Corrected).Success?
    ensures SameShape(obj, Load(obj, schema, ext, lib, Corrected).value)
    decreases schema
  {
    var out := Load(obj, schema, ext, lib, Corrected).value;
    match schema
    case Null => SameShapeReflexive(obj);
    case Obj(fields) =>
      var t := Lookup(fields, "type").value;
      if t == Str("object") {
        LoadObjectShape(obj, schema, ext, lib, Corrected);
        forall k | k in Keys(obj.fields)
          ensures SameShape(Lookup(obj.fields, k).value, Lookup(out.fields, k).value)
        {
          if HasPropertySchema(schema, k) {
            LoadKeepsShape(Lookup(obj.fields, k).value, PropertySchema(schema, k), ext, lib);
          } else {
            SameShapeReflexive(Lookup(obj.fields, k).value);
          }
        }
      } else if t == Str("array") {
        if HasKey(fields, "items") {
          var items := Lookup(fields, "items").value;
          LoadArrayElementwise(obj, schema, ext, lib, Corrected);
          forall n | 0 <= n < |obj.elems| ensures SameShape(obj.elems[n], out.elems[n]) {
            LoadKeepsShape(obj.elems[n], items, ext, lib);
          }
        } else {
          SameShapeReflexive(obj);
        }
      } else if t != Str("string") {
        SameShapeReflexive(obj);
      }
  }
}
