/**
 * The loops of `_object` and `_array` in src/load.py, step by step: `_object`
 * pops each visited property out of the instance dict and fills `ret`; `_array`
 * appends each element's result to `ret`. Each method is proved to compute the
 * function of `Loader` that specifies it.
 */
module LoadImpl {
  import opened Wrappers
  import opened JsonValue
  import opened Library
  import opened Loader
  import opened Readings

  /** The loop's new entries put after those already in `ret`. */
  function Prepend(ret: Fields, r: Result<(Fields, Fields), Error>): Result<(Fields, Fields), Error>
  {
    match r
    case Success(p) => Success((ret + p.0, p.1))
    case Failure(e) => Failure(e)
  }

  /** The loop's new elements put after those already in `ret`. */
  function PrependItems(ret: seq<Json>, r: Result<seq<Json>, Error>): Result<seq<Json>, Error>
  {
    match r
    case Success(out) => Success(ret + out)
    case Failure(e) => Failure(e)
  }

  /** The names `schema['properties']` lists, when it is a dict. */
  function PropertyNames(schema: Fields): set<string>
  {
    match Lookup(schema, "properties")
    case Some(Obj(props)) => Keys(props)
    case _ => {}
  }

  /** Visiting property `i` takes its name out of what is left, whether or not the instance has it. */
  lemma VisitedKeys(all: set<string>, props: Fields, i: nat, remaining: Fields)
    requires i < |props| && Keys(remaining) == all - Keys(props[..i])
    ensures Keys(Remove(remaining, props[i].0)) == all - Keys(props[..i + 1])
    ensures !HasKey(remaining, props[i].0) ==> Keys(remaining) == all - Keys(props[..i + 1])
  {
    assert props[..i + 1] == props[..i] + [props[i]];
    KeysAppend(props[..i], [props[i]]);
    assert Keys([props[i]]) == {props[i].0};
  }

  /** Visiting a property the instance has moves its result into `ret` and its entry out of what is left. */
  lemma PopStep(props: Json, i: nat, remaining: Fields, required: set<string>,
                ext: Option<map<string, Decoder>>, lib: Library, ret: Fields, rd: Reading)
    requires props.Obj? && i < |props.fields| && HasKey(remaining, props.fields[i].0)
    requires Load(Lookup(remaining, props.fields[i].0).value, props.fields[i].1, ext, lib, rd).Success?
    ensures Prepend(ret, ObjectProps(props, i, remaining, required, ext, lib, rd))
         == Prepend(ret + [(props.fields[i].0, Load(Lookup(remaining, props.fields[i].0).value, props.fields[i].1, ext, lib, rd).value)],
                    ObjectProps(props, i + 1, Remove(remaining, props.fields[i].0), required, ext, lib, rd))
  {
    var prop := props.fields[i].0;
    var v := Load(Lookup(remaining, prop).value, props.fields[i].1, ext, lib, rd).value;
    var after := ObjectProps(props, i + 1, Remove(remaining, prop), required, ext, lib, rd);
    if after.Success? {
      assert ret + ([(prop, v)] + after.value.0) == (ret + [(prop, v)]) + after.value.0;
    }
  }

  /** Popping a key keeps every other entry's value as the instance had it. */
  lemma PopKeepsValues(original: Fields, remaining: Fields, prop: string)
    requires forall k | k in Keys(remaining) :: Lookup(remaining, k) == Lookup(original, k)
    ensures forall k | k in Keys(Remove(remaining, prop)) :: Lookup(Remove(remaining, prop), k) == Lookup(original, k)
  {
  }

  /** Loading element `i` moves its result into `ret`. */
  lemma ItemStep(items: Json, elems: seq<Json>, i: nat, ext: Option<map<string, Decoder>>, lib: Library, rd: Reading, ret: seq<Json>)
    requires i < |elems| && Load(elems[i], items, ext, lib, rd).Success?
    ensures PrependItems(ret, Items(items, elems, i, ext, lib, rd))
         == PrependItems(ret + [Load(elems[i], items, ext, lib, rd).value], Items(items, elems, i + 1, ext, lib, rd))
  {
    var v := Load(elems[i], items, ext, lib, rd).value;
    var after := Items(items, elems, i + 1, ext, lib, rd);
    if after.Success? {
      assert ret + ([v] + after.value) == (ret + [v]) + after.value;
    }
  }

  /**
   * `_object(obj, schema)`. `remaining` is what the caller's dict holds afterwards:
   * on success, every listed property has been popped out of it and the other
   * entries are untouched.
   */
  method LoadObjectLoop(obj: Json, schema: Json, ext: Option<map<string, Decoder>>, lib: Library, rd: Reading)
    returns (r: Result<Json, Error>, remaining: Fields)
    requires schema.Obj?
    ensures r == LoadObject(obj, schema, ext, lib, rd)
    ensures obj.Obj? && r.Success? ==> Keys(remaining) == Keys(obj.fields) - PropertyNames(schema.fields)
    ensures obj.Obj? ==> forall k | k in Keys(remaining) :: Lookup(remaining, k) == Lookup(obj.fields, k)
  {
    if !obj.Obj? {
      return Failure(NotA("dict")), [];
    }
    remaining := obj.fields;
    if !HasKey(schema.fields, "properties") {
      return Success(obj), remaining;
    }
    var required := RequiredNames(schema.fields);
    if required.Failure? {
      return Failure(required.error), remaining;
    }
    var props := Lookup(schema.fields, "properties").value;
    if !props.Obj? {
      return Failure(MalformedSchema("object has no attribute 'items'")), remaining;
    }
    var ret: Fields := [];
    var i := 0;
    var start := ObjectProps(props, 0, obj.fields, required.value, ext, lib, rd);
    if start.Success? {
      assert [] + start.value.0 == start.value.0;
    }
    while i < |props.fields|
      invariant 0 <= i <= |props.fields|
      invariant ObjectProps(props, 0, obj.fields, required.value, ext, lib, rd)
             == Prepend(ret, ObjectProps(props, i, remaining, required.value, ext, lib, rd))
      invariant Keys(remaining) == Keys(obj.fields) - Keys(props.fields[..i])
      invariant forall k | k in Keys(remaining) :: Lookup(remaining, k) == Lookup(obj.fields, k)
    {
      var prop := props.fields[i].0;
      VisitedKeys(Keys(obj.fields), props.fields, i, remaining);
      if HasKey(remaining, prop) {
        var v := Load(Lookup(remaining, prop).value, props.fields[i].1, ext, lib, rd);
        if v.Failure? {
          return Failure(v.error), Remove(remaining, prop);
        }
        PopStep(props, i, remaining, required.value, ext, lib, ret, rd);
        PopKeepsValues(obj.fields, remaining, prop);
        remaining := Remove(remaining, prop);
        ret := ret + [(prop, v.value)];
      } else if prop in required.value {
        return Failure(RequiredMissing(prop)), remaining;
      }
      i := i + 1;
    }
    assert props.fields[..i] == props.fields;
    assert ret + [] == ret;
    if HasKey(schema.fields, "additionalProperties") && |remaining| > 0 {
      return Failure(AdditionalProperties), remaining;
    }
    return Success(Obj(ret + remaining)), remaining;
  }

  /** `_array(obj, schema)`: `ret` filled only under `items`; corrected, a list without `items` is returned as it is. */
  method LoadArrayLoop(obj: Json, schema: Json, ext: Option<map<string, Decoder>>, lib: Library, rd: Reading)
    returns (r: Result<Json, Error>)
    requires schema.Obj?
    ensures r == LoadArray(obj, schema, ext, lib, rd)
  {
    if !obj.Arr? {
      return Failure(NotA("array"));
    }
    var ret: seq<Json> := [];
    if !HasKey(schema.fields, "items") {
      if rd == Corrected {
        return Success(obj);
      }
      return Success(Arr(ret));
    }
    var items := Lookup(schema.fields, "items").value;
    var start := Items(items, obj.elems, 0, ext, lib, rd);
    if start.Success? {
      assert [] + start.value == start.value;
    }
    for i := 0 to |obj.elems|
      invariant Items(items, obj.elems, 0, ext, lib, rd) == PrependItems(ret, Items(items, obj.elems, i, ext, lib, rd))
    {
      var v := Load(obj.elems[i], items, ext, lib, rd);
      if v.Failure? {
        return Failure(v.error);
      }
      ItemStep(items, obj.elems, i, ext, lib, rd, ret);
      ret := ret + [v.value];
    }
    assert ret + [] == ret;
    return Success(Arr(ret));
  }
}
