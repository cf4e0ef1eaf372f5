/**
 * src/load.py: `loado` and its walkers, as functions over value trees. Each call
 * descends into a part of the schema (`properties[k]`, `items`), which is what
 * makes the recursion terminate. Every walker takes a `Reading`: the code as
 * written, or with the two slips of the file corrected. `LoadImpl` gives the
 * loops of `_object` and `_array` as methods proved equal to these functions.
 */
module Loader {
  import opened Wrappers
  import opened JsonValue
  import opened Library
  import StringChecks
  import opened Readings

  /** `uuid.UUID.__init__(s)` with `s` as `self` and no other argument: it always raises TypeError. */
  function UuidInitAsWritten(s: string): (r: Result<Json, string>)
    ensures r.Failure?
  {
    Failure("one of the hex, bytes, bytes_le, fields, or int arguments must be given")
  }

  /**
   * `DEFAULT_FORMATS` of src/load.py: the three date entries all call
   * `datetime.fromisoformat`, `duration` is the identity, and `uuid` is
   * `uuid.UUID.__init__` as written and `uuid.UUID` corrected.
   */
  function LoadFormats(lib: Library, rd: Reading): map<string, Decoder>
  {
    map[
      "uuid" := if rd == Corrected then lib.uuidParse else UuidInitAsWritten,
      "date-time" := lib.datetimeFromIso,
      "time" := lib.datetimeFromIso,
      "date" := lib.datetimeFromIso,
      "duration" := (s: string) => Success(Str(s)),
      "bytes" := lib.b64decode
    ]
  }

  /** `_string`: no length or pattern check, only the format. */
  function LoadString(obj: Json, schema: Fields, ext: Option<map<string, Decoder>>, lib: Library, rd: Reading): (r: Result<Json, Error>)
    ensures !obj.Str? ==> r == Failure(NotA("string"))
    ensures r.Success? ==> obj.Str?
  {
    if !obj.Str? then Failure(NotA("string"))
    else
      match Lookup(schema, "format")
      case None => Success(obj)
      case Some(f) =>
        if f == Null then Success(obj)
        else StringChecks.FormatBlock(f, obj.s, StringChecks.ResolveFormat(f, LoadFormats(lib, rd), ext))
  }

  /**
   * `loado(obj, schema, extended_formats)` under the reading `rd`: no schema
   * returns the value; otherwise `schema['type']` picks the walker (a schema that
   * is not a dict, or has no `type`, raises).
   */
  function Load(obj: Json, schema: Json, ext: Option<map<string, Decoder>>, lib: Library, rd: Reading): Result<Json, Error>
    decreases schema, 1
  {
    match schema
    case Null => Success(obj)
    case Obj(fields) =>
      (match Lookup(fields, "type")
       case None => Failure(MalformedSchema("KeyError: 'type'"))
       case Some(t) =>
         if t == Str("object") then LoadObject(obj, schema, ext, lib, rd)
         else if t == Str("array") then LoadArray(obj, schema, ext, lib, rd)
         else if t == Str("string") then LoadString(obj, fields, ext, lib, rd)
         else if t == Str("number") || t == Str("integer") then
           (if NumberValue(obj).Some? then Success(obj) else Failure(NotA("number")))
         else if t == Str("boolean") then
           (if obj.Bool? then Success(obj) else Failure(NotA("boolean")))
         else if t == Str("null") then
           (if obj == Null then Success(obj) else Failure(NotA("null")))
         else Failure(UnsupportedType(t)))
    case _ => Failure(MalformedSchema("schema is not subscriptable"))
  }

  /**
   * `set(schema['required'])` as the names it can hold: the strings of a list
   * (a list or dict inside it is unhashable), the characters of a string, the keys
   * of a dict; anything else is not iterable.
   */
  function RequiredNames(schema: Fields): (r: Result<set<string>, Error>)
    ensures !HasKey(schema, "required") ==> r == Success({})
    ensures HasKey(schema, "required") && Lookup(schema, "required").value.Arr? && r.Success? ==>
      forall name | name in r.value :: Str(name) in Lookup(schema, "required").value.elems
    ensures HasKey(schema, "required") && Lookup(schema, "required").value.Arr? ==>
      var elems := Lookup(schema, "required").value.elems;
      && (r.Failure? <==> exists e | e in elems :: e.Arr? || e.Obj?)
      && (r.Success? ==> forall e | e in elems && e.Str? :: e.s in r.value)
  {
    match Lookup(schema, "required")
    case None => Success({})
    case Some(req) =>
      match req
      case Arr(elems) =>
        if exists e | e in elems :: e.Arr? || e.Obj? then Failure(MalformedSchema("unhashable type"))
        else Success(set e | e in elems && e.Str? :: e.s)
      case Str(s) => Success(set c | c in s :: [c])
      case Obj(fs) => Success(Keys(fs))
      case _ => Failure(MalformedSchema("object is not iterable"))
  }

  /**
   * `_object`: a non-dict is rejected; without `properties` the dict is returned
   * as it is; otherwise the properties are visited in schema order, leftovers are
   * refused when `additionalProperties` is present (whatever its value) and
   * appended after the visited properties otherwise.
   */
  function LoadObject(obj: Json, schema: Json, ext: Option<map<string, Decoder>>, lib: Library, rd: Reading): Result<Json, Error>
    requires schema.Obj?
    decreases schema, 0
  {
    if !obj.Obj? then Failure(NotA("dict"))
    else if !HasKey(schema.fields, "properties") then Success(obj)
    else
      var required :- RequiredNames(schema.fields);
      var props := Lookup(schema.fields, "properties").value;
      if !props.Obj? then Failure(MalformedSchema("object has no attribute 'items'"))
      else
        var visited :- ObjectProps(props, 0, obj.fields, required, ext, lib, rd);
        if HasKey(schema.fields, "additionalProperties") && |visited.1| > 0 then Failure(AdditionalProperties)
        else Success(Obj(visited.0 + visited.1))
  }

  /**
   * The `for prop, prop_schema in schema['properties'].items()` loop from the
   * `i`-th property on, with `rest` what is left of the instance dict: the new
   * entries and what is left at the end.
   */
  function ObjectProps(props: Json, i: nat, rest: Fields, required: set<string>,
                       ext: Option<map<string, Decoder>>, lib: Library, rd: Reading): Result<(Fields, Fields), Error>
    requires props.Obj? && i <= |props.fields|
    decreases props, 2, |props.fields| - i
  {
    if i == |props.fields| then Success(([], rest))
    else
      var prop := props.fields[i].0;
      if HasKey(rest, prop) then
        var v :- Load(Lookup(rest, prop).value, props.fields[i].1, ext, lib, rd);
        var after :- ObjectProps(props, i + 1, Remove(rest, prop), required, ext, lib, rd);
        Success(([(prop, v)] + after.0, after.1))
      else if prop in required then Failure(RequiredMissing(prop))
      else ObjectProps(props, i + 1, rest, required, ext, lib, rd)
  }

  /**
   * `_array`: `ret` starts empty and only the `items` branch fills it, so as
   * written a list without `items` comes back empty; corrected it comes back as it is.
   */
  function LoadArray(obj: Json, schema: Json, ext: Option<map<string, Decoder>>, lib: Library, rd: Reading): Result<Json, Error>
    requires schema.Obj?
    decreases schema, 0
  {
    if !obj.Arr? then Failure(NotA("array"))
    else if !HasKey(schema.fields, "items") then (if rd == Corrected then Success(obj) else Success(Arr([])))
    else
      var out :- Items(Lookup(schema.fields, "items").value, obj.elems, 0, ext, lib, rd);
      Success(Arr(out))
  }

  /** The `for item in obj` loop from the `i`-th element on. */
  function Items(items: Json, elems: seq<Json>, i: nat, ext: Option<map<string, Decoder>>, lib: Library, rd: Reading): Result<seq<Json>, Error>
    requires i <= |elems|
    decreases items, 2, |elems| - i
  {
    if i == |elems| then Success([])
    else
      var v :- Load(elems[i], items, ext, lib, rd);
      var tail :- Items(items, elems, i + 1, ext, lib, rd);
      Success([v] + tail)
  }
}
