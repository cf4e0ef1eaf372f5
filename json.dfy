/**
 * The value trees the validator works on. Instances (what `json.loads` produces),
 * schemas (the same kind of tree) and outputs (the same tree with some string
 * leaves replaced by decoded values) are all `Json`.
 */
module JsonValue {
  import opened Wrappers

  /** A Python dict, as the list of its entries in insertion order. */
  type Fields = seq<(string, Json)>

  datatype Json =
    | Null                                // None
    | Bool(b: bool)
    | Num(n: real)                        // int and float alike
    | Str(s: string)
    | Arr(elems: seq<Json>)               // list
    | Obj(fields: Fields)                 // dict
    | Native(kind: string, text: string)  // a library object built by a format decoder (UUID, datetime, address, bytes)
    | Span(seconds: real)                 // a datetime.timedelta, by its length in seconds

  /** What a validator raises. */
  datatype Error =
    | NotA(expected: string)             // 'value is not a ...'
    | MalformedSchema(reason: string)    // a KeyError, TypeError, AttributeError, ZeroDivisionError or re.error caused by the schema
    | UnsupportedType(declared: Json)    // 'type ... is not supported'
    | RequiredMissing(field: string)
    | AdditionalProperties
    | BelowMinimum
    | NotAboveExclusiveMinimum
    | AboveMaximum
    | NotBelowExclusiveMaximum
    | NotMultiple
    | TooShort
    | TooLong
    | PatternMismatch
    | FormatFailed(format: Json, cause: string)  // every failure inside a format block, wrapped once

  /** The value Python's comparisons and division see: `bool` is a subclass of `int`. */
  function NumberValue(j: Json): (r: Option<real>)
    ensures r.Some? <==> j.Num? || j.Bool?
  {
    match j
    case Num(n) => Some(n)
    case Bool(b) => Some(if b then 1.0 else 0.0)
    case _ => None
  }

  /** `schema[key]` as a number to compare or divide with: absent, numeric, or a TypeError when used. */
  function BoundOf(schema: Fields, key: string): (r: Result<Option<real>, Error>)
    ensures r.Success? && r.value.Some? ==> HasKey(schema, key) && NumberValue(Lookup(schema, key).value) == r.value
    ensures r.Success? && r.value.None? <==> !HasKey(schema, key)
    ensures HasKey(schema, key) && NumberValue(Lookup(schema, key).value).Some? ==>
      r == Success(NumberValue(Lookup(schema, key).value))
    ensures r.Failure? <==> HasKey(schema, key) && NumberValue(Lookup(schema, key).value).None?
  {
    match Lookup(schema, key)
    case None => Success(None)
    case Some(b) =>
      if NumberValue(b).Some? then Success(NumberValue(b))
      else Failure(MalformedSchema("'<' not supported between 'int' and " + key))
  }

  /** The key set of a dict. */
  function Keys(fields: Fields): set<string>
  {
    set i | 0 <= i < |fields| :: fields[i].0
  }

  /** `d.get(k)`: the value of the first entry with key `k`. */
  function Lookup(fields: Fields, k: string): (r: Option<Json>)
    ensures r.Some? <==> k in Keys(fields)
    ensures r.Some? ==> (k, r.value) in fields
  {
    if fields == [] then None
    else if fields[0].0 == k then Some(fields[0].1)
    else
      KeysCons(fields);
      Lookup(fields[1..], k)
  }

  /** `k in d` */
  predicate HasKey(fields: Fields, k: string)
  {
    k in Keys(fields)
  }

  /** `d.pop(k)` without its value: every entry with key `k` is dropped, the rest keep their order. */
  function Remove(fields: Fields, k: string): (r: Fields)
    ensures Keys(r) == Keys(fields) - {k}
    ensures forall k' | k' != k :: Lookup(r, k') == Lookup(fields, k')
    ensures |r| <= |fields|
  {
    if fields == [] then []
    else
      var tail := Remove(fields[1..], k);
      KeysCons(fields);
      if fields[0].0 == k then tail
      else
        KeysCons([fields[0]] + tail);
        assert ([fields[0]] + tail)[1..] == tail;
        [fields[0]] + tail
  }

  lemma KeysCons(fields: Fields)
    requires fields != []
    ensures Keys(fields) == {fields[0].0} + Keys(fields[1..])
  {
    forall x | x in Keys(fields) ensures x in {fields[0].0} + Keys(fields[1..]) {
      var i :| 0 <= i < |fields| && fields[i].0 == x;
      if i > 0 { assert fields[1..][i - 1].0 == x; }
    }
    forall x | x in Keys(fields[1..]) ensures x in Keys(fields) {
      var i :| 0 <= i < |fields[1..]| && fields[1..][i].0 == x;
      assert fields[i + 1].0 == x;
    }
  }

  lemma KeysAppend(a: Fields, b: Fields)
    ensures Keys(a + b) == Keys(a) + Keys(b)
  {
    forall x | x in Keys(a + b) ensures x in Keys(a) + Keys(b) {
      var i :| 0 <= i < |a + b| && (a + b)[i].0 == x;
      if i >= |a| { assert b[i - |a|].0 == x; }
    }
    forall x | x in Keys(a) + Keys(b) ensures x in Keys(a + b) {
      if x in Keys(a) {
        var i :| 0 <= i < |a| && a[i].0 == x;
        assert (a + b)[i].0 == x;
      } else {
        var i :| 0 <= i < |b| && b[i].0 == x;
        assert (a + b)[|a| + i].0 == x;
      }
    }
  }

  /** Looking a key up in `a + b` (what `ret.update(obj)` builds) finds `a`'s entry first. */
  lemma {:induction false} LookupAppend(a: Fields, b: Fields, k: string)
    ensures Lookup(a + b, k) == if k in Keys(a) then Lookup(a, k) else Lookup(b, k)
  {
    if a == [] {
      assert a + b == b;
    } else {
      assert (a + b)[1..] == a[1..] + b;
      KeysCons(a);
      if a[0].0 != k {
        LookupAppend(a[1..], b, k);
      }
    }
  }
}
