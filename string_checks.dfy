/**
 * What src/string.py, src/pyjschema/string.py and src/pyjschema/string/__init__.py
 * share: the helpers `_length`, `_pattern` and `_email`, which each file defines
 * with the same code (the email check is also `EmailFormatter._validate_email`),
 * and the body of `validate_string`, which differs between them only in how a
 * format symbol is looked up.
 */
module StringChecks {
  import opened Wrappers
  import opened JsonValue
  import opened Library

  /** `_length`: `minLength` is checked before `maxLength`; both bounds are inclusive. */
  function CheckLength(s: string, schema: Fields): (r: Result<(), Error>)
    ensures r.Success? ==>
      && (BoundOf(schema, "minLength").Success? && BoundOf(schema, "maxLength").Success?)
      && (forall lo | BoundOf(schema, "minLength") == Success(Some(lo)) :: lo <= |s| as real)
      && (forall hi | BoundOf(schema, "maxLength") == Success(Some(hi)) :: |s| as real <= hi)
    ensures
      && BoundOf(schema, "minLength").Success? && BoundOf(schema, "maxLength").Success?
      && (forall lo | BoundOf(schema, "minLength") == Success(Some(lo)) :: lo <= |s| as real)
      && (forall hi | BoundOf(schema, "maxLength") == Success(Some(hi)) :: |s| as real <= hi)
      ==> r.Success?
    ensures r == Failure(TooShort) <==> exists lo :: BoundOf(schema, "minLength") == Success(Some(lo)) && |s| as real < lo
    ensures r == Failure(TooLong) <==>
      && BoundOf(schema, "minLength").Success?
      && (forall lo | BoundOf(schema, "minLength") == Success(Some(lo)) :: lo <= |s| as real)
      && exists hi :: BoundOf(schema, "maxLength") == Success(Some(hi)) && |s| as real > hi
  {
    var lo :- BoundOf(schema, "minLength");
    if lo.Some? && (|s| as real) < lo.value then Failure(TooShort)
    else
      var hi :- BoundOf(schema, "maxLength");
      if hi.Some? && (|s| as real) > hi.value then Failure(TooLong)
      else Success(())
  }

  /** `_pattern`: the WHOLE string must match (`re.fullmatch`), not just a substring. */
  function CheckPattern(s: string, schema: Fields, lib: Library): (r: Result<(), Error>)
    ensures r.Success? <==>
      !HasKey(schema, "pattern") ||
      (Lookup(schema, "pattern").value.Str? && lib.fullMatch(Lookup(schema, "pattern").value.s, s) == Success(true))
    ensures r == Failure(PatternMismatch) <==>
      HasKey(schema, "pattern") && Lookup(schema, "pattern").value.Str? &&
      lib.fullMatch(Lookup(schema, "pattern").value.s, s) == Success(false)
  {
    match Lookup(schema, "pattern")
    case None => Success(())
    case Some(p) =>
      if !p.Str? then Failure(MalformedSchema("first argument must be string or compiled pattern"))
      else
        match lib.fullMatch(p.s, s)
        case Failure(e) => Failure(MalformedSchema(e))
        case Success(matched) => if matched then Success(()) else Failure(PatternMismatch)
  }

  /** `_email`: the only format check the repository spells out itself. */
  function Email(s: string): (r: Result<string, string>)
    ensures r.Success? <==> '@' in s
    ensures r.Success? ==> r.value == s
  {
    if '@' !in s then Failure("email not valid") else Success(s)
  }

  /**
   * The lookup of src/load.py, src/string.py and src/pyjschema/string.py: the
   * built-in table is consulted first, the caller's `extended_formats` only for
   * symbols it lacks. A symbol that is not a string is in neither table.
   */
  function ResolveFormat(f: Json, defaults: map<string, Decoder>, ext: Option<map<string, Decoder>>): (r: Option<Decoder>)
    ensures f.Str? && f.s in defaults ==> r == Some(defaults[f.s])
    ensures f.Str? && f.s !in defaults && ext.Some? && f.s in ext.value ==> r == Some(ext.value[f.s])
    ensures r.None? <==> !f.Str? || (f.s !in defaults && (ext.None? || f.s !in ext.value))
  {
    if !f.Str? then None
    else if f.s in defaults then Some(defaults[f.s])
    else if ext.Some? && f.s in ext.value then Some(ext.value[f.s])
    else None
  }

  /** The `try` block: an unknown symbol and every decoder failure become one error naming the format. */
  function FormatBlock(f: Json, s: string, decoder: Option<Decoder>): (r: Result<Json, Error>)
    ensures r.Success? <==> decoder.Some? && decoder.value(s).Success?
    ensures r.Success? ==> r.value == decoder.value(s).value
    ensures r.Failure? ==> r.error.FormatFailed? && r.error.format == f
  {
    match decoder
    case None => Failure(FormatFailed(f, "format is not supported"))
    case Some(decode) =>
      match decode(s)
      case Success(v) => Success(v)
      case Failure(cause) => Failure(FormatFailed(f, cause))
  }

  /**
   * `validate_string`: the type first, then `_length`, then `_pattern`, then the
   * format (absent or `null`: the string is returned unchanged), with `lookup`
   * standing for the version's format table.
   */
  function ValidateString(obj: Json, schema: Fields, lib: Library, lookup: Json -> Option<Decoder>): Result<Json, Error>
  {
    if !obj.Str? then Failure(NotA("string"))
    else
      var _ :- CheckLength(obj.s, schema);
      var _ :- CheckPattern(obj.s, schema, lib);
      match Lookup(schema, "format")
      case None => Success(obj)
      case Some(f) => if f == Null then Success(obj) else FormatBlock(f, obj.s, lookup(f))
  }

  /** A string is accepted only when it is a string, its length is within both inclusive bounds and the whole of it matches the pattern. */
  lemma StringAcceptedMeansChecked(obj: Json, schema: Fields, lib: Library, lookup: Json -> Option<Decoder>)
    requires ValidateString(obj, schema, lib, lookup).Success?
    ensures obj.Str?
    ensures forall lo | BoundOf(schema, "minLength") == Success(Some(lo)) :: lo <= |obj.s| as real
    ensures forall hi | BoundOf(schema, "maxLength") == Success(Some(hi)) :: |obj.s| as real <= hi
    ensures HasKey(schema, "pattern") ==> lib.fullMatch(Lookup(schema, "pattern").value.s, obj.s) == Success(true)
  {
  }

  /** Fail-fast order: a non-string, then a length violation, then a pattern violation is reported before anything later is looked at. */
  lemma StringCheckOrder(obj: Json, schema: Fields, lib: Library, lookup: Json -> Option<Decoder>)
    ensures !obj.Str? ==> ValidateString(obj, schema, lib, lookup) == Failure(NotA("string"))
    ensures obj.Str? && CheckLength(obj.s, schema).Failure? ==>
      ValidateString(obj, schema, lib, lookup) == Failure(CheckLength(obj.s, schema).error)
    ensures obj.Str? && CheckLength(obj.s, schema).Success? && CheckPattern(obj.s, schema, lib).Failure? ==>
      ValidateString(obj, schema, lib, lookup) == Failure(CheckPattern(obj.s, schema, lib).error)
  {
  }

  /**
   * Once the checks pass: no format returns the string unchanged; a format the
   * lookup lacks, or one whose decoder fails, is a single `FormatFailed` naming
   * the format; otherwise the result is exactly what the decoder returned.
   */
  lemma StringFormatOutcome(s: string, schema: Fields, lib: Library, lookup: Json -> Option<Decoder>)
    requires CheckLength(s, schema).Success? && CheckPattern(s, schema, lib).Success?
    ensures (!HasKey(schema, "format") || Lookup(schema, "format").value == Null) ==>
      ValidateString(Str(s), schema, lib, lookup) == Success(Str(s))
    ensures HasKey(schema, "format") && Lookup(schema, "format").value != Null && lookup(Lookup(schema, "format").value).None? ==>
      ValidateString(Str(s), schema, lib, lookup) == Failure(FormatFailed(Lookup(schema, "format").value, "format is not supported"))
    ensures HasKey(schema, "format") && Lookup(schema, "format").value != Null && lookup(Lookup(schema, "format").value).Some? ==>
      var f := Lookup(schema, "format").value;
      var decoded := lookup(f).value(s);
      && (decoded.Success? ==> ValidateString(Str(s), schema, lib, lookup) == Success(decoded.value))
      && (decoded.Failure? ==> ValidateString(Str(s), schema, lib, lookup) == Failure(FormatFailed(f, decoded.error)))
  {
  }

  /** Two format tables that decode the schema's format the same way on this string give the same result. */
  lemma SameDecodingSameResult(obj: Json, schema: Fields, lib: Library, l1: Json -> Option<Decoder>, l2: Json -> Option<Decoder>)
    requires obj.Str? && Lookup(schema, "format").Some? ==>
      var f := Lookup(schema, "format").value;
      && (l1(f).None? <==> l2(f).None?)
      && (l1(f).Some? ==> l1(f).value(obj.s) == l2(f).value(obj.s))
    ensures ValidateString(obj, schema, lib, l1) == ValidateString(obj, schema, lib, l2)
  {
  }
}
