/**
 * src/pyjschema/string.py: `validate_string` with a built-in table of ten
 * formats, extended by the caller's `extended_formats` for symbols the table
 * lacks. Under `AsWritten` the `duration` entry is `_duration` as the file has
 * it; under `Corrected` it is the scanner with `last` advanced.
 */
module PyjschemaString {
  import opened Wrappers
  import opened JsonValue
  import opened Library
  import StringChecks
  import IsoDuration
  import opened Readings

  /** `_hostname`: the string itself when it is a fully qualified domain name. */
  function Hostname(s: string, lib: Library): (r: Result<Json, string>)
    ensures r.Success? <==> lib.fqdnValid(s)
    ensures r.Success? ==> r.value == Str(s)
  {
    if !lib.fqdnValid(s) then Failure("not a valid hostname") else Success(Str(s))
  }

  /** `_email` as a decoder: the string itself when it holds an '@'. */
  function EmailDecoder(s: string): (r: Result<Json, string>)
    ensures r.Success? <==> '@' in s
    ensures r.Success? ==> r.value == Str(s)
  {
    match StringChecks.Email(s)
    case Success(v) => Success(Str(v))
    case Failure(e) => Failure(e)
  }

  /** `DEFAULT_FORMATS` */
  function DefaultFormats(lib: Library, rd: Reading): map<string, Decoder>
  {
    map[
      "uuid" := lib.uuidParse,
      "date-time" := lib.datetimeFromIso,
      "time" := lib.timeFromIso,
      "date" := (s: string) => lib.strptimeDate(s, "%Y-%m-%d"),
      "duration" := (s: string) => if rd == Corrected then IsoDuration.Duration(s, lib) else IsoDuration.DurationAsWritten(s, lib),
      "email" := EmailDecoder,
      "ipv4" := lib.ipv4Parse,
      "ipv6" := lib.ipv6Parse,
      "hostname" := (s: string) => Hostname(s, lib),
      "binary" := lib.b64decode
    ]
  }

  /** `validate_string(obj, schema, extended_formats)` */
  function ValidateString(obj: Json, schema: Fields, ext: Option<map<string, Decoder>>, lib: Library, rd: Reading): Result<Json, Error>
  {
    StringChecks.ValidateString(obj, schema, lib, f => StringChecks.ResolveFormat(f, DefaultFormats(lib, rd), ext))
  }

  /** The table holds exactly these ten symbols, whatever the library does. */
  lemma DefaultSymbols(lib: Library, rd: Reading)
    ensures DefaultFormats(lib, rd).Keys ==
      {"uuid", "date-time", "time", "date", "duration", "email", "ipv4", "ipv6", "hostname", "binary"}
  {
  }

  /** A built-in symbol cannot be overridden: whatever `extended_formats` holds, the result is the one without it. */
  lemma DefaultsWin(obj: Json, schema: Fields, ext: Option<map<string, Decoder>>, lib: Library, rd: Reading)
    requires Lookup(schema, "format").Some? && Lookup(schema, "format").value.Str?
    requires Lookup(schema, "format").value.s in DefaultFormats(lib, rd)
    ensures ValidateString(obj, schema, ext, lib, rd) == ValidateString(obj, schema, None, lib, rd)
  {
  }

  /**
   * A symbol outside the table is decoded by the caller's entry when there is one,
   * and fails as unsupported when there is none.
   */
  lemma ExtensionsFillGaps(s: string, schema: Fields, ext: Option<map<string, Decoder>>, lib: Library, rd: Reading)
    requires StringChecks.CheckLength(s, schema).Success? && StringChecks.CheckPattern(s, schema, lib).Success?
    requires Lookup(schema, "format").Some? && Lookup(schema, "format").value.Str?
    requires Lookup(schema, "format").value.s !in DefaultFormats(lib, rd)
    ensures ext.None? || Lookup(schema, "format").value.s !in ext.value ==>
      ValidateString(Str(s), schema, ext, lib, rd) == Failure(FormatFailed(Lookup(schema, "format").value, "format is not supported"))
    ensures ext.Some? && Lookup(schema, "format").value.s in ext.value ==>
      var decoded := ext.value[Lookup(schema, "format").value.s](s);
      && (decoded.Success? ==> ValidateString(Str(s), schema, ext, lib, rd) == Success(decoded.value))
      && (decoded.Failure? ==> ValidateString(Str(s), schema, ext, lib, rd) == Failure(FormatFailed(Lookup(schema, "format").value, decoded.error)))
  {
    var lookup := f => StringChecks.ResolveFormat(f, DefaultFormats(lib, rd), ext);
    StringChecks.StringFormatOutcome(s, schema, lib, lookup);
  }

  /**
   * `{"type": "string", "minLength": 3, "maxLength": 5}` accepts "test" unchanged and
   * rejects "t2" as too short and "t2sdfas" as too long; both bounds are inclusive,
   * so "abc" and "abcde" pass.
   */
  lemma LengthExamples(lib: Library, rd: Reading)
    ensures ValidateString(Str("test"), [("type", Str("string")), ("minLength", Num(3.0)), ("maxLength", Num(5.0))], None, lib, rd) == Success(Str("test"))
    ensures ValidateString(Str("t2"), [("type", Str("string")), ("minLength", Num(3.0)), ("maxLength", Num(5.0))], None, lib, rd) == Failure(TooShort)
    ensures ValidateString(Str("t2sdfas"), [("type", Str("string")), ("minLength", Num(3.0)), ("maxLength", Num(5.0))], None, lib, rd) == Failure(TooLong)
    ensures ValidateString(Str("abc"), [("type", Str("string")), ("minLength", Num(3.0)), ("maxLength", Num(5.0))], None, lib, rd) == Success(Str("abc"))
    ensures ValidateString(Str("abcde"), [("type", Str("string")), ("minLength", Num(3.0)), ("maxLength", Num(5.0))], None, lib, rd) == Success(Str("abcde"))
  {
    var schema := [("type", Str("string")), ("minLength", Num(3.0)), ("maxLength", Num(5.0))];
    assert Lookup(schema, "minLength") == Some(Num(3.0));
    assert Lookup(schema, "maxLength") == Some(Num(5.0));
    assert Lookup(schema, "pattern") == None;
    assert Lookup(schema, "format") == None;
  }

  /** An email-formatted string is accepted unchanged exactly when it holds an '@'. */
  lemma EmailFormatExample(s: string, lib: Library, rd: Reading)
    ensures ValidateString(Str(s), [("type", Str("string")), ("format", Str("email"))], None, lib, rd).Success? <==> '@' in s
    ensures '@' in s ==> ValidateString(Str(s), [("type", Str("string")), ("format", Str("email"))], None, lib, rd) == Success(Str(s))
  {
    var schema := [("type", Str("string")), ("format", Str("email"))];
    assert Lookup(schema, "minLength") == None;
    assert Lookup(schema, "maxLength") == None;
    assert Lookup(schema, "pattern") == None;
    assert Lookup(schema, "format") == Some(Str("email"));
  }

  /** Format `duration` returns what the reading's `_duration` returns, and wraps its failure. */
  lemma DurationFormat(s: string, lib: Library, rd: Reading)
    ensures var d := if rd == Corrected then IsoDuration.Duration(s, lib) else IsoDuration.DurationAsWritten(s, lib);
      && (d.Success? ==> ValidateString(Str(s), [("type", Str("string")), ("format", Str("duration"))], None, lib, rd) == Success(d.value))
      && (d.Failure? ==> ValidateString(Str(s), [("type", Str("string")), ("format", Str("duration"))], None, lib, rd) == Failure(FormatFailed(Str("duration"), d.error)))
  {
    var schema := [("type", Str("string")), ("format", Str("duration"))];
    assert Lookup(schema, "minLength") == None;
    assert Lookup(schema, "maxLength") == None;
    assert Lookup(schema, "pattern") == None;
    assert Lookup(schema, "format") == Some(Str("duration"));
  }

  /**
   * `validate_string("P1W2D", {"format": "duration"})`: as written `float("1W2")`
   * raises and the value is refused; corrected it is nine days.
   */
  lemma DurationFormatExample(lib: Library)
    requires lib.toFloat("1") == Some(1.0) && lib.toFloat("2") == Some(2.0)
    requires lib.toFloat("1W2") == None
    ensures ValidateString(Str("P1W2D"), [("type", Str("string")), ("format", Str("duration"))], None, lib, AsWritten).Failure?
    ensures ValidateString(Str("P1W2D"), [("type", Str("string")), ("format", Str("duration"))], None, lib, Corrected) == Success(Span(9.0 * 86400.0))
  {
    IsoDuration.OneWeekTwoDays(lib);
    DurationFormat("P1W2D", lib, AsWritten);
    DurationFormat("P1W2D", lib, Corrected);
  }

  /** With a regex engine that matches `[a-z]*` against all of "test" but not all of "test1", the pattern accepts the first and rejects the second. */
  lemma PatternExample(lib: Library, rd: Reading)
    requires lib.fullMatch("[a-z]*", "test") == Success(true)
    requires lib.fullMatch("[a-z]*", "test1") == Success(false)
    ensures ValidateString(Str("test"), [("type", Str("string")), ("pattern", Str("[a-z]*"))], None, lib, rd) == Success(Str("test"))
    ensures ValidateString(Str("test1"), [("type", Str("string")), ("pattern", Str("[a-z]*"))], None, lib, rd) == Failure(PatternMismatch)
  {
    var schema := [("type", Str("string")), ("pattern", Str("[a-z]*"))];
    assert Lookup(schema, "minLength") == None;
    assert Lookup(schema, "maxLength") == None;
    assert Lookup(schema, "pattern") == Some(Str("[a-z]*"));
    assert Lookup(schema, "format") == None;
  }
}
