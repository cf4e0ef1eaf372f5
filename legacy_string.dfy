/**
 * src/string.py: the earlier `validate_string`, with a built-in table of eight
 * formats (no `duration`, no `hostname`, and `bytes` where the later version
 * says `binary`).
 */
module LegacyString {
  import opened Wrappers
  import opened JsonValue
  import opened Library
  import StringChecks
  import PyjschemaString
  import opened Readings

  /** `DEFAULT_FORMATS` */
  function DefaultFormats(lib: Library): map<string, Decoder>
  {
    map[
      "uuid" := lib.uuidParse,
      "date-time" := lib.datetimeFromIso,
      "time" := lib.timeFromIso,
      "date" := (s: string) => lib.strptimeDate(s, "%Y-%m-%d"),
      "email" := PyjschemaString.EmailDecoder,
      "ipv4" := lib.ipv4Parse,
      "ipv6" := lib.ipv6Parse,
      "bytes" := lib.b64decode
    ]
  }

  /** `validate_string(obj, schema, extended_formats)` */
  function ValidateString(obj: Json, schema: Fields, ext: Option<map<string, Decoder>>, lib: Library): Result<Json, Error>
  {
    StringChecks.ValidateString(obj, schema, lib, f => StringChecks.ResolveFormat(f, DefaultFormats(lib), ext))
  }

  /** The table holds exactly these eight symbols. */
  lemma DefaultSymbols(lib: Library)
    ensures DefaultFormats(lib).Keys == {"uuid", "date-time", "time", "date", "email", "ipv4", "ipv6", "bytes"}
  {
  }

  /** Without extensions, a `duration` or `hostname` string that passes the checks is rejected as an unsupported format. */
  lemma DurationAndHostnameUnsupported(s: string, f: string, lib: Library)
    requires f == "duration" || f == "hostname"
    ensures ValidateString(Str(s), [("type", Str("string")), ("format", Str(f))], None, lib)
         == Failure(FormatFailed(Str(f), "format is not supported"))
  {
    var schema := [("type", Str("string")), ("format", Str(f))];
    assert Lookup(schema, "minLength") == None;
    assert Lookup(schema, "maxLength") == None;
    assert Lookup(schema, "pattern") == None;
    assert Lookup(schema, "format") == Some(Str(f));
  }

  /**
   * The two versions of `validate_string` differ only on the symbols one table has
   * and the other lacks: on every other schema they give the same result, for the
   * same extensions, under either reading of the later version.
   */
  lemma AgreesWithLaterVersion(obj: Json, schema: Fields, ext: Option<map<string, Decoder>>, lib: Library, rd: Reading)
    requires Lookup(schema, "format").Some? ==>
      Lookup(schema, "format").value !in {Str("duration"), Str("hostname"), Str("binary"), Str("bytes")}
    ensures ValidateString(obj, schema, ext, lib) == PyjschemaString.ValidateString(obj, schema, ext, lib, rd)
  {
    var l1 := f => StringChecks.ResolveFormat(f, DefaultFormats(lib), ext);
    var l2 := f => StringChecks.ResolveFormat(f, PyjschemaString.DefaultFormats(lib, rd), ext);
    if obj.Str? && Lookup(schema, "format").Some? {
      var f := Lookup(schema, "format").value;
      if f.Str? {
        assert f.s in DefaultFormats(lib) <==> f.s in PyjschemaString.DefaultFormats(lib, rd);
        if f.s in DefaultFormats(lib) {
          assert DefaultFormats(lib)[f.s](obj.s) == PyjschemaString.DefaultFormats(lib, rd)[f.s](obj.s);
        }
      }
    }
    StringChecks.SameDecodingSameResult(obj, schema, lib, l1, l2);
  }
}
