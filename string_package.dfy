/**
 * src/pyjschema/string/__init__.py: `validate_string` with the format table
 * supplied by the caller as a dict from symbol to `Formatter`, decoding with the
 * formatter's `decode`.
 */
module StringPackage {
  import opened Wrappers
  import opened JsonValue
  import opened Library
  import StringChecks
  import F = Formatter
  import PyjschemaString
  import opened Readings

  /** `formats.get(f).decode` when `f in formats` */
  function FormatterLookup(formats: map<string, F.Formatter>, f: Json): (r: Option<Decoder>)
    ensures r.Some? <==> f.Str? && f.s in formats
    ensures r.Some? ==> r.value == formats[f.s].decode
  {
    if f.Str? && f.s in formats then Some(formats[f.s].decode) else None
  }

  /** `validate_string(obj, schema, formats)` */
  function ValidateString(obj: Json, schema: Fields, formats: map<string, F.Formatter>, lib: Library): Result<Json, Error>
  {
    StringChecks.ValidateString(obj, schema, lib, f => FormatterLookup(formats, f))
  }

  /** A `formats` dict holding the seven built-in formatter classes under their symbols. */
  function BuiltinRegistry(lib: Library): (formats: map<string, F.Formatter>)
    ensures forall k | k in formats :: formats[k].symbol == Some(k)
  {
    map[
      F.UuidSymbol := F.UuidFormat(lib),
      F.DatetimeSymbol := F.DatetimeFormat(lib),
      F.TimeSymbol := F.TimeFormat(lib),
      F.DateSymbol := F.DateFormat(lib),
      F.EmailSymbol := F.EmailFormat(),
      F.Ipv4Symbol := F.Ipv4Format(lib),
      F.Ipv6Symbol := F.Ipv6Format(lib)
    ]
  }

  /** The registry is keyed by exactly the symbols of `Formatter.Builtins`. */
  lemma RegistryHoldsBuiltins(lib: Library)
    ensures BuiltinRegistry(lib).Keys == set i | 0 <= i < |F.Builtins(lib)| :: F.Builtins(lib)[i].symbol.value
    ensures forall i | 0 <= i < |F.Builtins(lib)| :: BuiltinRegistry(lib)[F.Builtins(lib)[i].symbol.value] == F.Builtins(lib)[i]
  {
    var fs := F.Builtins(lib);
    assert fs[0].symbol.value == F.UuidSymbol;
    assert fs[1].symbol.value == F.DatetimeSymbol;
    assert fs[2].symbol.value == F.TimeSymbol;
    assert fs[3].symbol.value == F.DateSymbol;
    assert fs[4].symbol.value == F.EmailSymbol;
    assert fs[5].symbol.value == F.Ipv4Symbol;
    assert fs[6].symbol.value == F.Ipv6Symbol;
  }

  /**
   * With the built-in formatters registered, the formatter-based version decodes
   * every one of their symbols exactly as the table-based `PyjschemaString` does,
   * under either reading of its table (the registry has no `duration`).
   */
  lemma AgreesWithTableVersion(obj: Json, schema: Fields, lib: Library, rd: Reading)
    requires Lookup(schema, "format").Some? && Lookup(schema, "format").value.Str?
    requires Lookup(schema, "format").value.s in BuiltinRegistry(lib)
    ensures ValidateString(obj, schema, BuiltinRegistry(lib), lib) == PyjschemaString.ValidateString(obj, schema, None, lib, rd)
  {
    var l1 := f => FormatterLookup(BuiltinRegistry(lib), f);
    var l2 := f => StringChecks.ResolveFormat(f, PyjschemaString.DefaultFormats(lib, rd), None);
    var k := Lookup(schema, "format").value.s;
    if obj.Str? {
      DecodesAsTable(k, obj.s, lib, rd);
    }
    StringChecks.SameDecodingSameResult(obj, schema, lib, l1, l2);
  }

  /** Each registered formatter decodes like the table entry of the same symbol. */
  lemma DecodesAsTable(k: string, s: string, lib: Library, rd: Reading)
    requires k in BuiltinRegistry(lib)
    ensures k in PyjschemaString.DefaultFormats(lib, rd)
    ensures BuiltinRegistry(lib)[k].decode(s) == PyjschemaString.DefaultFormats(lib, rd)[k](s)
  {
    assert k in {F.UuidSymbol, F.DatetimeSymbol, F.TimeSymbol, F.DateSymbol, F.EmailSymbol, F.Ipv4Symbol, F.Ipv6Symbol};
    if k == F.DateSymbol {
      DateDecodesAsTable(s, lib, rd);
    } else if k == F.EmailSymbol {
      EmailDecodesAsTable(s, lib, rd);
    } else {
      LibraryDecodesAsTable(k, s, lib, rd);
    }
  }

  lemma LibraryDecodesAsTable(k: string, s: string, lib: Library, rd: Reading)
    requires k in {F.UuidSymbol, F.DatetimeSymbol, F.TimeSymbol, F.Ipv4Symbol, F.Ipv6Symbol}
    ensures k in BuiltinRegistry(lib) && k in PyjschemaString.DefaultFormats(lib, rd)
    ensures BuiltinRegistry(lib)[k].decode == PyjschemaString.DefaultFormats(lib, rd)[k]
  {
    var reg, table := BuiltinRegistry(lib), PyjschemaString.DefaultFormats(lib, rd);
    if k == F.UuidSymbol {
      assert reg[k] == F.UuidFormat(lib) && table[k] == lib.uuidParse;
    } else if k == F.DatetimeSymbol {
      assert reg[k] == F.DatetimeFormat(lib) && table[k] == lib.datetimeFromIso;
    } else if k == F.TimeSymbol {
      assert reg[k] == F.TimeFormat(lib) && table[k] == lib.timeFromIso;
    } else if k == F.Ipv4Symbol {
      assert reg[k] == F.Ipv4Format(lib) && table[k] == lib.ipv4Parse;
    } else {
      assert reg[k] == F.Ipv6Format(lib) && table[k] == lib.ipv6Parse;
    }
  }

  lemma DateDecodesAsTable(s: string, lib: Library, rd: Reading)
    ensures F.DateSymbol in BuiltinRegistry(lib) && F.DateSymbol in PyjschemaString.DefaultFormats(lib, rd)
    ensures BuiltinRegistry(lib)[F.DateSymbol].decode(s) == PyjschemaString.DefaultFormats(lib, rd)[F.DateSymbol](s)
  {
    assert BuiltinRegistry(lib)[F.DateSymbol] == F.DateFormat(lib);
    assert BuiltinRegistry(lib)[F.DateSymbol].decode(s) == lib.strptimeDate(s, "%Y-%m-%d");
  }

  lemma EmailDecodesAsTable(s: string, lib: Library, rd: Reading)
    ensures F.EmailSymbol in BuiltinRegistry(lib) && F.EmailSymbol in PyjschemaString.DefaultFormats(lib, rd)
    ensures BuiltinRegistry(lib)[F.EmailSymbol].decode(s) == PyjschemaString.DefaultFormats(lib, rd)[F.EmailSymbol](s)
  {
    assert BuiltinRegistry(lib)[F.EmailSymbol] == F.EmailFormat();
    assert PyjschemaString.DefaultFormats(lib, rd)[F.EmailSymbol] == PyjschemaString.EmailDecoder;
    assert F.EmailFormat().decode(s) == F.ValidateEmail(Str(s));
  }

  /**
   * For any `formats` dict: a registered symbol's string, once length and pattern
   * pass, comes back as `formats[f].decode(s)`, and that decoder's failure is
   * wrapped in one error naming the format.
   */
  lemma RegisteredDecodes(s: string, schema: Fields, formats: map<string, F.Formatter>, lib: Library)
    requires StringChecks.CheckLength(s, schema).Success? && StringChecks.CheckPattern(s, schema, lib).Success?
    requires Lookup(schema, "format").Some? && Lookup(schema, "format").value.Str?
    requires Lookup(schema, "format").value.s in formats
    ensures var decoded := formats[Lookup(schema, "format").value.s].decode(s);
      && (decoded.Success? ==> ValidateString(Str(s), schema, formats, lib) == Success(decoded.value))
      && (decoded.Failure? ==> ValidateString(Str(s), schema, formats, lib) == Failure(FormatFailed(Lookup(schema, "format").value, decoded.error)))
  {
    StringChecks.StringFormatOutcome(s, schema, lib, f => FormatterLookup(formats, f));
  }

  /** A symbol with no registered formatter is unsupported, even a built-in one. */
  lemma UnregisteredUnsupported(s: string, schema: Fields, formats: map<string, F.Formatter>, lib: Library)
    requires StringChecks.CheckLength(s, schema).Success? && StringChecks.CheckPattern(s, schema, lib).Success?
    requires Lookup(schema, "format").Some? && Lookup(schema, "format").value.Str?
    requires Lookup(schema, "format").value.s !in formats
    ensures ValidateString(Str(s), schema, formats, lib) == Failure(FormatFailed(Lookup(schema, "format").value, "format is not supported"))
  {
    StringChecks.StringFormatOutcome(s, schema, lib, f => FormatterLookup(formats, f));
  }
}
