/**
 * src/pyjschema/string/formatter.py: a format descriptor is a symbol (the value
 * of `format` in a schema) with a decode/encode pair. The classes keep no state,
 * so each becomes a value of one datatype.
 */
module Formatter {
  import opened Wrappers
  import opened JsonValue
  import opened Library
  import StringChecks

  datatype Formatter = Formatter(symbol: Option<string>, decode: Decoder, encode: Encoder)

  const UuidSymbol := "uuid"
  const DatetimeSymbol := "date-time"
  const TimeSymbol := "time"
  const DateSymbol := "date"
  const EmailSymbol := "email"
  const Ipv4Symbol := "ipv4"
  const Ipv6Symbol := "ipv6"

  /** The layout `DateFormat` parses and prints with. */
  const DateLayout := "%Y-%m-%d"

  /** The base class: no symbol, and both conversions raise (`raise NotImplemented` is itself a TypeError). */
  function Base(): (f: Formatter)
    ensures f.symbol.None?
    ensures forall raw :: f.decode(raw).Failure?
    ensures forall data :: f.encode(data).Failure?
  {
    Formatter(None, _ => Failure("exceptions must derive from BaseException"),
                    _ => Failure("exceptions must derive from BaseException"))
  }

  function UuidFormat(lib: Library): Formatter
  {
    Formatter(Some(UuidSymbol), lib.uuidParse, lib.uuidStr)
  }

  function DatetimeFormat(lib: Library): Formatter
  {
    Formatter(Some(DatetimeSymbol), lib.datetimeFromIso, lib.datetimeIso)
  }

  function TimeFormat(lib: Library): Formatter
  {
    Formatter(Some(TimeSymbol), lib.timeFromIso, lib.timeIso)
  }

  function DateFormat(lib: Library): Formatter
  {
    Formatter(Some(DateSymbol), raw => lib.strptimeDate(raw, DateLayout),
              data => match lib.strftime(data, DateLayout)
                      case Success(text) => Success(Str(text))
                      case Failure(e) => Failure(e))
  }

  /**
   * `EmailFormatter._validate_email(s)`: `'@' not in s` is Python's containment test,
   * so a list or a dict passes when it holds `'@'`, and other values raise TypeError.
   */
  function ValidateEmail(data: Json): Result<Json, string>
  {
    match data
    case Str(s) => if StringChecks.Email(s).Success? then Success(data) else Failure("email not valid")
    case Arr(elems) => if Str("@") in elems then Success(data) else Failure("email not valid")
    case Obj(fields) => if HasKey(fields, "@") then Success(data) else Failure("email not valid")
    case _ => Failure("argument is not iterable")
  }

  /** `EmailFormatter`: `encode` and `decode` both return `_validate_email` of their argument. */
  function EmailFormat(): Formatter
  {
    Formatter(Some(EmailSymbol), raw => ValidateEmail(Str(raw)), ValidateEmail)
  }

  function Ipv4Format(lib: Library): Formatter
  {
    Formatter(Some(Ipv4Symbol), lib.ipv4Parse, lib.ipv4Str)
  }

  function Ipv6Format(lib: Library): Formatter
  {
    Formatter(Some(Ipv6Symbol), lib.ipv6Parse, lib.ipv6Str)
  }

  /** The seven concrete formatter classes the file defines. */
  function Builtins(lib: Library): seq<Formatter>
  {
    [UuidFormat(lib), DatetimeFormat(lib), TimeFormat(lib), DateFormat(lib),
     EmailFormat(), Ipv4Format(lib), Ipv6Format(lib)]
  }

  /**
   * The built-in symbols, in the file's order, are "uuid", "date-time", "time",
   * "date", "email", "ipv4" and "ipv6": present and pairwise distinct, so a
   * symbol-keyed registry of them has one entry per class.
   */
  lemma BuiltinSymbolsDistinct(lib: Library)
    ensures |Builtins(lib)| == 7
    ensures forall i | 0 <= i < 7 ::
      Builtins(lib)[i].symbol == Some(["uuid", "date-time", "time", "date", "email", "ipv4", "ipv6"][i])
    ensures forall i, j | 0 <= i < j < |Builtins(lib)| :: Builtins(lib)[i].symbol != Builtins(lib)[j].symbol
  {
    var fs := Builtins(lib);
    var names := [UuidSymbol, DatetimeSymbol, TimeSymbol, DateSymbol, EmailSymbol, Ipv4Symbol, Ipv6Symbol];
    assert forall i | 0 <= i < 7 :: fs[i].symbol == Some(names[i]);
  }

  /** `EmailFormatter.decode` returns its input unchanged exactly when it contains '@'. */
  lemma EmailDecode(raw: string)
    ensures EmailFormat().decode(raw).Success? <==> '@' in raw
    ensures EmailFormat().decode(raw).Success? ==> EmailFormat().decode(raw).value == Str(raw)
  {
  }

  /** Email decoding and encoding are inverse on every string that passes the check, in both directions. */
  lemma EmailRoundTrip(raw: string, data: Json)
    ensures EmailFormat().decode(raw).Success? ==> EmailFormat().encode(EmailFormat().decode(raw).value) == Success(Str(raw))
    ensures data.Str? && EmailFormat().encode(data).Success? ==> EmailFormat().decode(EmailFormat().encode(data).value.s) == Success(data)
    ensures EmailFormat().encode(Str(raw)).Success? <==> EmailFormat().decode(raw).Success?
  {
  }

  /**
   * `encode` only tests `'@' in data`: a list holding the string "@", or a dict with
   * the key "@", comes back unchanged, and a number or None raises.
   */
  lemma EmailEncodeContainers(data: Json)
    ensures data.Arr? ==> (EmailFormat().encode(data).Success? <==> Str("@") in data.elems)
    ensures data.Obj? ==> (EmailFormat().encode(data).Success? <==> HasKey(data.fields, "@"))
    ensures EmailFormat().encode(data).Success? ==> EmailFormat().encode(data).value == data
    ensures !data.Str? && !data.Arr? && !data.Obj? ==> EmailFormat().encode(data).Failure?
  {
  }

  /** `DateFormat` parses and prints with the same layout, so it round-trips exactly where the library's pair does on that layout. */
  lemma DateRoundTrip(lib: Library, raw: string, d: Json)
    ensures DateFormat(lib).decode(raw) == Success(d) && DateFormat(lib).encode(d) == Success(Str(raw))
        <==> lib.strptimeDate(raw, "%Y-%m-%d") == Success(d) && lib.strftime(d, "%Y-%m-%d") == Success(raw)
  {
  }
}
