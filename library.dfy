/**
 * The Python standard-library and third-party behaviour the validators call but
 * do not define: regular expressions, `float()`, and the parsers and printers
 * behind the built-in formats. Each is a field of `Library`, so that every
 * statement of the model holds for whatever these functions do.
 */
module Library {
  import opened Wrappers
  import opened JsonValue

  /** A string-to-object conversion; `Failure` carries the message of what it raised. */
  type Decoder = string -> Result<Json, string>

  /**
   * An object-to-text conversion; `Failure` carries the message of what it raised.
   * What it returns is a `Json`, since nothing stops an `encode` from returning
   * something other than a string.
   */
  type Encoder = Json -> Result<Json, string>

  datatype Library = Library(
    /** `re.fullmatch(pattern, s) is not None`; `Failure` when `pattern` does not compile. */
    fullMatch: (string, string) -> Result<bool, string>,
    /** `float(s)`; `None` when it raises ValueError. */
    toFloat: string -> Option<real>,
    /** `uuid.UUID(s)` and `str(u)` */
    uuidParse: Decoder,
    uuidStr: Encoder,
    /** `datetime.fromisoformat(s)` and `d.isoformat()` */
    datetimeFromIso: Decoder,
    datetimeIso: Encoder,
    /** `time.fromisoformat(s)` and `t.isoformat()` */
    timeFromIso: Decoder,
    timeIso: Encoder,
    /** `datetime.strptime(s, layout).date()` and `d.strftime(layout)` */
    strptimeDate: (string, string) -> Result<Json, string>,
    strftime: (Json, string) -> Result<string, string>,
    /** `ipaddress.IPv4Address(s)`, `ipaddress.IPv6Address(s)` and `str(a)` */
    ipv4Parse: Decoder,
    ipv4Str: Encoder,
    ipv6Parse: Decoder,
    ipv6Str: Encoder,
    /** `base64.b64decode(s)` */
    b64decode: Decoder,
    /** `FQDN(s).is_valid` */
    fqdnValid: string -> bool
  )
}
