# pyjschema: a verified model of the schema-driven loader

pyjschema validates a JSON value tree against a JSON Schema and, in the same pass,
decodes string leaves into Python objects according to their `format`. This
project models, in Dafny, the parts of the repository that do that work:

- `loado` in `src/load.py` dispatches on `schema['type']`. Its walkers handle the
  rest: `_object` pops each listed property out of the instance dict, rebuilds it
  under its sub-schema, then copies or refuses the leftovers. `_array` maps
  `items` over a list. `_string` decodes through a format table.
- `validate_number` in `src/number.py` checks the inclusive and exclusive bounds
  and `multipleOf`.
- There are three versions of `validate_string`, which check the type, then
  length, then full-match pattern, then format:
  - `src/pyjschema/string.py` has a ten-entry table and the ISO 8601 duration
    scanner.
  - `src/string.py` is the older eight-entry snapshot.
  - `src/pyjschema/string/__init__.py` takes a `formats` dict of `Formatter`
    objects.
- The `Formatter` descriptors in `src/pyjschema/string/formatter.py`.

Files:

| file | module | what it holds |
|---|---|---|
| wrappers.dfy | `Wrappers` | `Option`, `Result` |
| readings.dfy | `Readings` | `Reading`: the code as written, or with its slips corrected |
| json.dfy | `JsonValue` | the value tree, the errors, dict lookup/pop/update |
| library.dfy | `Library` | the library calls the validators make, as parameters |
| string_checks.dfy | `StringChecks` | `_length`, `_pattern`, `_email`, the format lookup and the shared `validate_string` body |
| duration.dfy | `IsoDuration` | `_duration`, `_build_duration` (as written and corrected) |
| pyjschema_string.dfy | `PyjschemaString` | `src/pyjschema/string.py` |
| legacy_string.dfy | `LegacyString` | `src/string.py` |
| string_package.dfy | `StringPackage` | `src/pyjschema/string/__init__.py` |
| formatter.dfy | `Formatter` | `src/pyjschema/string/formatter.py` |
| number.dfy | `Number` | `src/number.py` |
| load.dfy | `Loader` | `loado`, `_object`, `_array`, `_string` as functions |
| load_impl.dfy | `LoadImpl` | the loops of `_object` and `_array` as methods, proved equal to `Loader` |
| load_lemmas.dfy | `LoadLemmas` | what `src/load.py` promises, proved |

Modelling choices:

- Python values are one datatype, `Json`. Instances, schemas and outputs are all
  `Json`. A dict is its list of entries in insertion order, and lookup finds the
  first entry with the key. Values built by format decoders are `Native` leaves.
  A `datetime.timedelta` is a `Span`, its length in seconds.
- An exception is a `Failure`. The `Error` kinds follow the source's messages.
  `MalformedSchema` stands for a KeyError, TypeError, AttributeError or
  ZeroDivisionError that a bad schema causes; the source lets these escape.
- Python's `bool` is a subclass of `int`. So `number`/`integer` schemas and
  `validate_number` accept `true` and `false` as 1 and 0. JSON Schema does not count booleans
  as numbers; the model follows the code.
- `int` and `float` are one `real` variant. `multipleOf` is exact division.
- The library calls come in through the `Library` record. Every statement holds
  whatever those functions do. These calls are `re.fullmatch`, `float()`,
  `uuid.UUID`, `datetime`/`time.fromisoformat`, `strptime`/`strftime`,
  `ipaddress`, `base64.b64decode` and `FQDN(...).is_valid`.
- The repository writes three decoders out itself: `_email`, `_hostname` and
  `_duration` with its helper `_build_duration` (src/pyjschema/string.py:11-47).
  They are modelled step by step. `_hostname` calls `FQDN(...).is_valid` and
  `_duration` calls `float()`, both through the `Library` record.
- The code has three slips, listed under "## Findings": two in `src/load.py` and
  one in `_build_duration`. `Loader.Load` and `PyjschemaString.ValidateString`
  take a `Readings.Reading`. `AsWritten` is the code as it stands, at every depth
  of the tree. `Corrected` fixes the slips. Lemmas that hold either way take the
  reading as a parameter. `LoadLemmas.LoadKeepsShape` is stated of `Corrected`
  only, and `LoadLemmas.NestedListEmptiedAsWritten` shows it fails for
  `AsWritten`. `PyjschemaString.DurationFormatExample` shows the duration slip
  through `validate_string`.
- In `src/load.py`, an `additionalProperties` key refuses every leftover
  instance key, whatever its value (`true` or a schema included). In JSON Schema, `true`
  allows extra keys and a schema validates them; the model follows the code.
- `required` is only looked at when `properties` is present
  (src/load.py:82-83), and only for the properties that are listed. The model
  follows the code here too.

## Model

| member | source | states |
|---|---|---|
| JsonValue.NumberValue | src/number.py:4-5 | a value is a number exactly when it is an int, a float or a bool |
| JsonValue.BoundOf | src/number.py:7-20 | a bound is absent exactly when the key is missing; a numeric value is the bound, and the bound is always that value; the comparison raises exactly when the key holds a non-number |
| JsonValue.Lookup | src/load.py:125 | `d.get(k)` finds a value exactly when `k` is a key, and the value is that key's entry |
| JsonValue.Remove | src/load.py:91 | `d.pop(k)` removes `k` from the key set and leaves every other key's value as it was |
| JsonValue.LookupAppend | src/load.py:99 | a lookup in `ret + obj` finds `ret`'s entry for a key of `ret` and `obj`'s entry otherwise; at line 99 the two key sets are disjoint, because every key of `ret` was popped out of `obj`, so this agrees with `ret.update(obj)` |
| StringChecks.CheckLength | src/pyjschema/string.py:94-99 | both bounds are inclusive: the string passes exactly when each bound present is a number and `minLength <= len(s) <= maxLength`; it is too short exactly when below a numeric minimum, and too long exactly when it meets the minimum and exceeds a numeric maximum |
| StringChecks.CheckPattern | src/pyjschema/string.py:89-91 | passes exactly when there is no pattern or the WHOLE string matches it; a mismatch error exactly when the pattern compiles and does not fully match |
| StringChecks.Email | src/pyjschema/string.py:11-15 | `_email` returns its argument exactly when it contains '@' |
| StringChecks.ResolveFormat | src/pyjschema/string.py:76-81 | a built-in symbol gets the built-in decoder even when an extension has the same symbol; any other symbol gets the extension's decoder; a symbol in neither table gets none |
| StringChecks.FormatBlock | src/pyjschema/string.py:75-86 | the `try` block succeeds exactly when a decoder was found and it succeeds on the string, returning the decoder's value; every failure is one error naming the format |
| StringChecks.ValidateString | src/pyjschema/string.py:64-86 | the shared `validate_string` body: type, then `_length`, then `_pattern`, then the format block; its properties are the next four rows |
| StringChecks.StringAcceptedMeansChecked | src/pyjschema/string.py:64-73 | an accepted value is a string within both length bounds whose whole text matches the pattern |
| StringChecks.StringCheckOrder | src/pyjschema/string.py:65-69 | a non-string is reported first, then a length error, then a pattern error |
| StringChecks.StringFormatOutcome | src/pyjschema/string.py:71-86 | without a format the string comes back unchanged; an unknown symbol and every decoder failure become one error naming the format; otherwise the result is the decoder's value |
| StringChecks.SameDecodingSameResult | src/pyjschema/string.py:75-86 | the result depends on the format table only through the decoder chosen for the schema's format on this string |
| Formatter.Base | src/pyjschema/string/formatter.py:14-26 | the base formatter has no symbol and both its conversions fail on every input |
| Formatter.UuidFormat | src/pyjschema/string/formatter.py:29-36 | `UUIDFormat`: decode is `uuid.UUID`, encode is `str` |
| Formatter.DatetimeFormat | src/pyjschema/string/formatter.py:39-46 | `DatetimeFormat`: decode is `datetime.fromisoformat`, encode is `isoformat` |
| Formatter.TimeFormat | src/pyjschema/string/formatter.py:49-56 | `TimeFormat`: decode is `time.fromisoformat`, encode is `isoformat` |
| Formatter.DateFormat | src/pyjschema/string/formatter.py:59-66 | `DateFormat`: `strptime` and `strftime` with `%Y-%m-%d`; its round trip is `DateRoundTrip` |
| Formatter.ValidateEmail | src/pyjschema/string/formatter.py:78-83 | `_validate_email` tests `'@' in data` on whatever it is given: a substring for a string, membership for a list, a key for a dict; anything else is not iterable |
| Formatter.EmailFormat | src/pyjschema/string/formatter.py:69-83 | `EmailFormatter`: both decode and encode run the '@' test and return their argument; its properties are `EmailDecode`, `EmailRoundTrip` and `EmailEncodeContainers` |
| Formatter.Ipv4Format | src/pyjschema/string/formatter.py:86-93 | `Ipv4Formatter`: decode is `ipaddress.IPv4Address`, encode is `str` |
| Formatter.Ipv6Format | src/pyjschema/string/formatter.py:96-103 | `Ipv6Formatter`: decode is `ipaddress.IPv6Address`, encode is `str` |
| Formatter.BuiltinSymbolsDistinct | src/pyjschema/string/formatter.py:29-103 | the file's seven concrete formatters carry, in order, the symbols uuid, date-time, time, date, email, ipv4, ipv6, and no two share one |
| Formatter.EmailDecode | src/pyjschema/string/formatter.py:75-83 | `EmailFormatter.decode` succeeds exactly on strings containing '@' and returns them unchanged |
| Formatter.EmailRoundTrip | src/pyjschema/string/formatter.py:72-83 | on strings, encode undoes decode and decode undoes encode, and each succeeds exactly where the other does |
| Formatter.EmailEncodeContainers | src/pyjschema/string/formatter.py:72-83 | encode returns a list unchanged exactly when it holds the string "@", a dict exactly when it has the key "@", and raises on numbers, booleans and None |
| Formatter.DateRoundTrip | src/pyjschema/string/formatter.py:59-66 | decode and encode use the same layout `%Y-%m-%d`, so `DateFormat` round-trips exactly where the library's `strptime`/`strftime` pair does on that layout; the lemma adds nothing beyond that shared layout |
| IsoDuration.SplitOn | src/pyjschema/string.py:36 | `split` gives at least one piece and no piece contains the separator |
| IsoDuration.SplitJoin | src/pyjschema/string.py:36 | joining the pieces of a split with the separator gives the string back |
| IsoDuration.SplitPlain | src/pyjschema/string.py:36-40 | a string without 'T' is a date part alone |
| IsoDuration.SplitPair | src/pyjschema/string.py:36-38 | two 'T'-free strings joined by 'T' split into exactly those two parts |
| IsoDuration.ScanAsWritten | src/pyjschema/string.py:23-27 | the `for` loop of `_build_duration` as written, with `last` fixed at 0; its properties are `AsWrittenParsesWholePrefixes` and `AsWrittenUnits` |
| IsoDuration.ScanFixed | src/pyjschema/string.py:23-27 | the same loop with `last` moved past each designator; its properties are `ScanFixedSkips`, `ScanFixedToken` and `ScanFixedTokens` |
| IsoDuration.Timedelta | src/pyjschema/string.py:29 | `timedelta(**build)` fails exactly when years or months were built |
| IsoDuration.BuildDuration | src/pyjschema/string.py:22-29 | the loop as written computes the scan in which `last` stays 0, followed by `timedelta` |
| IsoDuration.BuildDurationFixed | src/pyjschema/string.py:22-29 | the loop with `last` advanced past each designator computes the corrected scan, followed by `timedelta` |
| IsoDuration.Part | src/pyjschema/string.py:29 | one `_build_duration` call: the scan's units passed to `timedelta` |
| IsoDuration.DurationAsWritten | src/pyjschema/string.py:32-40 | `_duration` over the scan as written; its properties are `DurationNeedsDesignatorP` and `OneWeekTwoDays` |
| IsoDuration.Duration | src/pyjschema/string.py:32-40 | `_duration` over the corrected scan; its properties are `DurationDecodesComponents` and `DurationDateOnly` |
| IsoDuration.DurationNeedsDesignatorP | src/pyjschema/string.py:33-34 | a text not starting with 'P' is refused by both versions |
| IsoDuration.AsWrittenParsesWholePrefixes | src/pyjschema/string.py:25-27 | as written, the scan succeeds only if every prefix before a designator is a float |
| IsoDuration.AsWrittenUnits | src/pyjschema/string.py:22-29 | as written, a successful scan builds exactly the units its designators name, each holding the float of the WHOLE text before its last designator, and leaves other units as they were |
| IsoDuration.ScanFixedSkips | src/pyjschema/string.py:25-26 | characters that are not designators only move the position |
| IsoDuration.ScanFixedToken | src/pyjschema/string.py:25-27 | with the fix, one number followed by its designator sets that unit to that number |
| IsoDuration.ScanFixedTokens | src/pyjschema/string.py:25-27 | with the fix, a run of components sets each unit to its own number, a later designator overriding an earlier one |
| IsoDuration.BuildFixedTokens | src/pyjschema/string.py:22-29 | the corrected scan of a rendered component list builds exactly the expected units |
| IsoDuration.NoCalendarUnits | src/pyjschema/string.py:29 | components without years or months make a valid `timedelta` |
| IsoDuration.DurationOfParts | src/pyjschema/string.py:36-38 | 'P', a date part, 'T', a time part decode to the two lengths added |
| IsoDuration.DurationDecodesComponents | src/pyjschema/string.py:32-40 | the corrected decoder reads 'P', date components, 'T', time components as the sum of the two parts' lengths, each component counted with its own number |
| IsoDuration.DurationDateOnly | src/pyjschema/string.py:36-40 | a text with no 'T' is 'P' and date components alone, and the corrected decoder reads it as the date part's length |
| IsoDuration.WeeksAndDaysOnly | src/pyjschema/string.py:18-29 | week and day components always give a date part `timedelta` accepts |
| IsoDuration.TimeUnitsOnly | src/pyjschema/string.py:19-29 | hour, minute and second components always give a time part `timedelta` accepts |
| IsoDuration.OneWeekTwoDays | src/pyjschema/string.py:22-29 | "P1W2D" fails as written and decodes to nine days once corrected |
| PyjschemaString.Hostname | src/pyjschema/string.py:43-47 | `_hostname` returns the string exactly when it is a valid FQDN |
| PyjschemaString.EmailDecoder | src/pyjschema/string.py:11-15 | `_email` returns the string unchanged exactly when it contains '@' |
| PyjschemaString.DefaultFormats | src/pyjschema/string.py:50-61 | the ten-entry table; its `duration` entry is `_duration` as written under `AsWritten` and the corrected scanner under `Corrected`; its properties are `DefaultSymbols`, `DefaultsWin` and `DurationFormat` |
| PyjschemaString.ValidateString | src/pyjschema/string.py:64-86 | the shared body over this table and the extensions, under either reading; its properties are the `StringChecks` lemmas and the rows below |
| PyjschemaString.DefaultSymbols | src/pyjschema/string.py:50-61 | under either reading, the built-in table has exactly the ten symbols uuid, date-time, time, date, duration, email, ipv4, ipv6, hostname, binary |
| PyjschemaString.DefaultsWin | src/pyjschema/string.py:76-81 | under either reading, for a built-in symbol, the extensions make no difference to the result |
| PyjschemaString.ExtensionsFillGaps | src/pyjschema/string.py:76-86 | under either reading, a symbol outside the table is decoded by the extension when one has it, and is unsupported otherwise; the extension's failure is wrapped in one error naming the format |
| PyjschemaString.LengthExamples | src/pyjschema/string.py:94-99 | with min 3 and max 5, "abc", "test" and "abcde" pass (both bounds inclusive), "t2" is too short and "t2sdfas" too long |
| PyjschemaString.DurationFormat | src/pyjschema/string.py:55 | format `duration` returns the reading's `_duration` value, and wraps its failure in one error naming the format |
| PyjschemaString.DurationFormatExample | src/pyjschema/string.py:22-40 | `validate_string("P1W2D", {"format": "duration"})` is refused as written, because `float("1W2")` raises, and gives nine days corrected |
| PyjschemaString.EmailFormatExample | src/pyjschema/string.py:56 | format `email` accepts a string unchanged exactly when it contains '@' |
| PyjschemaString.PatternExample | src/pyjschema/string.py:89-91 | `[a-z]*` accepts "test" and rejects "test1" because the match must cover the whole string |
| LegacyString.DefaultFormats | src/string.py:17-28 | the older eight-entry table; its properties are `DefaultSymbols` and `DurationAndHostnameUnsupported` |
| LegacyString.ValidateString | src/string.py:31-55 | the shared body over the older table; `AgreesWithLaterVersion` relates it to the later one |
| LegacyString.DefaultSymbols | src/string.py:17-28 | the older table has exactly uuid, date-time, time, date, email, ipv4, ipv6, bytes |
| LegacyString.DurationAndHostnameUnsupported | src/string.py:17-28 | without extensions, `duration` and `hostname` are unsupported formats |
| LegacyString.AgreesWithLaterVersion | src/string.py:31-55 | the older `validate_string` agrees with the later one, under either reading, on every schema whose format is not duration, hostname, binary or bytes |
| StringPackage.FormatterLookup | src/pyjschema/string/__init__.py:32-35 | a decoder is found exactly when the format is a key of `formats`, and it is `formats[f].decode` |
| StringPackage.ValidateString | src/pyjschema/string/__init__.py:20-38 | the shared body with `formats[f].decode` as the decoder; `AgreesWithTableVersion` and `UnregisteredUnsupported` state its behaviour |
| StringPackage.BuiltinRegistry | src/pyjschema/string/formatter.py:29-103 | the registry files each built-in formatter under its own symbol |
| StringPackage.RegistryHoldsBuiltins | src/pyjschema/string/formatter.py:29-103 | the registry's keys are exactly the seven built-in symbols, each mapped to its formatter |
| StringPackage.AgreesWithTableVersion | src/pyjschema/string/__init__.py:20-38 | with the built-in formatters registered, the formatter version gives the table version's result, under either reading, for each of their symbols |
| StringPackage.RegisteredDecodes | src/pyjschema/string/__init__.py:27-38 | for any `formats` dict, a string passing length and pattern under a registered format gives `formats[f].decode(s)`'s value, or one error naming the format that carries the decoder's failure |
| StringPackage.UnregisteredUnsupported | src/pyjschema/string/__init__.py:31-38 | a symbol not in `formats` is one error naming the format, even a built-in one |
| Number.CheckMultipleOf | src/number.py:19-20 | passes exactly when there is no divisor or a non-zero numeric divisor leaves an integral quotient; a not-multiple error exactly when the quotient is not integral |
| Number.ValidateNumber | src/number.py:3-22 | an accepted value is returned unchanged |
| Number.AcceptedIffSatisfies | src/number.py:3-22 | a value is accepted exactly when it is a number that meets every bound present (`>=` minimum, `>` exclusiveMinimum, `<=` maximum, `<` exclusiveMaximum, a whole multiple of a non-zero multipleOf) |
| Number.QuotientIntegralIffMultiple | src/number.py:19 | the quotient is integral exactly when the value is a whole multiple of the divisor |
| Number.FirstFailureReported | src/number.py:3-22 | a non-number is reported before any bound; otherwise the checks run in the order minimum, exclusiveMinimum, maximum, exclusiveMaximum, multipleOf, the first that fails is the error raised, and when none fails the value is returned |
| Number.ExclusiveMinimumAfterMinimum | src/number.py:7-11 | a minimum that holds does not hide a failing exclusiveMinimum: 5 under minimum 3 and exclusiveMinimum 5 fails on the latter |
| Number.BooleansAreNumbers | src/number.py:4-5 | booleans pass as 0 and 1 |
| Number.ZeroDivisorIsSchemaError | src/number.py:19 | a zero multipleOf raises for every number |
| Number.RangeExamples | src/number.py:7-17 | minimum 3 accepts 3 and 4 and rejects 2; exclusiveMinimum 3 rejects 3; maximum 3 accepts 3 and rejects 4; exclusiveMaximum 3 rejects 4 |
| Number.MultipleOfExamples | src/number.py:19-20 | multipleOf 3 accepts 3 and rejects 5 and 3.5; multipleOf 3.5 accepts 7 |
| Loader.UuidInitAsWritten | src/load.py:26 | `uuid.UUID.__init__` called with the string alone fails on every string |
| Loader.LoadFormats | src/load.py:25-32 | the six-entry table, its `uuid` entry as written or corrected; its properties are `LoadFormatSymbols`, `UuidAsWrittenAlwaysFails` and `UuidDecodes` |
| Loader.LoadString | src/load.py:119-140 | `_string` over that table and the extensions: a non-string is refused whatever the schema holds, and only a string can succeed; its other properties are `StringWithoutFormatUnchanged` and `StringFormatLookup` |
| Loader.Load | src/load.py:35-73 | `loado` dispatching on `type`, under either reading; its properties are the `LoadLemmas` rows |
| Loader.RequiredNames | src/load.py:85-87 | no `required` means no required names; from a list, the names are exactly the strings in it, and reading fails exactly when it holds a list or a dict (unhashable) |
| Loader.LoadObject | src/load.py:76-101 | `_object`; its properties are `LoadObjectOutcome`, `LoadObjectShape` and the lemmas after them |
| Loader.ObjectProps | src/load.py:89-94 | the properties loop, from the `i`-th property on; its properties are `ObjectPropsOutcome` and `ObjectPropsShape` |
| Loader.LoadArray | src/load.py:104-116 | `_array`, returning `[]` without `items` as written and the list unchanged corrected; its properties are `LoadArrayElementwise`, `LoadArrayFirstFailure` and `ArrayWithoutItems` |
| Loader.Items | src/load.py:112-114 | the items loop, from the `i`-th element on; its property is `ItemsShape` |
| LoadImpl.LoadObjectLoop | src/load.py:76-101 | under either reading, the popping loop computes `_object`'s result; afterwards the caller's dict has lost exactly the listed properties and kept the other values |
| LoadImpl.LoadArrayLoop | src/load.py:104-116 | under either reading, the appending loop computes `_array`'s result, `[]` without `items` as written |
| LoadLemmas.NoSchemaUnchanged | src/load.py:43-44 | without a schema the instance comes back unchanged |
| LoadLemmas.ScalarTypes | src/load.py:50-73 | for any schema whose `type` is `boolean`, `null`, `number` or `integer`, whatever else it holds: `boolean` accepts exactly bools, `null` exactly None, `number` and `integer` exactly numbers and bools, each returning the value unchanged |
| LoadLemmas.NumberBoundsIgnored | src/load.py:56-60 | `loado` never reads numeric bounds: 10 passes `{"type": "number", "maximum": 3}`, which `validate_number` refuses |
| LoadLemmas.UnknownTypeRejected | src/load.py:70-71 | any other `type` value is an error naming it |
| LoadLemmas.MalformedSchemas | src/load.py:46 | a schema that is not a dict, or lacks `type`, raises |
| LoadLemmas.ObjectWithoutProperties | src/load.py:79-83 | without `properties` a dict comes back unchanged and a non-dict is refused |
| LoadLemmas.RequiredAloneNotChecked | src/load.py:82-83 | `required` without `properties` is never checked: `{}` passes a schema requiring a1 and a2 |
| LoadLemmas.RequiredListedMissing | src/load.py:89-94 | a listed, required property the instance lacks makes the loop fail |
| LoadLemmas.UnlistedRequiredIgnored | src/load.py:85-94 | required names no property lists do not change the loop's result |
| LoadLemmas.ObjectPropsShape | src/load.py:89-91 | the loop makes an entry for each listed property the instance has, holding `loado` of its value, and leaves the other entries unchanged |
| LoadLemmas.ObjectPropsOutcome | src/load.py:89-94 | the properties loop succeeds exactly when every property's step passes (loaded if present, not required if absent), and otherwise raises the error of the first step that fails |
| LoadLemmas.LoadObjectOutcome | src/load.py:76-101 | `_object` with `properties` succeeds exactly when every property's step passes and, with `additionalProperties` present, every instance key is listed; when a step fails, the first failing step's error is raised |
| LoadLemmas.LoadObjectShape | src/load.py:89-101 | a successful `_object` keeps the instance's key set, replaces each listed property by its own `loado` result and copies the rest |
| LoadLemmas.AdditionalPropertiesRefuseLeftovers | src/load.py:96-97 | with `additionalProperties` present, whatever its value, an unlisted instance key is refused |
| LoadLemmas.MissingRequiredPropertyRejected | src/load.py:89-94 | a property both listed and required but absent from the instance makes `_object` fail |
| LoadLemmas.FirstPropertyErrorReported | src/load.py:89-91 | when the first listed property fails, its error is reported whatever the second does |
| LoadLemmas.ItemsShape | src/load.py:112-114 | the items loop gives one output per input, each its `loado` result, or the error of the first failing element |
| LoadLemmas.LoadArrayElementwise | src/load.py:107-116 | with `items`, under either reading, a successful `_array` keeps the length and element n is `loado(obj[n], items)` |
| LoadLemmas.LoadArrayFirstFailure | src/load.py:112-114 | with `items`, a failing `_array` reports the first element that fails |
| LoadLemmas.ArrayWithoutItems | src/load.py:107-116 | without `items`, a non-list is refused under both readings; the code as written returns `[]` for every list and the corrected walker returns the list unchanged |
| LoadLemmas.ArrayWithoutItemsExample | src/load.py:110-116 | `[1, 2]` under `{"type": "array"}` gives `[]` as written and `[1, 2]` corrected |
| LoadLemmas.NestedListEmptiedAsWritten | src/load.py:104-116 | as written, `[[1]]` under `{"type": "array", "items": {"type": "array"}}` gives `[[]]`, which does not keep the instance's shape; corrected, it gives `[[1]]` |
| LoadLemmas.StringRefusesNonStrings | src/load.py:119-123 | under either reading, `loado` with a `string` schema refuses every non-string with the same error, whatever the schema's `format` and other keys and the extensions hold |
| LoadLemmas.StringWithoutFormatUnchanged | src/load.py:122-127 | `_string` checks no length or pattern: without a format any string comes back unchanged, and a non-string is refused |
| LoadLemmas.StringFormatLookup | src/load.py:129-137 | a built-in symbol ignores the extensions; a symbol in neither table is unsupported |
| LoadLemmas.LoadFormatSymbols | src/load.py:25-32 | under either reading, the table has exactly uuid, date-time, time, date, duration, bytes, and `duration` returns the string unchanged |
| LoadLemmas.UuidAsWrittenAlwaysFails | src/load.py:26 | as written, format `uuid` fails on every string, whatever the extensions |
| LoadLemmas.UuidDecodes | src/load.py:129-140 | corrected, format `uuid` returns `uuid.UUID`'s value and wraps its failure |
| LoadLemmas.LoadKeepsShape | src/load.py:35-116 | a successful corrected `loado` keeps the instance's shape: same list lengths, same dict keys, only string leaves replaced |
## Left out

- `loads` parses JSON text with `json.loads` (src/load.py:20). The model starts
  from the parsed tree.
- src/dump.py, src/validate.py and src/pyjschema/validate.py are not part of
  this model. They are an encoder and thin wrappers.
- The library functions are parameters, not models. These are `re.fullmatch`,
  `float()`, `uuid`, `datetime`, `ipaddress`, `base64` and `fqdn`. So the
  examples about patterns and durations assume what these functions return.
- Floating point is not modelled. Numbers are exact reals. So `multipleOf` is
  exact division, not float division and `is_integer()`. Large-int overflow,
  NaN and infinities are not modelled. `timedelta`'s microsecond rounding and
  range limits are not modelled either.
- Int and float are one variant. So `loads("3")` returning an `int` and
  `loads("3.1")` returning a `float` are not distinguished.
- Error messages: messages are kept, but nothing is proved about their text.
  The messages Python would produce for unhashable or non-string format
  symbols are not reproduced.
- LoadImpl.LoadObjectLoop: the loop pops from the caller's dict. The model
  returns that dict's final state as an out-parameter and describes it only
  after a success. Aliasing of nested dicts with the caller is not modelled.
- Dict keys are modelled as unique, but not enforced. On a list with
  repeated keys, the first entry is the one looked up.
- The `DEFAULT_FORMATS` list in src/pyjschema/string/__init__.py:7-17 is not
  modelled. It names `DurationFormatter` and `HostnameFormatter`, which
  formatter.py does not define, so the module cannot be imported as shown.
  `StringPackage.ValidateString` takes the `formats` dict from the caller, as
  its signature does.
- The `encode` halves of the uuid, date-time, time and IP formatters are library
  calls (`str`, `isoformat`). They are modelled as parameters, and only the email
  and date round trips are stated.
- Composition (`allOf`, `anyOf`, `oneOf`, `not`), `$ref`, conditionals,
  `patternProperties`, `prefixItems`, `contains`, `uniqueItems` and item and
  property counts are not modelled. No file of this model implements them:
  they belong to the unseen `pyjschema.load`.

## Findings

| source | as written | input that shows it | evidently intended | confidence | as-written member | corrected member |
|---|---|---|---|---|---|---|
| src/load.py:110-116 | `ret = []` is returned unfilled when the schema has no `items` | `loado([1, 2], {"type": "array"})` returns `[]` | the list comes back unchanged, as for a dict without `properties` | high, not executed | LoadLemmas.NestedListEmptiedAsWritten | LoadLemmas.LoadKeepsShape |
| src/load.py:26 | the `uuid` decoder is `uuid.UUID.__init__`, called with the string as `self` and no value argument, so it always raises TypeError | `loado("3e4666bf-d5e5-4aa7-b8ce-cefe41c7568a", {"type": "string", "format": "uuid"})` fails | `uuid.UUID(s)`, as in both string modules | high, not executed | LoadLemmas.UuidAsWrittenAlwaysFails | LoadLemmas.UuidDecodes |
| src/pyjschema/string.py:22-29 | `last` is never advanced, so each unit is parsed from `s[0:i]`, everything before its designator | `_duration("P1W2D")` calls `float("1W2")` and raises | `last = i + 1` after each designator, so "P1W2D" is nine days | high, not executed | IsoDuration.OneWeekTwoDays | IsoDuration.DurationDecodesComponents |

`Readings.Reading` selects each slip as written (`AsWritten`) or corrected
(`Corrected`). In `Loader` it selects the array walker and the `uuid` entry, at
every depth of the tree. In `PyjschemaString.DefaultFormats` it selects the
`duration` entry: `IsoDuration.DurationAsWritten` or `IsoDuration.Duration`.
