/**
 * Which version of the repository's code a model follows: exactly as written,
 * or with its slips corrected. The slips are the `uuid` entry and the list
 * without `items` in src/load.py, and the `last` position `_build_duration`
 * never advances in src/pyjschema/string.py.
 */
module Readings {
  datatype Reading = AsWritten | Corrected
}
