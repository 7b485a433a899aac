/**
  The decorated functions of a Hamilton module, as the configuration extractor
  sees them. Python reflection (the module's members, a decorator's class, a
  resolver's closure cells) is replaced by explicit, immutable records.
 */
module Metadata {
  import opened Wrappers

  /** A value bound in a decorator's closure, e.g. the list `["training"]`.
      The extractor stores such values whole and never looks inside them. */
  datatype Value = Text(text: string) | Number(number: int) | Items(items: seq<Value>)

  /** The contents of one cell of a resolver's closure. `DictCell` is any
      object whose `.items()` yields key/value pairs (a dict, or another
      mapping), given by those pairs in iteration order. `NonDict` is
      contents that have no `.items()`, or whose `.items()` yields something
      that does not unpack into a key and a value. */
  datatype Cell = DictCell(entries: seq<(string, Value)>) | NonDict

  /** An entry of a function's `resolve` list. A `config` decorator carries
      the keys it reports as used (`_config_used`, a list of strings) and the
      closure cells of its resolver function. The closure is `None` whenever
      those cells cannot be reached: `does_resolve` has no `.resolves`,
      `resolves` has no `__closure__`, or that closure is `None`. An empty
      cell, whose `cell_contents` raises, is a `NonDict` cell. Every other kind
      of resolver decorator is `Other`. */
  datatype Decorator =
    | ConfigDec(configUsed: seq<string>, closure: Option<seq<Cell>>)
    | Other

  /** A function of the module; `resolve` is `None` when the function has no
      `resolve` attribute. */
  datatype Fn = Fn(resolve: Option<seq<Decorator>>)

  /** The (name, function) pairs of a module, in enumeration order. */
  type Module = seq<(string, Fn)>
}
