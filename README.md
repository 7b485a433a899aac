# Configuration extractor of the tuning playground, in Dafny

The repository's only original logic is `find_configurations` in
`utils/config.py`. It takes a Hamilton module and reports which
configuration keys gate the module's functions. It walks the module's
functions. For every `config` decorator in a function's `resolve` list it
does two things. It appends the decorator's used keys to the list
`configurations`. It then opens the closure of the decorator's resolver and
appends every value bound in each dict cell to the list of that key in the
dict `config_values`.

The model has these parts:

- `Metadata` (metadata.dfy) is the input data. A module is a sequence of
  `(name, Fn)` pairs. A function has an optional `resolve` list. A decorator
  is either `ConfigDec(configUsed, closure)` or `Other`. A closure is an
  optional sequence of cells. A cell is a `DictCell` with its entries in
  insertion order, or `NonDict`.
- `Config` (config.dfy) holds the imperative model and its specification.
  The nested loops are `FindConfigurations` (over functions),
  `VisitDecorators` (over a function's `resolve` list), `VisitConfig` (the
  `config` branch), `AppendClosure` (over closure cells) and
  `AppendBoundValues` (over one dict's entries). Each method is proved to
  compute the pure specification `Extract` / `Accumulate`. That
  specification flattens the module into its `config` decorators and their
  bound entries, then groups the entries by key.
- `ConfigProperties` (config_properties.dfy) proves what the two results
  mean. It compares them with reference definitions that do not use the
  dict: `ValuesFor`, `FirstSeen`, `FirstIndex` and the predicates `Visited`
  and `Used`.
- `FullDag` (full_dag.dfy) is `ml_project/phase4/full_dag.py`, the module
  that the `__main__` block is evidently meant to scan. `import full_dag`
  (utils/config.py:52) loads whichever `full_dag.py` comes first on
  `sys.path`. The repository has two. `ml_project/phase1/full_dag.py` has no
  `config` decorator, so scanning it gives two empty results. Only the phase4
  module uses `config.when_in`. The result is computed exactly, for its
  functions in name order.

A resolver without a closure makes Python iterate over `None`. A closure
cell whose contents have no `.items()`, or whose `.items()` yields something
that is not a key/value pair, makes the `.items()` call or the unpacking
fail. In these cases Python raises, and the call returns nothing. The model
returns `Err(MalformedMetadata)` for all of them. A cell whose contents do
have a pair-yielding `.items()` is a `DictCell`, whatever its Python type.

`configurations` is a list that keeps duplicates (utils/config.py:39). Only
`__main__` deduplicates it, with `set(...)` (line 54).

## Model

| member | source | states |
|---|---|---|
| `Config.FindConfigurations` | utils/config.py:9-49 | The whole scan returns exactly `Extract(module)`: the used keys of every `config` decorator, concatenated in function order and then decorator order, and the bound values grouped by key. It returns the error if any `config` decorator cannot be opened. Both accumulators start empty on each call. |
| `Config.VisitDecorators` | utils/config.py:37-48 | The loop over one `resolve` list extends the accumulators with that list's `config` decorators only, in order. It fails exactly when one of them cannot be opened. |
| `Config.VisitConfig` | utils/config.py:38-48 | For one `config` decorator: its used keys are appended, then every value bound in its closure. The call fails when the resolver has no closure or a cell's contents do not yield key/value pairs from `.items()`. |
| `Config.AppendClosure` | utils/config.py:42-48 | The loop over closure cells succeeds iff every cell is a `DictCell`, one whose `.items()` yields key/value pairs. On success it appends the entries of all cells, in cell order and then `.items()` order. |
| `Config.AppendBoundValues` | utils/config.py:45-48 | The innermost loop appends each value of a dict to the list of its key, creating the list on first sight. The result equals grouping the entries in order. |
| `ConfigProperties.ConfigDecoratorsMembers` | utils/config.py:37-38 | The decorators kept from a `resolve` list are exactly its `config` decorators. |
| `Config.ConfigDecoratorStep` | utils/config.py:38-48 | One `config` decorator extends the scan of the `resolve` prefix before it by that decorator alone. If it fails, the whole `resolve` list fails. |
| `Config.OtherDecoratorStep` | utils/config.py:38 | A decorator that fails the `isinstance` test leaves the scan of the `resolve` prefix unchanged. |
| `Config.ResolvingFunctionStep` | utils/config.py:34-48 | A function with a non-empty `resolve` list extends the scan of the functions before it by its own `config` decorators. If they fail, the whole module fails. |
| `Config.UndecoratedFunctionStep` | utils/config.py:36 | A function without `resolve`, or with an empty one, leaves the scan of the functions before it unchanged. |
| `ConfigProperties.ConfigurationsByKey` | utils/config.py:37-39 | A key is in `configurations` iff some `config` decorator of some function reports it as used. |
| `ConfigProperties.ConfigValuesByKey` | utils/config.py:41-48 | `config_values[k]` is every value bound under `k` in the visited dicts, stored whole and in traversal order. `k` is a key iff some visited dict binds it. Every stored list is non-empty. |
| `ConfigProperties.GroupedValues` | utils/config.py:45-48 | After appending entries, each key's list is the old list followed by exactly that key's values, in entry order. |
| `ConfigProperties.GroupedKeys` | utils/config.py:46-47 | After appending entries, a key is present iff it was present before or some entry binds it. |
| `ConfigProperties.OtherKeysUnchanged` | utils/config.py:46-48 | Appending a value under one key leaves every other key's list unchanged. |
| `ConfigProperties.FirstSeen` | utils/config.py:46-47 | The keys whose lists the loop creates: each key once, and exactly the keys that some entry binds. |
| `ConfigProperties.FirstSeenOrder` | utils/config.py:46-47 | `FirstSeen` lists the keys in the order their lists are created, which is the dict's iteration order. A key comes before another iff its first entry comes before the other's first entry (`FirstIndex`). |
| `ConfigProperties.GroupedTotal` | utils/config.py:43-48 | Summed over the keys, the grouped lists hold exactly one value per entry. |
| `ConfigProperties.ValueCount` | utils/config.py:43-48 | The keys of `config_values` are exactly the first-seen keys of the visited entries. The total length of its lists equals the number of entries in all visited dicts. |
| `ConfigProperties.ExtractAppend` | utils/config.py:34-48 | Scanning two modules one after the other fails iff either scan fails. Otherwise `configurations` is the concatenation of the two, and each `config_values` list is the first module's list followed by the second's. |
| `ConfigProperties.UndecoratedAddsNothing` | utils/config.py:36 | A function with no `resolve` attribute, or an empty one, changes neither result, wherever it stands in the module. |
| `ConfigProperties.OtherDecoratorSkipped` | utils/config.py:37-38 | A resolver decorator that is not a `config` decorator changes neither result. |
| `ConfigProperties.ReflectableSucceeds` | utils/config.py:36-48 | If every `config` decorator of every function has a closure whose cells all yield key/value pairs, the call succeeds. With `MalformedFails` this makes the error condition an iff over the functions. |
| `ConfigProperties.MalformedFails` | utils/config.py:41-45 | A `config` decorator whose resolver has no closure, or has a cell without a pair-yielding `.items()`, makes the whole call fail. Its keys are never silently dropped. |
| `ConfigProperties.UsedKeysAreBoundKeys` | utils/config.py:39-48 | Suppose every `config` decorator reports as used exactly the keys that its closure binds. Then the keys of `configurations` and of `config_values` are the same set. |
| `ConfigProperties.FindConfigurationsTwice` | utils/config.py:30-31 | Two calls on the same module return equal results. Nothing accumulates across calls. |
| `FullDag.WhenInModeExtraction` | ml_project/phase4/full_dag.py:18-20 | One function decorated with `@config.when_in(mode=values)` yields `configurations == ["mode"]` and `config_values == {"mode": [values]}`. |
| `FullDag.GatedOnModeExtraction` | ml_project/phase4/full_dag.py:10-58 | In a module whose functions each carry `@config.when_in(mode=...)`, `mode` is used once per function. Its list holds every bound value in order, and `mode` is the only key of `config_values`. |
| `FullDag.Phase4Extraction` | ml_project/phase4/full_dag.py:10-58 | Scanning full_dag.py, with its functions in name order, gives `mode` eight times, printed as `{'mode'}`. `config_values` has the single key `mode`, whose list holds the eight bound lists in function-name order, each stored whole. |

## Left out

- `config_values` is a Dafny `map`, which has no key order. The insertion order of the Python dict (the order in which utils/config.py:46-47 create its lists) is not part of the returned value. It is stated separately, by `FirstSeen` and `FirstSeenOrder`, and `ValueCount` ties `FirstSeen` to the map's keys.
- `graph_utils.find_functions` is not part of this model. The module is given as a sequence of `(name, function)` pairs, and the scan follows that order. Hamilton's `find_functions` lists a module's functions through `inspect.getmembers`, which sorts them by name. `FullDag` therefore lists the functions of full_dag.py in name order, written out by hand. The model does not prove that this order is sorted.
- `isinstance(decorator, config)` and the closure reflection (`does_resolve.resolves.__closure__`, `cell_contents`) are Python runtime introspection. They become the `ConfigDec` tag and the explicit `closure` field.
- What `config.when_in` stores in `_config_used` and in its resolver's closure belongs to Hamilton, which is not part of this model. Both are inputs here. `FullDag` assumes `_config_used == ["mode"]` and a single closure cell holding the keyword dict. `UsedKeysAreBoundKeys` states the consequence of that shape as a hypothesis.
- The `__main__` block (module import and printing, `utils/config.py:51-55`) is I/O. Only the deduplication that `set(...)` performs there is reflected, through the membership statements of `ConfigurationsByKey`.
- Bound values are opaque to the extractor. `Value` is a small stand-in datatype for them (text, numbers, lists).
- Closure contents are not told apart by Python type. A dict and any other object whose `.items()` yields key/value pairs (a `MappingProxyType`, a `collections.abc.Mapping`, a pandas Series) are all `DictCell`. The model does not capture what such an object's `.items()` does beyond the pairs it yields.
- Python dicts cannot hold a key twice. The model does not require distinct keys within a `DictCell`. This only widens the inputs, and every stated property holds for all of them.
- A non-list but truthy `resolve` attribute is not modelled.
- Reading the resolver's closure can fail in three ways. Each is given as input in a form the model already rejects with `Err(MalformedMetadata)`:
  - `does_resolve` has no `.resolves` (`AttributeError`, utils/config.py:41). It is given as `closure: None`.
  - `resolves` has no `__closure__` (`AttributeError`, line 42). It is given as `closure: None`.
  - A cell is empty, so `cell_contents` raises `ValueError` (line 42). It is given as a `NonDict` cell.
- `configUsed: seq<string>` assumes `_config_used` is a list of strings. Line 39 extends `configurations` with any iterable. A `str` there would be added one character at a time, and `None` would raise. Neither case is modelled.
- An input that cannot be enumerated as a module is not modelled, because the input is typed.
- `Config.VisitConfig` requires its decorator to be a `config` decorator, because the caller reaches it only through the `isinstance` test.
- `Config.FindConfigurations` returns a single error value for every Python exception of lines 41-45, and does not say which exception occurred. The cases are:
  - `AttributeError` when `does_resolve` has no `.resolves` or `resolves` has no `__closure__`.
  - `TypeError` when the closure is `None`.
  - `ValueError` for an empty cell.
  - `AttributeError`, `TypeError` or `ValueError` for a cell without a pair-yielding `.items()`.
