/**
  The configuration extractor of utils/config.py: which configuration keys a
  module's `config` decorators use, and which values their resolvers bind.

  `Extract` is the specification: it flattens the module into the sequence of
  its `config` decorators (function order, then decorator order), and from that
  into the sequence of bound (key, value) entries (then closure-cell order, then
  dict order). `FindConfigurations` is the nested-loop accumulation itself.
 */
module Config {
  import opened Wrappers
  import opened Metadata

  /** A decorator whose resolver has no closure, or a closure cell without a
      pair-yielding `.items()`, makes the whole call fail. */
  datatype Error = MalformedMetadata

  /** The two accumulators returned by `find_configurations`. */
  datatype Extraction = Extraction(configurations: seq<string>, configValues: map<string, seq<Value>>)

  /** The decorators resolved for a function: none when it has no `resolve`
      attribute (an empty `resolve` list is skipped the same way). */
  function Resolvers(f: Fn): seq<Decorator>
  {
    if f.resolve.Some? then f.resolve.value else []
  }

  /** The `config` decorators among `ds`, in order. */
  function ConfigDecorators(ds: seq<Decorator>): seq<Decorator>
  {
    if ds == [] then []
    else (if ds[0].ConfigDec? then [ds[0]] else []) + ConfigDecorators(ds[1..])
  }

  /** The `config` decorators of a whole module: function order, then the
      order of each function's `resolve` list. */
  function ModuleDecorators(functions: Module): seq<Decorator>
  {
    if functions == [] then []
    else
      ConfigDecorators(Resolvers(functions[0].1)) + ModuleDecorators(functions[1..])
  }

  /** The keys reported as used by the `config` decorators in `decs`,
      concatenated in order; duplicates are kept. */
  function ConfigsUsed(decs: seq<Decorator>): seq<string>
  {
    if decs == [] then []
    else
      (if decs[0].ConfigDec? then decs[0].configUsed else []) + ConfigsUsed(decs[1..])
  }

  /** The entries of the dict cells among `cells`, in order. */
  function CellEntries(cells: seq<Cell>): seq<(string, Value)>
  {
    if cells == [] then []
    else
      (if cells[0].DictCell? then cells[0].entries else []) + CellEntries(cells[1..])
  }

  /** Closure of a `config` decorator; empty when there is none. */
  function Closure(d: Decorator): seq<Cell>
  {
    if d.ConfigDec? && d.closure.Some? then d.closure.value else []
  }

  /** Every (key, value) entry bound in the closures of `decs`, in order. */
  function BoundEntries(decs: seq<Decorator>): seq<(string, Value)>
  {
    if decs == [] then []
    else
      CellEntries(Closure(decs[0])) + BoundEntries(decs[1..])
  }

  /** A decorator the extractor can open: not a `config` decorator, or one
      whose resolver is a closure all of whose cells are `DictCell`s. */
  predicate Reflectable(d: Decorator)
  {
    d.ConfigDec? ==> d.closure.Some? && forall c :: c in d.closure.value ==> c.DictCell?
  }

  predicate AllReflectable(decs: seq<Decorator>)
  {
    forall d :: d in decs ==> Reflectable(d)
  }

  /** The list stored under `k`, or the empty list when `k` is absent. */
  function Lookup(m: map<string, seq<Value>>, k: string): seq<Value>
  {
    if k in m then m[k] else []
  }

  /** One step of the inner loop: create the list for `k` on first sight,
      then append `v` to it. */
  function Append(m: map<string, seq<Value>>, k: string, v: Value): map<string, seq<Value>>
  {
    m[k := Lookup(m, k) + [v]]
  }

  /** `m` after appending every entry of `es`, in order. */
  function Grouped(m: map<string, seq<Value>>, es: seq<(string, Value)>): map<string, seq<Value>>
    decreases es
  {
    if es == [] then m else Grouped(Append(m, es[0].0, es[0].1), es[1..])
  }

  /** `acc` extended with the `config` decorators `decs`, or the error raised
      when one of them cannot be opened. */
  function Accumulate(acc: Extraction, decs: seq<Decorator>): Result<Extraction, Error>
  {
    if AllReflectable(decs) then
      Ok(Extraction(acc.configurations + ConfigsUsed(decs), Grouped(acc.configValues, BoundEntries(decs))))
    else
      Err(MalformedMetadata)
  }

  /** What `find_configurations(module)` returns, or the error it raises. */
  function Extract(functions: Module): Result<Extraction, Error>
  {
    Accumulate(Extraction([], map[]), ModuleDecorators(functions))
  }

  lemma ConfigDecoratorsAppend(a: seq<Decorator>, b: seq<Decorator>)
    ensures ConfigDecorators(a + b) == ConfigDecorators(a) + ConfigDecorators(b)
  {
    if a != [] {
      assert (a + b)[1..] == a[1..] + b;
      ConfigDecoratorsAppend(a[1..], b);
    } else {
      assert a + b == b;
    }
  }

  lemma ModuleDecoratorsAppend(a: Module, b: Module)
    ensures ModuleDecorators(a + b) == ModuleDecorators(a) + ModuleDecorators(b)
  {
    if a != [] {
      assert (a + b)[1..] == a[1..] + b;
      ModuleDecoratorsAppend(a[1..], b);
    } else {
      assert a + b == b;
    }
  }

  lemma ConfigsUsedAppend(a: seq<Decorator>, b: seq<Decorator>)
    ensures ConfigsUsed(a + b) == ConfigsUsed(a) + ConfigsUsed(b)
  {
    if a != [] {
      assert (a + b)[1..] == a[1..] + b;
      ConfigsUsedAppend(a[1..], b);
    } else {
      assert a + b == b;
    }
  }

  lemma CellEntriesAppend(a: seq<Cell>, b: seq<Cell>)
    ensures CellEntries(a + b) == CellEntries(a) + CellEntries(b)
  {
    if a != [] {
      assert (a + b)[1..] == a[1..] + b;
      CellEntriesAppend(a[1..], b);
    } else {
      assert a + b == b;
    }
  }

  lemma BoundEntriesAppend(a: seq<Decorator>, b: seq<Decorator>)
    ensures BoundEntries(a + b) == BoundEntries(a) + BoundEntries(b)
  {
    if a != [] {
      assert (a + b)[1..] == a[1..] + b;
      BoundEntriesAppend(a[1..], b);
    } else {
      assert a + b == b;
    }
  }

  lemma GroupedAppend(m: map<string, seq<Value>>, a: seq<(string, Value)>, b: seq<(string, Value)>)
    decreases a
    ensures Grouped(m, a + b) == Grouped(Grouped(m, a), b)
  {
    if a != [] {
      assert (a + b)[1..] == a[1..] + b;
      GroupedAppend(Append(m, a[0].0, a[0].1), a[1..], b);
    } else {
      assert a + b == b;
    }
  }

  /** Innermost loop (`for key, value in bound_value.items()`): append each
      value of one dict to the list of its key, creating the list on first
      sight. */
  method AppendBoundValues(configValues: map<string, seq<Value>>, entries: seq<(string, Value)>)
    returns (updated: map<string, seq<Value>>)
    ensures updated == Grouped(configValues, entries)
  {
    updated := configValues;
    var e := 0;
    while e < |entries|
      invariant 0 <= e <= |entries|
      invariant updated == Grouped(configValues, entries[..e])
    {
      var (key, value) := entries[e];
      assert entries[..e + 1] == entries[..e] + [(key, value)];
      GroupedAppend(configValues, entries[..e], [(key, value)]);
      if key !in updated {
        updated := updated[key := []];
      }
      updated := updated[key := updated[key] + [value]];
      e := e + 1;
    }
    assert entries[..e] == entries;
  }

  /** Loop over the closure cells of one resolver: every cell must be a
      `DictCell` (`.items()` or the unpacking of its pairs fails on anything
      else); the values of each are appended. */
  method AppendClosure(configValues: map<string, seq<Value>>, cells: seq<Cell>)
    returns (r: Option<map<string, seq<Value>>>)
    ensures r.Some? <==> forall c :: c in cells ==> c.DictCell?
    ensures r.Some? ==> r.value == Grouped(configValues, CellEntries(cells))
  {
    var updated := configValues;
    var c := 0;
    while c < |cells|
      invariant 0 <= c <= |cells|
      invariant forall x :: x in cells[..c] ==> x.DictCell?
      invariant updated == Grouped(configValues, CellEntries(cells[..c]))
    {
      assert cells[..c + 1] == cells[..c] + [cells[c]];
      CellEntriesAppend(cells[..c], [cells[c]]);
      match cells[c]
      case NonDict =>
        return None;
      case DictCell(entries) =>
        assert CellEntries([cells[c]]) == entries;
        GroupedAppend(configValues, CellEntries(cells[..c]), entries);
        updated := AppendBoundValues(updated, entries);
      c := c + 1;
    }
    assert cells[..c] == cells;
    r := Some(updated);
  }

  /** Accumulating `a + b` is accumulating `a`, then `b`; an error in `a`
      is final. */
  lemma AccumulateAppend(acc: Extraction, a: seq<Decorator>, b: seq<Decorator>)
    ensures Accumulate(acc, a + b)
         == if Accumulate(acc, a).Err? then Err(MalformedMetadata) else Accumulate(Accumulate(acc, a).value, b)
  {
    ConfigsUsedAppend(a, b);
    BoundEntriesAppend(a, b);
    GroupedAppend(acc.configValues, BoundEntries(a), BoundEntries(b));
    assert acc.configurations + (ConfigsUsed(a) + ConfigsUsed(b))
        == acc.configurations + ConfigsUsed(a) + ConfigsUsed(b);
    assert forall d :: d in a + b <==> d in a || d in b;
  }

  lemma AccumulateNothing(acc: Extraction)
    ensures Accumulate(acc, []) == Ok(acc)
  {
    assert acc.configurations + [] == acc.configurations;
  }

  /** A failure while scanning a prefix is the failure of the whole scan. */
  lemma FailureIsFinal(acc: Extraction, a: seq<Decorator>, b: seq<Decorator>)
    requires Accumulate(acc, a).Err?
    ensures Accumulate(acc, a + b) == Err(MalformedMetadata)
  {
    assert forall d :: d in a ==> d in a + b;
  }

  /** The body of the `isinstance(decorator, config)` branch: append the
      decorator's used keys, then open its resolver's closure and append
      every bound value. */
  method VisitConfig(acc: Extraction, decorator: Decorator) returns (r: Result<Extraction, Error>)
    requires decorator.ConfigDec?
    ensures r == Accumulate(acc, [decorator])
  {
    assert ConfigsUsed([decorator]) == decorator.configUsed + [] == decorator.configUsed;
    assert BoundEntries([decorator]) == CellEntries(Closure(decorator)) + [] == CellEntries(Closure(decorator));
    assert decorator in [decorator];
    var configurations := acc.configurations + decorator.configUsed;
    if decorator.closure.None? {
      return Err(MalformedMetadata);
    }
    var bound := AppendClosure(acc.configValues, decorator.closure.value);
    if bound.None? {
      return Err(MalformedMetadata);
    }
    r := Ok(Extraction(configurations, bound.value));
  }

  /** Scanning `a` and then `b` is scanning `a` to `current`, then `b` from there. */
  lemma AccumulateThen(acc: Extraction, a: seq<Decorator>, b: seq<Decorator>, current: Extraction)
    requires Accumulate(acc, a) == Ok(current)
    ensures Accumulate(acc, a + b) == Accumulate(current, b)
  {
    AccumulateAppend(acc, a, b);
  }

  /** A failure while scanning a prefix of a `resolve` list is the failure
      of the whole list. */
  lemma DecoratorsPrefixFailure(acc: Extraction, ds: seq<Decorator>, k: nat)
    requires k <= |ds|
    requires Accumulate(acc, ConfigDecorators(ds[..k])).Err?
    ensures Accumulate(acc, ConfigDecorators(ds)) == Err(MalformedMetadata)
  {
    assert ds[..k] + ds[k..] == ds;
    ConfigDecoratorsAppend(ds[..k], ds[k..]);
    FailureIsFinal(acc, ConfigDecorators(ds[..k]), ConfigDecorators(ds[k..]));
  }

  /** A failure while scanning a prefix of the module is the failure of the
      whole module. */
  lemma ModulePrefixFailure(functions: Module, k: nat)
    requires k <= |functions|
    requires Accumulate(Extraction([], map[]), ModuleDecorators(functions[..k])).Err?
    ensures Extract(functions) == Err(MalformedMetadata)
  {
    assert functions[..k] + functions[k..] == functions;
    ModuleDecoratorsAppend(functions[..k], functions[k..]);
    FailureIsFinal(Extraction([], map[]), ModuleDecorators(functions[..k]), ModuleDecorators(functions[k..]));
  }

  /** The `config` decorators of a `resolve` prefix one decorator longer. */
  lemma DecoratorsPrefixStep(ds: seq<Decorator>, j: nat)
    requires j < |ds|
    ensures ConfigDecorators(ds[..j + 1])
         == ConfigDecorators(ds[..j]) + (if ds[j].ConfigDec? then [ds[j]] else [])
  {
    assert ds[..j + 1] == ds[..j] + [ds[j]];
    ConfigDecoratorsAppend(ds[..j], [ds[j]]);
    assert ConfigDecorators([ds[j]]) == (if ds[j].ConfigDec? then [ds[j]] else []) + ConfigDecorators([]);
  }

  /** One `config` decorator of the `resolve` list: the scan of the prefix
      through it is the scan of the shorter prefix, then that decorator; a
      failure there is the failure of the whole list. */
  lemma ConfigDecoratorStep(acc: Extraction, ds: seq<Decorator>, j: nat, current: Extraction, next: Result<Extraction, Error>)
    requires j < |ds| && ds[j].ConfigDec?
    requires Accumulate(acc, ConfigDecorators(ds[..j])) == Ok(current)
    requires next == Accumulate(current, [ds[j]])
    ensures next.Ok? ==> Accumulate(acc, ConfigDecorators(ds[..j + 1])) == next
    ensures next.Err? ==> Accumulate(acc, ConfigDecorators(ds)) == next
  {
    DecoratorsPrefixStep(ds, j);
    AccumulateThen(acc, ConfigDecorators(ds[..j]), [ds[j]], current);
    if next.Err? {
      DecoratorsPrefixFailure(acc, ds, j + 1);
    }
  }

  /** Any other decorator of the `resolve` list leaves the scan unchanged. */
  lemma OtherDecoratorStep(acc: Extraction, ds: seq<Decorator>, j: nat, current: Extraction)
    requires j < |ds| && !ds[j].ConfigDec?
    requires Accumulate(acc, ConfigDecorators(ds[..j])) == Ok(current)
    ensures Accumulate(acc, ConfigDecorators(ds[..j + 1])) == Ok(current)
  {
    DecoratorsPrefixStep(ds, j);
    assert ConfigDecorators(ds[..j]) + [] == ConfigDecorators(ds[..j]);
  }

  /** The `config` decorators of a module prefix one function longer. */
  lemma ModulePrefixStep(functions: Module, i: nat)
    requires i < |functions|
    ensures ModuleDecorators(functions[..i + 1])
         == ModuleDecorators(functions[..i]) + ConfigDecorators(Resolvers(functions[i].1))
  {
    assert functions[..i + 1] == functions[..i] + [functions[i]];
    ModuleDecoratorsAppend(functions[..i], [functions[i]]);
    assert ModuleDecorators([functions[i]]) == ConfigDecorators(Resolvers(functions[i].1)) + ModuleDecorators([]);
  }

  /** One function with a non-empty `resolve` list: the scan of the prefix
      through it is the scan of the shorter prefix, then its `config`
      decorators; a failure there is the failure of the whole module. */
  lemma ResolvingFunctionStep(functions: Module, i: nat, acc: Extraction, visited: Result<Extraction, Error>)
    requires i < |functions| && functions[i].1.resolve.Some?
    requires Accumulate(Extraction([], map[]), ModuleDecorators(functions[..i])) == Ok(acc)
    requires visited == Accumulate(acc, ConfigDecorators(functions[i].1.resolve.value))
    ensures visited.Ok? ==> Accumulate(Extraction([], map[]), ModuleDecorators(functions[..i + 1])) == visited
    ensures visited.Err? ==> Extract(functions) == visited
  {
    ModulePrefixStep(functions, i);
    assert Resolvers(functions[i].1) == functions[i].1.resolve.value;
    AccumulateThen(Extraction([], map[]), ModuleDecorators(functions[..i]), ConfigDecorators(Resolvers(functions[i].1)), acc);
    if visited.Err? {
      ModulePrefixFailure(functions, i + 1);
    }
  }

  /** A function without a `resolve` list, or with an empty one, leaves the
      scan unchanged. */
  lemma UndecoratedFunctionStep(functions: Module, i: nat, acc: Extraction)
    requires i < |functions| && (functions[i].1.resolve.None? || functions[i].1.resolve.value == [])
    requires Accumulate(Extraction([], map[]), ModuleDecorators(functions[..i])) == Ok(acc)
    ensures Accumulate(Extraction([], map[]), ModuleDecorators(functions[..i + 1])) == Ok(acc)
  {
    assert ModuleDecorators(functions[..i + 1]) == ModuleDecorators(functions[..i]) by {
      assert functions[..i + 1] == functions[..i] + [functions[i]];
      ModuleDecoratorsAppend(functions[..i], [functions[i]]);
      assert ModuleDecorators([functions[i]]) == [];
      assert ModuleDecorators(functions[..i]) + [] == ModuleDecorators(functions[..i]);
    }
  }

  /** Loop over one function's `resolve` list: every decorator that is not a
      `config` decorator is skipped. */
  method VisitDecorators(acc: Extraction, decorators: seq<Decorator>) returns (r: Result<Extraction, Error>)
    ensures r == Accumulate(acc, ConfigDecorators(decorators))
  {
    var current := acc;
    var j := 0;
    assert decorators[..0] == [];
    AccumulateNothing(acc);
    while j < |decorators|
      invariant 0 <= j <= |decorators|
      invariant Accumulate(acc, ConfigDecorators(decorators[..j])) == Ok(current)
    {
      var decorator := decorators[j];
      if decorator.ConfigDec? {
        var next := VisitConfig(current, decorator);
        ConfigDecoratorStep(acc, decorators, j, current, next);
        if next.Err? {
          return next;
        }
        current := next.value;
      } else {
        OtherDecoratorStep(acc, decorators, j, current);
      }
      j := j + 1;
    }
    assert decorators[..j] == decorators;
    r := Ok(current);
  }

  /** `find_configurations`: walks the functions of the module, their
      `config` decorators, the closure cells of each decorator's resolver and
      the entries of each cell, appending the used keys to `configurations`
      and every bound value to the list of its key in `configValues`. Both
      accumulators start empty on every call. */
  method FindConfigurations(functions: Module) returns (r: Result<Extraction, Error>)
    ensures r == Extract(functions)
  {
    var acc := Extraction([], map[]);
    var i := 0;
    assert functions[..0] == [];
    AccumulateNothing(acc);
    while i < |functions|
      invariant 0 <= i <= |functions|
      invariant Accumulate(Extraction([], map[]), ModuleDecorators(functions[..i])) == Ok(acc)
    {
      var (name, fn) := functions[i];
      if fn.resolve.Some? && fn.resolve.value != [] {
        var visited := VisitDecorators(acc, fn.resolve.value);
        ResolvingFunctionStep(functions, i, acc, visited);
        if visited.Err? {
          return visited;
        }
        acc := visited.value;
      } else {
        UndecoratedFunctionStep(functions, i, acc);
      }
      i := i + 1;
    }
    assert functions[..i] == functions;
    r := Ok(acc);
  }
}
