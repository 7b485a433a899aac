/**
  What `find_configurations` promises about its two results, proved about the
  specification `Config.Extract` (which `Config.FindConfigurations` is proved
  to compute).
 */
module ConfigProperties {
  import opened Wrappers
  import opened Metadata
  import opened Config

  // ---------------------------------------------------------------------------
  // Reference definitions, independent of the dict that the loops build
  // ---------------------------------------------------------------------------

  /** The values bound under `k` in `es`, in order. */
  function ValuesFor(es: seq<(string, Value)>, k: string): (r: seq<Value>)
    ensures |r| <= |es|
  {
    if es == [] then []
    else (if es[0].0 == k then [es[0].1] else []) + ValuesFor(es[1..], k)
  }

  /** No value is bound under `k` exactly when no entry has key `k`. */
  lemma {:induction false} ValuesForEmpty(es: seq<(string, Value)>, k: string)
    ensures ValuesFor(es, k) == [] <==> forall e :: e in es ==> e.0 != k
  {
    if es != [] {
      ValuesForEmpty(es[1..], k);
      assert forall e :: e in es <==> e == es[0] || e in es[1..];
    }
  }

  /** The keys of `es`, each once, in order of first appearance (see
      `FirstSeenOrder`): the order in which the loop creates the lists of
      `config_values`, which is the iteration order of that dict. */
  function FirstSeen(es: seq<(string, Value)>): (r: seq<string>)
    ensures forall k :: k in r <==> exists e :: e in es && e.0 == k
    ensures forall i, j :: 0 <= i < j < |r| ==> r[i] != r[j]
  {
    if es == [] then []
    else
      var last := es[|es| - 1];
      var r := FirstSeen(es[..|es| - 1]);
      assert forall e :: e in es <==> e == last || e in es[..|es| - 1] by {
        assert es == es[..|es| - 1] + [last];
      }
      if last.0 in r then r else r + [last.0]
  }

  /** The index of the first entry of `es` with key `k`, or `|es|` when no
      entry has it. */
  function FirstIndex(es: seq<(string, Value)>, k: string): (r: nat)
    ensures r <= |es|
    ensures r < |es| ==> es[r].0 == k
    ensures forall i :: 0 <= i < r ==> es[i].0 != k
  {
    if es == [] then 0
    else if es[0].0 == k then 0
    else
      var r := 1 + FirstIndex(es[1..], k);
      assert forall i :: 1 <= i < r ==> es[i] == es[1..][i - 1];
      r
  }

  /** Appending an entry keeps the first index of every key already present
      and gives a new key the index of that entry. */
  lemma FirstIndexSnoc(p: seq<(string, Value)>, e: (string, Value), k: string)
    ensures FirstIndex(p, k) < |p| ==> FirstIndex(p + [e], k) == FirstIndex(p, k)
    ensures FirstIndex(p, k) == |p| && e.0 == k ==> FirstIndex(p + [e], k) == |p|
  {
    var x, y := FirstIndex(p + [e], k), FirstIndex(p, k);
    assert forall i :: 0 <= i < |p| ==> (p + [e])[i] == p[i];
    if y < |p| {
      assert (p + [e])[y] == p[y];
    } else if e.0 == k {
      assert (p + [e])[|p|] == e;
    }
  }

  /** A key that some entry has has a first index inside `es`. */
  lemma FirstIndexPresent(es: seq<(string, Value)>, k: string)
    requires exists e :: e in es && e.0 == k
    ensures FirstIndex(es, k) < |es|
  {
    var e :| e in es && e.0 == k;
    var a :| 0 <= a < |es| && es[a] == e;
  }

  /** `FirstSeen` lists the keys in the order of their first entries: the
      order in which the loop creates the lists of `config_values`. */
  lemma {:induction false} FirstSeenOrder(es: seq<(string, Value)>, i: nat, j: nat)
    requires i < j < |FirstSeen(es)|
    ensures FirstIndex(es, FirstSeen(es)[i]) < FirstIndex(es, FirstSeen(es)[j])
  {
    var p, last := es[..|es| - 1], es[|es| - 1];
    assert es == p + [last];
    var rp, r := FirstSeen(p), FirstSeen(es);
    assert r[i] == rp[i] && rp[i] in rp;
    FirstIndexPresent(p, rp[i]);
    FirstIndexSnoc(p, last, rp[i]);
    if j < |rp| {
      assert r[j] == rp[j] && rp[j] in rp;
      FirstIndexPresent(p, rp[j]);
      FirstIndexSnoc(p, last, rp[j]);
      FirstSeenOrder(p, i, j);
    } else {
      assert r[j] == last.0 && last.0 !in rp;
      FirstIndexSnoc(p, last, last.0);
    }
  }

  /** The total length of the lists stored under `ks`. */
  function SumLengths(m: map<string, seq<Value>>, ks: seq<string>): nat
  {
    if ks == [] then 0 else |Lookup(m, ks[0])| + SumLengths(m, ks[1..])
  }

  /** Some dict visited by the extractor binds the entry `e`: it is a dict
      cell of the closure of a `config` decorator of a function's `resolve`
      list. */
  ghost predicate Visited(functions: Module, e: (string, Value))
  {
    exists f, d, c ::
      f in functions && d in Resolvers(f.1) && d.ConfigDec? && d.closure.Some? &&
      c in d.closure.value && c.DictCell? && e in c.entries
  }

  /** Some `config` decorator of a function's `resolve` list reports `k` as used. */
  ghost predicate Used(functions: Module, k: string)
  {
    exists f, d :: f in functions && d in Resolvers(f.1) && d.ConfigDec? && k in d.configUsed
  }

  // ---------------------------------------------------------------------------
  // Membership in the flattened sequences
  // ---------------------------------------------------------------------------

  lemma {:induction false} ConfigDecoratorsMembers(ds: seq<Decorator>, d: Decorator)
    ensures d in ConfigDecorators(ds) <==> d in ds && d.ConfigDec?
  {
    if ds != [] {
      ConfigDecoratorsMembers(ds[1..], d);
      assert d in ds <==> d == ds[0] || d in ds[1..];
    }
  }

  lemma {:induction false} ModuleDecoratorsMembers(functions: Module, d: Decorator)
    ensures d in ModuleDecorators(functions)
        <==> exists f :: f in functions && d in Resolvers(f.1) && d.ConfigDec?
  {
    if functions != [] {
      ConfigDecoratorsMembers(Resolvers(functions[0].1), d);
      ModuleDecoratorsMembers(functions[1..], d);
      assert forall f :: f in functions <==> f == functions[0] || f in functions[1..];
    }
  }

  lemma {:induction false} ConfigsUsedMembers(decs: seq<Decorator>, k: string)
    ensures k in ConfigsUsed(decs) <==> exists d :: d in decs && d.ConfigDec? && k in d.configUsed
  {
    if decs != [] {
      ConfigsUsedMembers(decs[1..], k);
      assert forall d :: d in decs <==> d == decs[0] || d in decs[1..];
    }
  }

  lemma {:induction false} CellEntriesMembers(cells: seq<Cell>, e: (string, Value))
    ensures e in CellEntries(cells) <==> exists c :: c in cells && c.DictCell? && e in c.entries
  {
    if cells != [] {
      CellEntriesMembers(cells[1..], e);
      assert forall c :: c in cells <==> c == cells[0] || c in cells[1..];
    }
  }

  lemma {:induction false} BoundEntriesMembers(decs: seq<Decorator>, e: (string, Value))
    ensures e in BoundEntries(decs) <==> exists d :: d in decs && e in CellEntries(Closure(d))
  {
    if decs != [] {
      BoundEntriesMembers(decs[1..], e);
      assert forall d :: d in decs <==> d == decs[0] || d in decs[1..];
    }
  }

  /** The flattened entries are exactly the entries of the visited dicts. */
  lemma VisitedEntries(functions: Module, e: (string, Value))
    ensures e in BoundEntries(ModuleDecorators(functions)) <==> Visited(functions, e)
  {
    var decs := ModuleDecorators(functions);
    BoundEntriesMembers(decs, e);
    if e in BoundEntries(decs) {
      var d :| d in decs && e in CellEntries(Closure(d));
      ModuleDecoratorsMembers(functions, d);
      CellEntriesMembers(Closure(d), e);
      var f :| f in functions && d in Resolvers(f.1) && d.ConfigDec?;
      var c :| c in Closure(d) && c.DictCell? && e in c.entries;
      assert d.closure.Some? && c in d.closure.value;
    }
    if Visited(functions, e) {
      var f, d, c :| f in functions && d in Resolvers(f.1) && d.ConfigDec? && d.closure.Some? &&
        c in d.closure.value && c.DictCell? && e in c.entries;
      ModuleDecoratorsMembers(functions, d);
      CellEntriesMembers(Closure(d), e);
    }
  }

  // ---------------------------------------------------------------------------
  // The dict of lists built by the innermost loop
  // ---------------------------------------------------------------------------

  lemma LookupAppend(m: map<string, seq<Value>>, key: string, v: Value, k: string)
    ensures Lookup(Append(m, key, v), k) == Lookup(m, k) + (if key == k then [v] else [])
    ensures k in Append(m, key, v) <==> k in m || key == k
  {
    assert Lookup(m, k) + [] == Lookup(m, k);
  }

  /** After appending the entries `es` to `m`, the list under every key `k`
      is the old list followed by exactly the values bound under `k` in `es`,
      in order. */
  lemma {:induction false} GroupedValues(m: map<string, seq<Value>>, es: seq<(string, Value)>, k: string)
    decreases es
    ensures Lookup(Grouped(m, es), k) == Lookup(m, k) + ValuesFor(es, k)
  {
    if es == [] {
      assert Lookup(m, k) + [] == Lookup(m, k);
    } else {
      var m' := Append(m, es[0].0, es[0].1);
      var head := if es[0].0 == k then [es[0].1] else [];
      var before, rest := Lookup(m, k), ValuesFor(es[1..], k);
      assert Grouped(m, es) == Grouped(m', es[1..]);
      assert ValuesFor(es, k) == head + rest;
      GroupedValues(m', es[1..], k);
      LookupAppend(m, es[0].0, es[0].1, k);
      assert (before + head) + rest == before + (head + rest);
    }
  }

  /** A key is present after appending the entries `es` iff it was present
      before or some entry binds it. */
  lemma {:induction false} GroupedKeys(m: map<string, seq<Value>>, es: seq<(string, Value)>, k: string)
    decreases es
    ensures k in Grouped(m, es) <==> k in m || exists e :: e in es && e.0 == k
  {
    if es != [] {
      GroupedKeys(Append(m, es[0].0, es[0].1), es[1..], k);
      assert forall e :: e in es <==> e == es[0] || e in es[1..];
    }
  }

  /** Appending a value under one key never changes the list of another. */
  lemma OtherKeysUnchanged(m: map<string, seq<Value>>, es: seq<(string, Value)>, k: string, v: Value, other: string)
    requires other != k
    ensures Lookup(Grouped(m, es + [(k, v)]), other) == Lookup(Grouped(m, es), other)
  {
    GroupedAppend(m, es, [(k, v)]);
    assert Grouped(Grouped(m, es), [(k, v)]) == Append(Grouped(m, es), k, v);
  }

  /** Appending `v` under `k` adds one to the total length over distinct
      keys `ks` when `k` is one of them, and nothing otherwise. */
  lemma {:induction false} SumLengthsAppend(m: map<string, seq<Value>>, k: string, v: Value, ks: seq<string>)
    requires forall i, j :: 0 <= i < j < |ks| ==> ks[i] != ks[j]
    ensures SumLengths(Append(m, k, v), ks) == SumLengths(m, ks) + (if k in ks then 1 else 0)
  {
    if ks != [] {
      SumLengthsAppend(m, k, v, ks[1..]);
      assert k in ks <==> k == ks[0] || k in ks[1..];
      assert ks[0] !in ks[1..] by {
        forall j | 0 <= j < |ks[1..]| ensures ks[1..][j] != ks[0] {
          assert ks[1..][j] == ks[j + 1];
        }
      }
    }
  }

  lemma {:induction false} SumLengthsSnoc(m: map<string, seq<Value>>, ks: seq<string>, k: string)
    ensures SumLengths(m, ks + [k]) == SumLengths(m, ks) + |Lookup(m, k)|
  {
    if ks == [] {
      assert [] + [k] == [k];
    } else {
      assert (ks + [k])[1..] == ks[1..] + [k];
      SumLengthsSnoc(m, ks[1..], k);
    }
  }

  /** Over the keys in first-seen order, the lists built from `es` hold
      exactly `|es|` values between them: one per entry. */
  lemma {:induction false} GroupedTotal(es: seq<(string, Value)>)
    ensures SumLengths(Grouped(map[], es), FirstSeen(es)) == |es|
  {
    if es != [] {
      var p, e := es[..|es| - 1], es[|es| - 1];
      assert es == p + [e];
      GroupedTotal(p);
      var g := Grouped(map[], p);
      GroupedAppend(map[], p, [e]);
      assert Grouped(map[], es) == Append(g, e.0, e.1);
      SumLengthsAppend(g, e.0, e.1, FirstSeen(p));
      if e.0 !in FirstSeen(p) {
        SumLengthsSnoc(Append(g, e.0, e.1), FirstSeen(p), e.0);
        GroupedKeys(map[], p, e.0);
        assert Lookup(g, e.0) == [];
      }
    }
  }

  // ---------------------------------------------------------------------------
  // Properties of find_configurations
  // ---------------------------------------------------------------------------

  /** `configurations` holds a key iff some `config` decorator of the module
      reports it as used. */
  lemma ConfigurationsByKey(functions: Module, k: string)
    requires Extract(functions).Ok?
    ensures k in Extract(functions).value.configurations <==> Used(functions, k)
  {
    var decs := ModuleDecorators(functions);
    ConfigsUsedMembers(decs, k);
    if k in ConfigsUsed(decs) {
      var d :| d in decs && d.ConfigDec? && k in d.configUsed;
      ModuleDecoratorsMembers(functions, d);
    }
    if Used(functions, k) {
      var f, d :| f in functions && d in Resolvers(f.1) && d.ConfigDec? && k in d.configUsed;
      ModuleDecoratorsMembers(functions, d);
    }
  }

  /** `config_values[k]` is every value bound under `k`, whole and in
      traversal order (function, decorator, closure cell, dict entry); `k`
      is a key iff some visited dict binds it, and its list is never empty. */
  lemma ConfigValuesByKey(functions: Module, k: string)
    requires Extract(functions).Ok?
    ensures Lookup(Extract(functions).value.configValues, k)
         == ValuesFor(BoundEntries(ModuleDecorators(functions)), k)
    ensures k in Extract(functions).value.configValues <==> exists v :: Visited(functions, (k, v))
    ensures k in Extract(functions).value.configValues ==> Extract(functions).value.configValues[k] != []
  {
    var es := BoundEntries(ModuleDecorators(functions));
    GroupedValues(map[], es, k);
    GroupedKeys(map[], es, k);
    ValuesForEmpty(es, k);
    if k in Grouped(map[], es) {
      var e :| e in es && e.0 == k;
      VisitedEntries(functions, e);
      assert Visited(functions, (k, e.1));
    }
    if exists v :: Visited(functions, (k, v)) {
      var v :| Visited(functions, (k, v));
      VisitedEntries(functions, (k, v));
    }
  }

  /** The number of values stored in `config_values`, summed over its keys
      (taken in the dict's own order), is the number of entries of the
      visited dicts. */
  lemma ValueCount(functions: Module)
    requires Extract(functions).Ok?
    ensures var es := BoundEntries(ModuleDecorators(functions));
            var cv := Extract(functions).value.configValues;
            && (forall k :: k in FirstSeen(es) <==> k in cv)
            && SumLengths(cv, FirstSeen(es)) == |es|
  {
    var es := BoundEntries(ModuleDecorators(functions));
    GroupedTotal(es);
    forall k {
      GroupedKeys(map[], es, k);
    }
  }

  lemma AllReflectableAppend(a: seq<Decorator>, b: seq<Decorator>)
    ensures AllReflectable(a + b) <==> AllReflectable(a) && AllReflectable(b)
  {
    assert forall d :: d in a + b <==> d in a || d in b;
  }

  /** Grouping two runs of entries one after the other: every list is the
      first run's values followed by the second's. */
  lemma GroupedConcat(ea: seq<(string, Value)>, eb: seq<(string, Value)>, k: string)
    ensures Lookup(Grouped(map[], ea + eb), k) == Lookup(Grouped(map[], ea), k) + Lookup(Grouped(map[], eb), k)
  {
    GroupedAppend(map[], ea, eb);
    GroupedValues(Grouped(map[], ea), eb, k);
    GroupedValues(map[], eb, k);
    assert Lookup(map[], k) == [];
  }

  /** Scanning two modules one after the other: an error in either is an
      error; otherwise `configurations` concatenate and every list of
      `config_values` is the first module's followed by the second's. */
  lemma ExtractAppend(a: Module, b: Module)
    ensures Extract(a + b).Ok? <==> Extract(a).Ok? && Extract(b).Ok?
    ensures Extract(a + b).Ok? ==>
      && Extract(a + b).value.configurations
         == Extract(a).value.configurations + Extract(b).value.configurations
      && (forall k ::
            Lookup(Extract(a + b).value.configValues, k)
            == Lookup(Extract(a).value.configValues, k) + Lookup(Extract(b).value.configValues, k))
  {
    var da, db := ModuleDecorators(a), ModuleDecorators(b);
    ModuleDecoratorsAppend(a, b);
    AllReflectableAppend(da, db);
    if Extract(a + b).Ok? {
      ConfigsUsedAppend(da, db);
      assert [] + ConfigsUsed(da + db) == ([] + ConfigsUsed(da)) + ([] + ConfigsUsed(db));
      BoundEntriesAppend(da, db);
      forall k
        ensures Lookup(Extract(a + b).value.configValues, k)
             == Lookup(Extract(a).value.configValues, k) + Lookup(Extract(b).value.configValues, k)
      {
        GroupedConcat(BoundEntries(da), BoundEntries(db), k);
      }
    }
  }

  /** A function without a `resolve` attribute, or with an empty one, adds
      nothing to either result wherever it stands in the module. */
  lemma UndecoratedAddsNothing(before: Module, f: (string, Fn), after: Module)
    requires f.1.resolve.None? || f.1.resolve == Some([])
    ensures Extract(before + [f] + after) == Extract(before + after)
  {
    ModuleDecoratorsAppend(before + [f], after);
    ModuleDecoratorsAppend(before, [f]);
    ModuleDecoratorsAppend(before, after);
    assert ModuleDecorators([f]) == [];
    assert ModuleDecorators(before) + [] == ModuleDecorators(before);
  }

  /** A resolver decorator that is not a `config` decorator is skipped: it
      changes neither result. */
  lemma OtherDecoratorSkipped(before: Module, name: string, ds1: seq<Decorator>, ds2: seq<Decorator>, after: Module)
    ensures Extract(before + [(name, Fn(Some(ds1 + [Other] + ds2)))] + after)
         == Extract(before + [(name, Fn(Some(ds1 + ds2)))] + after)
  {
    var with, without := (name, Fn(Some(ds1 + [Other] + ds2))), (name, Fn(Some(ds1 + ds2)));
    ConfigDecoratorsAppend(ds1 + [Other], ds2);
    ConfigDecoratorsAppend(ds1, [Other]);
    ConfigDecoratorsAppend(ds1, ds2);
    assert ConfigDecorators([Other]) == [];
    assert ConfigDecorators(ds1) + [] == ConfigDecorators(ds1);
    assert ModuleDecorators([with]) == ConfigDecorators(ds1 + [Other] + ds2) + [];
    assert ModuleDecorators([without]) == ConfigDecorators(ds1 + ds2) + [];
    ModuleDecoratorsAppend(before + [with], after);
    ModuleDecoratorsAppend(before, [with]);
    ModuleDecoratorsAppend(before + [without], after);
    ModuleDecoratorsAppend(before, [without]);
  }

  /** A `config` decorator whose resolver has no closure, or has a closure
      cell that is not a `DictCell`, makes the whole call fail, whatever else the
      module holds: its keys are never silently dropped. */
  lemma MalformedFails(functions: Module, i: nat, j: nat)
    requires i < |functions| && j < |Resolvers(functions[i].1)|
    requires Resolvers(functions[i].1)[j].ConfigDec?
    requires !Reflectable(Resolvers(functions[i].1)[j])
    ensures Extract(functions) == Err(MalformedMetadata)
  {
    var d := Resolvers(functions[i].1)[j];
    assert functions[i] in functions && d in Resolvers(functions[i].1);
    ModuleDecoratorsMembers(functions, d);
  }

  /** Conversely, when every `config` decorator of every function can be
      opened, the call succeeds: `MalformedFails` names the only failures. */
  lemma ReflectableSucceeds(functions: Module)
    requires forall f, d :: f in functions && d in Resolvers(f.1) ==> Reflectable(d)
    ensures Extract(functions).Ok?
  {
    forall d | d in ModuleDecorators(functions)
      ensures Reflectable(d)
    {
      ModuleDecoratorsMembers(functions, d);
    }
  }

  /** A `config` decorator reports as used exactly the keys its closure binds
      (the shape of `config.when_in(key=values)`). */
  ghost predicate ReportsBoundKeys(d: Decorator)
  {
    d.ConfigDec? && forall k :: k in d.configUsed <==> exists v :: (k, v) in CellEntries(Closure(d))
  }

  /** When every `config` decorator reports exactly the keys its closure
      binds, the keys of `config_values` are the set of `configurations`. */
  lemma UsedKeysAreBoundKeys(functions: Module)
    requires Extract(functions).Ok?
    requires forall d :: d in ModuleDecorators(functions) ==> ReportsBoundKeys(d)
    ensures forall k :: k in Extract(functions).value.configurations
                    <==> k in Extract(functions).value.configValues
  {
    var decs := ModuleDecorators(functions);
    var es := BoundEntries(decs);
    forall k
      ensures k in ConfigsUsed(decs) <==> k in Grouped(map[], es)
    {
      ConfigsUsedMembers(decs, k);
      GroupedKeys(map[], es, k);
      if k in ConfigsUsed(decs) {
        var d :| d in decs && d.ConfigDec? && k in d.configUsed;
        var v :| (k, v) in CellEntries(Closure(d));
        BoundEntriesMembers(decs, (k, v));
      }
      if k in Grouped(map[], es) {
        var e :| e in es && e.0 == k;
        BoundEntriesMembers(decs, e);
        var d :| d in decs && e in CellEntries(Closure(d));
        assert (k, e.1) in CellEntries(Closure(d));
      }
    }
  }

  /** Both accumulators are local to the call and the module is only read,
      so two calls on the same module return equal results. */
  method FindConfigurationsTwice(functions: Module) returns (first: Result<Extraction, Error>, second: Result<Extraction, Error>)
    ensures first == second
  {
    first := FindConfigurations(functions);
    second := FindConfigurations(functions);
  }
}
