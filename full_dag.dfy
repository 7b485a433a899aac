/**
  The module scanned by the `__main__` block of utils/config.py:
  ml_project/phase4/full_dag.py, whose eight functions each carry one
  `@config.when_in(mode=[...])`. Its `@load_from` and `@extract_fields`
  decorators are not resolvers and do not appear in `resolve`.
 */
module FullDag {
  import opened Wrappers
  import opened Metadata
  import opened Config
  import ConfigProperties

  const Training: Value := Items([Text("training")])
  const Inference: Value := Items([Text("inference")])
  const Both: Value := Items([Text("training"), Text("inference")])

  /** A function decorated with `@config.when_in(mode=values)`: a `config`
      decorator that uses the key `mode` and whose resolver closes over the
      keyword dict `{"mode": values}`. */
  function WhenInMode(name: string, values: Value): (string, Fn)
  {
    (name, Fn(Some([ConfigDec(["mode"], Some([DictCell([("mode", values)])]))])))
  }

  /** Functions each gated on `mode`, one per (name, bound value) pair. */
  function GatedOnMode(ps: seq<(string, Value)>): Module
  {
    if ps == [] then [] else [WhenInMode(ps[0].0, ps[0].1)] + GatedOnMode(ps[1..])
  }

  /** The bound values of `ps`, in order. */
  function BoundValues(ps: seq<(string, Value)>): seq<Value>
  {
    seq(|ps|, i requires 0 <= i < |ps| => ps[i].1)
  }

  /** `mode` repeated `n` times. */
  function ModeTimes(n: nat): seq<string>
  {
    seq(n, _ => "mode")
  }

  /** Scanning one function gated on `mode`: `mode` is used once and its
      list holds the one bound value. */
  lemma WhenInModeExtraction(name: string, values: Value)
    ensures Extract([WhenInMode(name, values)]) == Ok(Extraction(["mode"], map["mode" := [values]]))
  {
    var d := ConfigDec(["mode"], Some([DictCell([("mode", values)])]));
    var e := ("mode", values);
    assert [WhenInMode(name, values)][1..] == [] && [d][1..] == [] && [e][1..] == [];
    assert ModuleDecorators([WhenInMode(name, values)]) == [d] by {
      assert ConfigDecorators([d]) == [d] + ConfigDecorators([]);
    }
    assert ConfigsUsed([d]) == ["mode"] + ConfigsUsed([]);
    assert BoundEntries([d]) == [e] by {
      assert CellEntries(Closure(d)) == [e] + CellEntries([]);
    }
    assert AllReflectable([d]) by {
      assert [d][0] == d;
    }
    assert Lookup(map[], "mode") == [] && [] + [values] == [values];
    assert Append(map[], "mode", values) == map["mode" := [values]];
    assert Grouped(map[], [e]) == Grouped(map["mode" := [values]], []);
    assert ConfigsUsed([d]) == ["mode"] && [] + ["mode"] == ["mode"];
  }

  /** Scanning functions that are each gated on `mode` alone: `mode` is used
      once per function and its list holds every bound value in order; no
      other key gets a list. */
  lemma {:induction false} GatedOnModeExtraction(ps: seq<(string, Value)>)
    ensures Extract(GatedOnMode(ps)).Ok?
    ensures Extract(GatedOnMode(ps)).value.configurations == ModeTimes(|ps|)
    ensures forall k :: Lookup(Extract(GatedOnMode(ps)).value.configValues, k)
                     == if k == "mode" then BoundValues(ps) else []
    ensures Extract(GatedOnMode(ps)).value.configValues.Keys <= {"mode"}
  {
    if ps == [] {
      AccumulateNothing(Extraction([], map[]));
    } else {
      var first := [WhenInMode(ps[0].0, ps[0].1)];
      WhenInModeExtraction(ps[0].0, ps[0].1);
      GatedOnModeExtraction(ps[1..]);
      ConfigProperties.ExtractAppend(first, GatedOnMode(ps[1..]));
      assert ModeTimes(|ps|) == ["mode"] + ModeTimes(|ps| - 1);
      assert BoundValues(ps) == [ps[0].1] + BoundValues(ps[1..]);
    }
    forall k | k in Extract(GatedOnMode(ps)).value.configValues
      ensures k == "mode"
    {
      ConfigProperties.ConfigValuesByKey(GatedOnMode(ps), k);
    }
  }

  /** The functions of full_dag.py in the order the scan meets them:
      `graph_utils.find_functions` lists a module's functions by name
      (through `inspect.getmembers`), not in declaration order. */
  const Enumerated: seq<(string, Value)> := [
    ("X__inference", Inference),
    ("X__training", Training),
    ("accuracy", Training),
    ("dataset", Both),
    ("features_and_target", Training),
    ("predictions", Both),
    ("processed_inference_dataset", Inference),
    ("train_test_split_data", Training)
  ]

  /** Scanning full_dag.py: `mode` is used eight times (printed as the set
      `{'mode'}`), and `config_values` maps `mode`, its only key, to the eight
      bound lists in function-name order, each kept whole. */
  lemma Phase4Extraction()
    ensures Extract(GatedOnMode(Enumerated)) == Ok(Extraction(
      ["mode", "mode", "mode", "mode", "mode", "mode", "mode", "mode"],
      map["mode" := [Inference, Training, Training, Both, Training, Both, Inference, Training]]))
  {
    var functions := GatedOnMode(Enumerated);
    GatedOnModeExtraction(Enumerated);
    var cv := Extract(functions).value.configValues;
    assert BoundValues(Enumerated) == [Inference, Training, Training, Both, Training, Both, Inference, Training];
    assert Lookup(cv, "mode") == BoundValues(Enumerated) != [];
    assert cv.Keys == {"mode"};
    assert ModeTimes(|Enumerated|) == ["mode", "mode", "mode", "mode", "mode", "mode", "mode", "mode"];
    assert cv == map["mode" := BoundValues(Enumerated)];
  }
}
