/** Layer configuration and chunking (tilequeue/utils.py): `LayerConfig`
    indexes the layer data by name and lists it in sorted-name order,
    `parse_layer_spec` turns a comma-separated request into layer data, and
    `grouper` cuts a sequence into chunks. */
module Utils {
  import opened Common
  import opened Strings

  /** A layer datum: its `name` and its other entries, opaque here. */
  datatype LayerDatum = LayerDatum(name: string, options: map<string, string>)

  /** `dict((d['name'], d) for d in data)`: a later datum with the same name
      replaces an earlier one. */
  function ByName(data: seq<LayerDatum>): (m: map<string, LayerDatum>)
    ensures forall k :: k in m ==> m[k].name == k && m[k] in data
    ensures forall d :: d in data ==> d.name in m
  {
    if data == [] then map[]
    else
      var d := data[|data| - 1];
      var m := ByName(data[..|data| - 1]);
      assert forall e :: e in data[..|data| - 1] ==> e in data;
      assert forall e :: e in data ==> e in data[..|data| - 1] || e == d;
      m[d.name := d]
  }

  /** The datum a name maps to is the last one with that name. */
  lemma {:induction false} ByNameLastWins(data: seq<LayerDatum>, i: nat)
    requires i < |data| && forall j :: i < j < |data| ==> data[j].name != data[i].name
    ensures data[i].name in ByName(data) && ByName(data)[data[i].name] == data[i]
  {
    if i < |data| - 1 {
      var init := data[..|data| - 1];
      assert forall j :: i < j < |init| ==> init[j] == data[j];
      ByNameLastWins(init, i);
    }
  }

  /** A `LayerConfig` object; its fields are set once, by its constructor. */
  datatype LayerConfig = LayerConfig(allLayerNames: seq<string>, layerData: seq<LayerDatum>,
                                     layerDataByName: map<string, LayerDatum>, allLayers: seq<LayerDatum>)

  /** `LayerConfig(all_layer_names, layer_data)`; `None` stands for the
      KeyError raised when a name in `all_layer_names` has no datum. */
  function MakeLayerConfig(allLayerNames: seq<string>, layerData: seq<LayerDatum>): (r: Option<LayerConfig>)
    ensures r.None? <==> exists x :: x in allLayerNames && x !in ByName(layerData)
  {
    var names := Sort(allLayerNames);
    var byName := ByName(layerData);
    assert forall x :: x in names <==> x in allLayerNames by {
      assert forall x :: x in names <==> x in multiset(names);
    }
    if forall x :: x in names ==> x in byName then
      Some(LayerConfig(names, layerData, byName, seq(|names|, i requires 0 <= i < |names| => byName[names[i]])))
    else None
  }

  /** What the constructor guarantees of a `LayerConfig`. */
  ghost predicate ValidConfig(cfg: LayerConfig)
  {
    && cfg.layerDataByName == ByName(cfg.layerData)
    && |cfg.allLayers| == |cfg.allLayerNames|
    && forall i :: 0 <= i < |cfg.allLayers| ==>
         cfg.allLayerNames[i] in cfg.layerDataByName && cfg.allLayers[i] == cfg.layerDataByName[cfg.allLayerNames[i]]
  }

  /** `all_layers` holds one datum per name of `all_layer_names`, in sorted
      order of the names, each the datum of that name. */
  lemma LayerConfigShape(allLayerNames: seq<string>, layerData: seq<LayerDatum>)
    requires MakeLayerConfig(allLayerNames, layerData).Some?
    ensures var cfg := MakeLayerConfig(allLayerNames, layerData).value;
      && ValidConfig(cfg)
      && Sorted(cfg.allLayerNames) && multiset(cfg.allLayerNames) == multiset(allLayerNames)
      && |cfg.allLayers| == |allLayerNames|
      && forall i :: 0 <= i < |cfg.allLayers| ==>
           cfg.allLayers[i].name == cfg.allLayerNames[i] && cfg.allLayers[i] in layerData
  {
    SortSorted(allLayerNames);
  }

  /** The names of a list of layer data. */
  function Names(data: seq<LayerDatum>): (ns: seq<string>)
    ensures |ns| == |data| && forall i :: 0 <= i < |data| ==> ns[i] == data[i].name
  {
    seq(|data|, i requires 0 <= i < |data| => data[i].name)
  }

  /** The names the `all` entry of a spec stands for. */
  ghost function AllNames(cfg: LayerConfig): set<string>
  {
    set i | 0 <= i < |cfg.allLayers| :: cfg.allLayers[i].name
  }

  /** The layers a spec other than `all` asks for: the names it lists and,
      if it lists `all`, every configured layer, but never `all` itself. */
  ghost function Wanted(spec: string, cfg: LayerConfig): set<string>
  {
    var listed := Split(spec, ',');
    (Elements(listed) + (if "all" in listed then AllNames(cfg) else {})) - {"all"}
  }

  /** `ns` with every `all` dropped. */
  function WithoutAll(ns: seq<string>): (r: seq<string>)
    ensures Elements(r) == Elements(ns) - {"all"}
  {
    if ns == [] then []
    else
      var init := ns[..|ns| - 1];
      assert ns == init + [ns[|ns| - 1]];
      var tail := if ns[|ns| - 1] == "all" then [] else [ns[|ns| - 1]];
      ElementsAppend(init, [ns[|ns| - 1]]);
      ElementsAppend(WithoutAll(init), tail);
      WithoutAll(init) + tail
  }

  lemma {:induction false} WithoutAllSorted(ns: seq<string>)
    requires StrictlySorted(ns)
    ensures StrictlySorted(WithoutAll(ns))
  {
    if ns != [] {
      var init := ns[..|ns| - 1];
      var last := ns[|ns| - 1];
      WithoutAllSorted(init);
      var w := WithoutAll(init);
      forall k | 0 <= k < |w|
        ensures Less(w[k], last)
      {
        assert w[k] in Elements(w);
        var j :| 0 <= j < |init| && init[j] == w[k];
      }
    }
  }

  /** On a configuration its constructor built, the layers `all` stands
      for are all known. */
  lemma AllNamesKnown(cfg: LayerConfig)
    requires ValidConfig(cfg)
    ensures forall n :: n in AllNames(cfg) ==> n in cfg.layerDataByName && cfg.layerDataByName[n].name == n
  {
    forall n | n in AllNames(cfg)
      ensures n in cfg.layerDataByName && cfg.layerDataByName[n].name == n
    {
      var i :| 0 <= i < |cfg.allLayers| && cfg.allLayers[i].name == n;
    }
  }

  /** The first loop of `parse_layer_spec`: the set of names listed, with
      `all` standing also for every configured layer. */
  method CollectNames(listed: seq<string>, cfg: LayerConfig) returns (unique: set<string>)
    ensures unique == Elements(listed) + (if "all" in listed then AllNames(cfg) else {})
  {
    unique := {};
    for i := 0 to |listed|
      invariant unique == Elements(listed[..i]) + (if "all" in listed[..i] then AllNames(cfg) else {})
    {
      assert listed[..i + 1] == listed[..i] + [listed[i]];
      if listed[i] == "all" {
        if "all" !in unique {
          ghost var before := unique;
          for k := 0 to |cfg.allLayers|
            invariant unique == before + set j | 0 <= j < k :: cfg.allLayers[j].name
          {
            unique := unique + {cfg.allLayers[k].name};
          }
        }
      }
      unique := unique + {listed[i]};
    }
    assert listed[..|listed|] == listed;
  }

  /** `sorted(names)` on a set: its elements in increasing order, taking
      the least remaining name again and again. */
  method SortedNames(names: set<string>) returns (sorted: seq<string>)
    ensures StrictlySorted(sorted) && Elements(sorted) == names
  {
    var rest := names;
    sorted := [];
    while rest != {}
      invariant Elements(sorted) + rest == names
      invariant StrictlySorted(sorted)
      invariant forall a, b :: a in sorted && b in rest ==> Less(a, b)
      decreases |rest|
    {
      HasLeast(rest);
      var x :| x in rest && forall y :: y in rest ==> LessEq(x, y);
      AppendGreatest(sorted, rest, x);
      ElementsAppend(sorted, [x]);
      sorted := sorted + [x];
      rest := rest - {x};
    }
  }

  /** One step of `SortedNames`: the least remaining name goes last. */
  lemma AppendGreatest(sorted: seq<string>, rest: set<string>, x: string)
    requires StrictlySorted(sorted)
    requires forall a, b :: a in sorted && b in rest ==> Less(a, b)
    requires x in rest && forall y :: y in rest ==> LessEq(x, y)
    ensures StrictlySorted(sorted + [x])
    ensures forall a, b :: a in sorted + [x] && b in rest - {x} ==> Less(a, b)
  {
    var s := sorted + [x];
    forall i, j | 0 <= i < j < |s|
      ensures Less(s[i], s[j])
    {
      if j == |sorted| {
        assert s[i] in sorted;
      }
    }
  }

  /** The last loop of `parse_layer_spec`: the datum of every name but
      `all`, in order, or `None` at the first unknown name. */
  method LookUpNames(sorted: seq<string>, cfg: LayerConfig) returns (r: Option<seq<LayerDatum>>)
    requires ValidConfig(cfg)
    ensures r.None? <==> exists n :: n in sorted && n != "all" && n !in cfg.layerDataByName
    ensures r.Some? ==>
      && Names(r.value) == WithoutAll(sorted)
      && forall i :: 0 <= i < |r.value| ==>
           r.value[i].name in cfg.layerDataByName && r.value[i] == cfg.layerDataByName[r.value[i].name]
  {
    var data: seq<LayerDatum> := [];
    for i := 0 to |sorted|
      invariant Names(data) == WithoutAll(sorted[..i])
      invariant forall k :: 0 <= k < |data| ==>
                  data[k].name in cfg.layerDataByName && data[k] == cfg.layerDataByName[data[k].name]
      invariant forall j :: 0 <= j < i && sorted[j] != "all" ==> sorted[j] in cfg.layerDataByName
    {
      assert sorted[..i + 1][..i] == sorted[..i];
      if sorted[i] == "all" {
        continue;
      }
      if sorted[i] !in cfg.layerDataByName {
        return None;
      }
      data := data + [cfg.layerDataByName[sorted[i]]];
    }
    assert sorted[..|sorted|] == sorted;
    return Some(data);
  }

  /** `parse_layer_spec(layer_spec, layer_config)`. For `all`, the
      configured layers. Otherwise `None` exactly when a listed name other
      than `all` is unknown, and else the data of the wanted layers, one per
      name, in increasing name order. */
  method ParseLayerSpec(spec: string, cfg: LayerConfig) returns (r: Option<seq<LayerDatum>>)
    requires ValidConfig(cfg)
    ensures spec == "all" ==> r == Some(cfg.allLayers)
    ensures spec != "all" ==>
      (r.None? <==> exists n :: n in Split(spec, ',') && n != "all" && n !in cfg.layerDataByName)
    ensures spec != "all" && r.Some? ==>
      && StrictlySorted(Names(r.value))
      && Elements(Names(r.value)) == Wanted(spec, cfg)
      && forall i :: 0 <= i < |r.value| ==>
           r.value[i].name in cfg.layerDataByName && r.value[i] == cfg.layerDataByName[r.value[i].name]
  {
    if spec == "all" {
      return Some(cfg.allLayers);
    }
    var listed := Split(spec, ',');
    var unique := CollectNames(listed, cfg);
    var sorted := SortedNames(unique);
    r := LookUpNames(sorted, cfg);
    AllNamesKnown(cfg);
    if r.Some? {
      WithoutAllSorted(sorted);
      forall n | n in listed && n != "all"
        ensures n in cfg.layerDataByName
      {
        assert n in Elements(sorted);
      }
    } else {
      var n :| n in sorted && n != "all" && n !in cfg.layerDataByName;
      assert n in Elements(sorted);
      assert n in listed;
    }
  }

  /** `grouper(iterable, n)`: consecutive chunks of `n` elements, the last
      one possibly shorter; nothing for an empty input. With `n == 0` the
      first chunk taken is empty, so there are none. */
  method Grouper<T>(xs: seq<T>, n: nat) returns (chunks: seq<seq<T>>)
    ensures n == 0 || xs == [] ==> chunks == []
    ensures n > 0 ==> Flatten(chunks) == xs
    ensures forall i :: 0 <= i < |chunks| ==> 0 < |chunks[i]| <= n
    ensures forall i :: 0 <= i < |chunks| - 1 ==> |chunks[i]| == n
  {
    chunks := [];
    var pos := 0;
    while true
      invariant 0 <= pos <= |xs|
      invariant Flatten(chunks) == xs[..pos]
      invariant n == 0 ==> chunks == []
      invariant forall i :: 0 <= i < |chunks| ==> 0 < |chunks[i]| <= n
      invariant forall i :: 0 <= i < |chunks| - 1 ==> |chunks[i]| == n
      invariant chunks != [] && |chunks[|chunks| - 1]| < n ==> pos == |xs|
      decreases |xs| - pos
    {
      var end := if pos + n <= |xs| then pos + n else |xs|;
      var chunk := xs[pos..end];
      if chunk == [] {
        if n > 0 {
          assert xs[..pos] == xs;
        }
        return;
      }
      FlattenAppend(chunks, chunk);
      assert xs[..end] == xs[..pos] + chunk;
      chunks := chunks + [chunk];
      pos := end;
    }
  }
}
