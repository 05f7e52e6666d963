/** Reading a JSON "tile of record" back into feature layers
    (tilequeue/store.py): `decode_json_tile_for_layers` keeps the requested
    layers, reprojects each feature's geometry and passes its properties
    through `ensure_utf8_properties`, which turns text into UTF-8 byte
    strings. JSON parsing and the geometry library are outside the model:
    the tile arrives parsed, and turning a JSON geometry into a Mercator
    shape is the parameter `toMercator`. */
module JsonTile {
  import opened Common
  import Utf8
  import opened Utils

  /** A property key or value as the JSON decoder returns it: text
      (`unicode`), a byte string (`str`), or any other value (a number, a
      boolean, `null`, a list or an object), which this code never looks
      into. */
  datatype Value = Text(chars: string) | ByteString(bytes: Bytes) | Other(id: int)

  /** `v.encode('utf-8')` when `v` is text; any other value as it is. */
  function EncodeText(v: Value): (r: Value)
    ensures !r.Text?
    ensures v.Text? ==> r.ByteString? && Utf8.Decode(r.bytes) == Some(v.chars)
    ensures !v.Text? ==> r == v
  {
    Utf8.DecodeEncode(if v.Text? then v.chars else []);
    if v.Text? then ByteString(Utf8.Encode(v.chars)) else v
  }

  /** The dictionary `ensure_utf8_properties` builds from the items of
      `props`, taken in order: a later item whose encoded key is the same
      replaces an earlier one. */
  function Utf8Props(items: seq<(Value, Value)>): (m: map<Value, Value>)
    ensures m.Keys == set i | 0 <= i < |items| :: EncodeText(items[i].0)
    ensures forall k :: k in m ==> !k.Text? && !m[k].Text?
  {
    if items == [] then map[]
    else
      var init := items[..|items| - 1];
      var last := items[|items| - 1];
      assert forall i :: 0 <= i < |init| ==> init[i] == items[i];
      Utf8Props(init)[EncodeText(last.0) := EncodeText(last.1)]
  }

  /** Each key holds the encoded value of the last item with that encoded
      key. */
  lemma {:induction false} Utf8PropsLastWins(items: seq<(Value, Value)>, i: nat)
    requires i < |items|
    requires forall j :: i < j < |items| ==> EncodeText(items[j].0) != EncodeText(items[i].0)
    ensures Utf8Props(items)[EncodeText(items[i].0)] == EncodeText(items[i].1)
  {
    if i < |items| - 1 {
      var init := items[..|items| - 1];
      assert forall j :: i < j < |init| ==> init[j] == items[j];
      Utf8PropsLastWins(init, i);
    }
  }

  /** Properties with no text in them come out as they went in. */
  lemma Utf8PropsKeepsBytes(items: seq<(Value, Value)>)
    requires forall i :: 0 <= i < |items| ==> !items[i].0.Text? && !items[i].1.Text?
    requires forall i, j :: 0 <= i < j < |items| ==> items[i].0 != items[j].0
    ensures var m := Utf8Props(items);
      && m.Keys == (set i | 0 <= i < |items| :: items[i].0)
      && forall i :: 0 <= i < |items| ==> m[items[i].0] == items[i].1
  {
    forall i | 0 <= i < |items|
      ensures Utf8Props(items)[items[i].0] == items[i].1
    {
      Utf8PropsLastWins(items, i);
    }
  }

  /** `ensure_utf8_properties(props)`, `props` given by its items. */
  method EnsureUtf8Properties(props: seq<(Value, Value)>) returns (newProps: map<Value, Value>)
    ensures newProps == Utf8Props(props)
  {
    newProps := map[];
    for i := 0 to |props|
      invariant newProps == Utf8Props(props[..i])
    {
      assert props[..i + 1][..i] == props[..i];
      var (k, v) := props[i];
      if k.Text? {
        k := ByteString(Utf8.Encode(k.chars));
      }
      if v.Text? {
        v := ByteString(Utf8.Encode(v.chars));
      }
      newProps := newProps[k := v];
    }
    assert props[..|props|] == props;
  }

  /** A feature of the JSON tile: its geometry and its properties' items. */
  datatype JsonFeature<G> = JsonFeature(geometry: G, properties: seq<(Value, Value)>)

  /** The `(shape, properties, fid)` triple of a decoded feature. */
  datatype Feature<S> = Feature(shape: S, properties: map<Value, Value>, fid: Option<int>)

  /** A decoded layer; `isClipped` is its `layer_datum`'s one entry. */
  datatype FeatureLayer<S> = FeatureLayer(name: string, features: seq<Feature<S>>, isClipped: bool)

  function DecodeFeature<G, S>(f: JsonFeature<G>, toMercator: G -> S): Feature<S>
  {
    Feature(toMercator(f.geometry), Utf8Props(f.properties), None)
  }

  /** A JSON layer's features decoded one by one, in order. */
  function DecodeFeatures<G, S>(fs: seq<JsonFeature<G>>, toMercator: G -> S): (r: seq<Feature<S>>)
    ensures |r| == |fs|
    ensures forall i :: 0 <= i < |fs| ==> r[i] == DecodeFeature(fs[i], toMercator)
  {
    if fs == [] then []
    else DecodeFeatures(fs[..|fs| - 1], toMercator) + [DecodeFeature(fs[|fs| - 1], toMercator)]
  }

  function DecodeLayer<G, S>(item: (string, seq<JsonFeature<G>>), toMercator: G -> S): FeatureLayer<S>
  {
    FeatureLayer(item.0, DecodeFeatures(item.1, toMercator), false)
  }

  /** The decoded layers of the tile's items whose names are kept, in the
      items' order. */
  function DecodeLayers<G, S>(items: seq<(string, seq<JsonFeature<G>>)>, keep: set<string>,
                              toMercator: G -> S): seq<FeatureLayer<S>>
  {
    if items == [] then []
    else
      var init := DecodeLayers(items[..|items| - 1], keep, toMercator);
      var last := items[|items| - 1];
      if last.0 in keep then init + [DecodeLayer(last, toMercator)] else init
  }

  /** The positions of the items whose names are kept, in increasing order. */
  function KeptIndices<G>(items: seq<(string, seq<JsonFeature<G>>)>, keep: set<string>): (r: seq<nat>)
    ensures forall k :: 0 <= k < |r| ==> r[k] < |items| && items[r[k]].0 in keep
    ensures forall k, l :: 0 <= k < l < |r| ==> r[k] < r[l]
    ensures forall i :: 0 <= i < |items| && items[i].0 in keep ==> i in r
  {
    if items == [] then []
    else
      var init := KeptIndices(items[..|items| - 1], keep);
      if items[|items| - 1].0 in keep then init + [|items| - 1] else init
  }

  /** The decoded layers are exactly the items whose names are kept, each
      in its place in the tile's order; each keeps its name and its number
      of features, every feature's shape is its reprojected geometry, its
      properties are `ensure_utf8_properties` of its own and its id is
      `None`, and no layer is marked clipped. */
  lemma {:induction false} DecodeLayersSelect<G, S>(items: seq<(string, seq<JsonFeature<G>>)>, keep: set<string>,
                                                    toMercator: G -> S)
    ensures var r := DecodeLayers(items, keep, toMercator);
      var idx := KeptIndices(items, keep);
      && |r| == |idx|
      && forall k :: 0 <= k < |r| ==>
           && r[k] == DecodeLayer(items[idx[k]], toMercator)
           && r[k].name == items[idx[k]].0 && r[k].name in keep
           && |r[k].features| == |items[idx[k]].1|
           && !r[k].isClipped
           && forall j :: 0 <= j < |r[k].features| ==>
                && r[k].features[j].fid == None
                && r[k].features[j].shape == toMercator(items[idx[k]].1[j].geometry)
                && r[k].features[j].properties == Utf8Props(items[idx[k]].1[j].properties)
  {
    if items != [] {
      var init := items[..|items| - 1];
      DecodeLayersSelect(init, keep, toMercator);
      assert forall i :: 0 <= i < |init| ==> init[i] == items[i];
    }
  }

  /** `decode_json_tile_for_layers(tile_data, layer_data)`, the tile given
      by the layer items of its parsed JSON. */
  method DecodeJsonTileForLayers<G, S>(tile: seq<(string, seq<JsonFeature<G>>)>, layerData: seq<LayerDatum>,
                                       toMercator: G -> S)
    returns (layers: seq<FeatureLayer<S>>)
    ensures layers == DecodeLayers(tile, set d | d in layerData :: d.name, toMercator)
  {
    var keep := set d | d in layerData :: d.name;
    layers := [];
    for i := 0 to |tile|
      invariant layers == DecodeLayers(tile[..i], keep, toMercator)
    {
      assert tile[..i + 1][..i] == tile[..i];
      var (layerName, jsonFeatures) := tile[i];
      if layerName !in keep {
        continue;
      }
      var features: seq<Feature<S>> := [];
      for j := 0 to |jsonFeatures|
        invariant features == DecodeFeatures(jsonFeatures[..j], toMercator)
      {
        assert jsonFeatures[..j + 1][..j] == jsonFeatures[..j];
        var shape := toMercator(jsonFeatures[j].geometry);
        var properties := EnsureUtf8Properties(jsonFeatures[j].properties);
        features := features + [Feature(shape, properties, None)];
      }
      assert jsonFeatures[..|jsonFeatures|] == jsonFeatures;
      layers := layers + [FeatureLayer(layerName, features, false)];
    }
    assert tile[..|tile|] == tile;
  }
}
