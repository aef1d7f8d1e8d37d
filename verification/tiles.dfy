/** From vector tiles to one list of building features
    (map-integration.js:52-60 and 79-85): the `geojson` helper, which
    converts the features of one layer and keeps those its filter accepts,
    and the `flatMap` that collects the building layer of every tile.
    Fetching and decoding the tiles is not modelled: a tile is its
    coordinates and its decoded layers. */
module Tiles {

  import opened Basics
  import opened Seqs
  import opened Features
  import opened Merge

  /** The `[x, y, z]` address of a tile. */
  datatype TileCoord = TileCoord(x: int, y: int, z: int)

  /** A feature of a decoded vector-tile layer, before conversion. */
  type RawFeature(!new)

  /** A tile with its decoded layers, keyed by layer name. */
  datatype Tile = Tile(coord: TileCoord, layers: map<string, seq<RawFeature>>)

  /** The layer the buildings come in. */
  const BuildingLayer: string := "public.data_building"

  /** `VectorTileFeature.toGeoJSON(x, y, z)`: tile-local to geographic
      coordinates. */
  type Converter = (RawFeature, TileCoord) -> Feature

  /** The `filter(f, i, features)` callback: the converted feature, its
      index in the layer and the features kept so far. */
  type Keep = (Feature, nat, seq<Feature>) -> bool

  /** `d.layers["public.data_building"]`, `undefined` when absent. */
  function BuildingLayerOf(t: Tile): Option<seq<RawFeature>> {
    if BuildingLayer in t.layers then Some(t.layers[BuildingLayer]) else None
  }

  /** How many entries of `picked` lie below `i`. */
  function Below(picked: seq<nat>, i: nat): (r: nat)
    ensures r <= |picked|
  {
    if |picked| == 0 then 0
    else Below(picked[..|picked| - 1], i) + if picked[|picked| - 1] < i then 1 else 0
  }

  lemma BelowSnoc(picked: seq<nat>, x: nat, i: nat)
    requires i <= x
    ensures Below(picked + [x], i) == Below(picked, i)
  {
    assert (picked + [x])[..|picked|] == picked;
  }

  /** What the loop of `geojson` has established after scanning the
      first `i` features of layer `l`: `features` holds the conversions of
      the positions in `picked`, in increasing order; each was accepted by
      the filter given the features kept before it; every other position
      below `i` was refused given the features kept before it. */
  ghost predicate Scanned(l: seq<RawFeature>, coord: TileCoord, toGeoJson: Converter, keep: Keep,
                          i: nat, features: seq<Feature>, picked: seq<nat>)
  {
    && i <= |l|
    && Converted(l, coord, toGeoJson, i, features, picked)
    && Increasing(picked)
    && Accepted(keep, features, picked)
    && Refused(l, coord, toGeoJson, keep, i, features, picked)
  }

  ghost predicate Converted(l: seq<RawFeature>, coord: TileCoord, toGeoJson: Converter,
                            i: nat, features: seq<Feature>, picked: seq<nat>)
  {
    && i <= |l|
    && |features| == |picked|
    && (forall j :: 0 <= j < |picked| ==> picked[j] < i && features[j] == toGeoJson(l[picked[j]], coord))
  }

  ghost predicate Increasing(picked: seq<nat>) {
    forall j, k :: 0 <= j < k < |picked| ==> picked[j] < picked[k]
  }

  ghost predicate Accepted(keep: Keep, features: seq<Feature>, picked: seq<nat>)
    requires |features| == |picked|
  {
    forall j :: 0 <= j < |picked| ==> keep(features[j], picked[j], features[..j])
  }

  ghost predicate Refused(l: seq<RawFeature>, coord: TileCoord, toGeoJson: Converter, keep: Keep,
                          i: nat, features: seq<Feature>, picked: seq<nat>)
    requires i <= |l| && |features| == |picked|
  {
    forall k :: 0 <= k < i && k !in picked ==> !keep(toGeoJson(l[k], coord), k, features[..Below(picked, k)])
  }

  lemma ScanAccept(l: seq<RawFeature>, coord: TileCoord, toGeoJson: Converter, keep: Keep,
                   i: nat, features: seq<Feature>, picked: seq<nat>)
    requires i < |l| && Scanned(l, coord, toGeoJson, keep, i, features, picked)
    requires keep(toGeoJson(l[i], coord), i, features)
    ensures Scanned(l, coord, toGeoJson, keep, i + 1, features + [toGeoJson(l[i], coord)], picked + [i])
  {
    var f := toGeoJson(l[i], coord);
    ConvertedSnoc(l, coord, toGeoJson, i, features, picked);
    AcceptedSnoc(keep, features, picked, f, i);
    RefusedSnoc(l, coord, toGeoJson, keep, i, features, picked);
  }

  lemma ConvertedSnoc(l: seq<RawFeature>, coord: TileCoord, toGeoJson: Converter,
                      i: nat, features: seq<Feature>, picked: seq<nat>)
    requires i < |l| && Converted(l, coord, toGeoJson, i, features, picked) && Increasing(picked)
    ensures Converted(l, coord, toGeoJson, i + 1, features + [toGeoJson(l[i], coord)], picked + [i])
    ensures Increasing(picked + [i])
  {
  }

  lemma AcceptedSnoc(keep: Keep, features: seq<Feature>, picked: seq<nat>, f: Feature, i: nat)
    requires |features| == |picked| && Accepted(keep, features, picked) && keep(f, i, features)
    ensures Accepted(keep, features + [f], picked + [i])
  {
    forall j | 0 <= j < |picked| + 1
      ensures keep((features + [f])[j], (picked + [i])[j], (features + [f])[..j])
    {
      assert (features + [f])[..j] == features[..j];
    }
  }

  lemma RefusedSnoc(l: seq<RawFeature>, coord: TileCoord, toGeoJson: Converter, keep: Keep,
                    i: nat, features: seq<Feature>, picked: seq<nat>)
    requires i < |l| && Converted(l, coord, toGeoJson, i, features, picked)
    requires Refused(l, coord, toGeoJson, keep, i, features, picked)
    ensures Refused(l, coord, toGeoJson, keep, i + 1, features + [toGeoJson(l[i], coord)], picked + [i])
  {
    var features', picked' := features + [toGeoJson(l[i], coord)], picked + [i];
    forall k | 0 <= k < i + 1 && k !in picked'
      ensures !keep(toGeoJson(l[k], coord), k, features'[..Below(picked', k)])
    {
      BelowSnoc(picked, i, k);
      assert features'[..Below(picked, k)] == features[..Below(picked, k)];
    }
  }

  lemma ScanRefuse(l: seq<RawFeature>, coord: TileCoord, toGeoJson: Converter, keep: Keep,
                   i: nat, features: seq<Feature>, picked: seq<nat>)
    requires i < |l| && Scanned(l, coord, toGeoJson, keep, i, features, picked)
    requires !keep(toGeoJson(l[i], coord), i, features)
    ensures Scanned(l, coord, toGeoJson, keep, i + 1, features, picked)
  {
    BelowAll(picked, i);
    forall k | 0 <= k < i + 1 && k !in picked
      ensures !keep(toGeoJson(l[k], coord), k, features[..Below(picked, k)])
    {
      if k == i {
        assert features[..Below(picked, k)] == features;
      }
    }
  }

  lemma {:induction false} BelowAll(picked: seq<nat>, i: nat)
    requires forall j :: 0 <= j < |picked| ==> picked[j] < i
    ensures Below(picked, i) == |picked|
  {
    if |picked| > 0 {
      BelowAll(picked[..|picked| - 1], i);
    }
  }

  /** `geojson([x, y, z], layer, filter)` (map-integration.js:52-60).
      `undefined` exactly when the layer is missing.  Otherwise the ghost
      `picked` lists the layer positions kept, in increasing order: the
      result holds the converted features at those positions, each kept
      feature was accepted by the filter given the features kept before
      it, and each dropped one was refused given the features kept before
      it.  With the default filter, which accepts everything, the result
      is the whole layer converted. */
  method GeoJson(coord: TileCoord, layer: Option<seq<RawFeature>>, toGeoJson: Converter, keep: Keep)
    returns (r: Option<seq<Feature>>, ghost picked: seq<nat>)
    ensures r.None? <==> layer.None?
    ensures r.Some? ==> |r.value| == |picked| <= |layer.value|
    ensures r.Some? ==> Scanned(layer.value, coord, toGeoJson, keep, |layer.value|, r.value, picked)
    ensures r.Some? && (forall f, i, acc :: keep(f, i, acc)) ==>
      r.value == seq(|layer.value|, i requires 0 <= i < |layer.value| => toGeoJson(layer.value[i], coord))
  {
    picked := [];
    if layer.None? {
      return None, picked;
    }
    var l := layer.value;
    var features: seq<Feature> := [];
    var i := 0;
    while i < |l|
      invariant 0 <= i <= |l|
      invariant Scanned(l, coord, toGeoJson, keep, i, features, picked)
      invariant (forall f, n, acc :: keep(f, n, acc)) ==> |features| == i
    {
      var f := toGeoJson(l[i], coord);
      if keep(f, i, features) {
        ScanAccept(l, coord, toGeoJson, keep, i, features, picked);
        features, picked := features + [f], picked + [i];
      } else {
        ScanRefuse(l, coord, toGeoJson, keep, i, features, picked);
      }
      i := i + 1;
    }
    r := Some(features);
    PickedAll(l, coord, toGeoJson, keep, features, picked);
  }

  /** A scan that kept as many features as the layer has kept them all. */
  lemma PickedAll(l: seq<RawFeature>, coord: TileCoord, toGeoJson: Converter, keep: Keep,
                  features: seq<Feature>, picked: seq<nat>)
    requires Scanned(l, coord, toGeoJson, keep, |l|, features, picked)
    ensures |picked| <= |l|
    ensures |picked| == |l| ==> features == seq(|l|, i requires 0 <= i < |l| => toGeoJson(l[i], coord))
  {
    if |picked| > 0 {
      LowerBound(picked, |picked| - 1);
    }
    if |picked| == |l| {
      forall j | 0 <= j < |l|
        ensures picked[j] == j
      {
        IncreasingIsIdentity(picked, |l|, j);
      }
    }
  }

  /** A strictly increasing list of `n` positions below `n` is 0, 1, …, n-1. */
  lemma IncreasingIsIdentity(picked: seq<nat>, n: nat, j: nat)
    requires |picked| == n && j < n
    requires forall a :: 0 <= a < n ==> picked[a] < n
    requires forall a, b :: 0 <= a < b < n ==> picked[a] < picked[b]
    ensures picked[j] == j
  {
    LowerBound(picked, j);
    UpperBound(picked, n, j);
  }

  lemma {:induction false} LowerBound(picked: seq<nat>, j: nat)
    requires j < |picked|
    requires forall a, b :: 0 <= a < b < |picked| ==> picked[a] < picked[b]
    ensures picked[j] >= j
  {
    if j > 0 {
      LowerBound(picked, j - 1);
    }
  }

  lemma {:induction false} UpperBound(picked: seq<nat>, n: nat, j: nat)
    requires |picked| == n && j < n
    requires forall a :: 0 <= a < n ==> picked[a] < n
    requires forall a, b :: 0 <= a < b < n ==> picked[a] < picked[b]
    ensures picked[j] <= j
    decreases n - j
  {
    if j < n - 1 {
      UpperBound(picked, n, j + 1);
    }
  }

  /** `geojson` with its default filter, as the feature collection calls
      it: the whole layer converted, `undefined` for a missing layer. */
  function LayerFeatures(coord: TileCoord, layer: Option<seq<RawFeature>>, toGeoJson: Converter): Option<seq<Feature>> {
    match layer
    case None => None
    case Some(l) => Some(seq(|l|, i requires 0 <= i < |l| => toGeoJson(l[i], coord)))
  }

  /** The feature collection exactly as map-integration.js:82-84 computes
      it: `geojson(...).features` for every tile.  For a tile without the
      building layer `geojson` returns `undefined`, reading `.features` of
      it throws, and the whole collection fails (`None`). */
  function CollectAsWritten(tiles: seq<Tile>, toGeoJson: Converter): (r: Option<seq<Feature>>)
    ensures r.None? <==> exists k :: 0 <= k < |tiles| && BuildingLayer !in tiles[k].layers
  {
    if |tiles| == 0 then Some([])
    else match LayerFeatures(tiles[0].coord, BuildingLayerOf(tiles[0]), toGeoJson)
      case None => None
      case Some(fs) =>
        var rest := CollectAsWritten(tiles[1..], toGeoJson);
        assert forall k :: 1 <= k < |tiles| ==> tiles[k] == tiles[1..][k - 1];
        if rest.None? then None else Some(fs + rest.value)
  }

  /** The building features of one tile, none when the layer is absent. */
  function TileFeatures(t: Tile, toGeoJson: Converter): seq<Feature> {
    match LayerFeatures(t.coord, BuildingLayerOf(t), toGeoJson)
    case None => []
    case Some(fs) => fs
  }

  /** The collection as intended: tiles without a building layer
      contribute nothing. */
  function Collect(tiles: seq<Tile>, toGeoJson: Converter): seq<Feature> {
    if |tiles| == 0 then []
    else TileFeatures(tiles[0], toGeoJson) + Collect(tiles[1..], toGeoJson)
  }

  /** Feature `i` of tile `k`'s building layer, converted. */
  ghost predicate IsBuildingOf(tiles: seq<Tile>, toGeoJson: Converter, f: Feature) {
    exists k, i :: 0 <= k < |tiles| && BuildingLayer in tiles[k].layers &&
      0 <= i < |tiles[k].layers[BuildingLayer]| && f == toGeoJson(tiles[k].layers[BuildingLayer][i], tiles[k].coord)
  }

  /** Every building of every tile is collected, and nothing else is. */
  lemma {:induction false} CollectMembers(tiles: seq<Tile>, toGeoJson: Converter, f: Feature)
    ensures f in Collect(tiles, toGeoJson) <==> IsBuildingOf(tiles, toGeoJson, f)
  {
    if |tiles| > 0 {
      var head := TileFeatures(tiles[0], toGeoJson);
      CollectMembers(tiles[1..], toGeoJson, f);
      if f in head {
        var i :| 0 <= i < |head| && head[i] == f;
        assert f == toGeoJson(tiles[0].layers[BuildingLayer][i], tiles[0].coord);
      }
      if IsBuildingOf(tiles[1..], toGeoJson, f) {
        var k, i :| 0 <= k < |tiles[1..]| && BuildingLayer in tiles[1..][k].layers &&
          0 <= i < |tiles[1..][k].layers[BuildingLayer]| && f == toGeoJson(tiles[1..][k].layers[BuildingLayer][i], tiles[1..][k].coord);
        assert tiles[1..][k] == tiles[k + 1];
      }
      if IsBuildingOf(tiles, toGeoJson, f) {
        var k, i :| 0 <= k < |tiles| && BuildingLayer in tiles[k].layers &&
          0 <= i < |tiles[k].layers[BuildingLayer]| && f == toGeoJson(tiles[k].layers[BuildingLayer][i], tiles[k].coord);
        if k == 0 {
          assert head[i] == f;
        } else {
          assert tiles[1..][k - 1] == tiles[k];
        }
      }
    }
  }

  /** Wherever the code as written does not throw, it agrees with the
      corrected collection. */
  lemma {:induction false} CollectAgrees(tiles: seq<Tile>, toGeoJson: Converter)
    requires CollectAsWritten(tiles, toGeoJson).Some?
    ensures CollectAsWritten(tiles, toGeoJson).value == Collect(tiles, toGeoJson)
  {
    if |tiles| > 0 {
      CollectAgrees(tiles[1..], toGeoJson);
    }
  }

  /** Two tiles, the second without a building layer: the code as
      written loses the first tile's building too, the corrected
      collection keeps it. */
  lemma MissingLayerLosesEverything(raw: RawFeature, a: TileCoord, b: TileCoord, toGeoJson: Converter)
    ensures var tiles := [Tile(a, map[BuildingLayer := [raw]]), Tile(b, map[])];
            CollectAsWritten(tiles, toGeoJson).None? && Collect(tiles, toGeoJson) == [toGeoJson(raw, a)]
  {
    var tiles := [Tile(a, map[BuildingLayer := [raw]]), Tile(b, map[])];
    assert BuildingLayer !in tiles[1].layers;
    assert TileFeatures(tiles[0], toGeoJson) == [toGeoJson(raw, a)];
    assert TileFeatures(tiles[1], toGeoJson) == [];
    assert tiles[1..][0] == tiles[1] && tiles[1..][1..] == [];
    assert Collect(tiles[1..], toGeoJson) == [];
  }

  /** The buildings of all tiles after the same-id merge
      (map-integration.js:79-125), with the collection corrected: one
      entry per building id found in any tile, in increasing id order,
      each the merge of every fragment with that id. */
  function Buildings(ops: GeoOps, tiles: seq<Tile>, toGeoJson: Converter): (r: seq<Feature>)
    ensures StrictlyIncreasing(r)
    ensures forall f :: IsBuildingOf(tiles, toGeoJson, f) ==> exists j :: 0 <= j < |r| && r[j].id == f.id
    ensures forall j :: 0 <= j < |r| ==> IsMergedGroup(ops, Collect(tiles, toGeoJson), r[j])
  {
    var all := Collect(tiles, toGeoJson);
    var r := MergeById(ops, all);
    forall f | IsBuildingOf(tiles, toGeoJson, f)
      ensures exists j :: 0 <= j < |r| && r[j].id == f.id
    {
      CollectMembers(tiles, toGeoJson, f);
      var i :| 0 <= i < |all| && all[i] == f;
      assert f.id in IdSet(all);
      assert f.id in IdSet(r);
    }
    r
  }
}
