/**
 * Collision-tile preprocessing of the game server: the tiles of the map's
 * collision layer, shifted into server coordinates, and the centre point of
 * each tile with the map from centre back to tile. Coordinates are exact
 * reals; the map file is taken as already parsed into layers.
 */
module Collision {
  import opened Common

  datatype MapObject = MapObject(x: real, y: real, width: real, height: real)

  datatype Layer =
    | ObjectGroup(name: string, objects: seq<MapObject>)
    | TileLayer(name: string)

  /** `(x, width, y, height)` in server coordinates. */
  datatype Tile = Tile(x: real, width: real, y: real, height: real)

  type Point = (real, real)

  const CollisionLayerName: string := "collision_boundaries"
  const OffsetX: real := 500.0
  const OffsetY: real := 330.0

  /** A map object moved into server coordinates; sizes are kept. */
  function ToTile(o: MapObject): Tile
  {
    Tile(o.x - OffsetX, o.width, o.y - OffsetY, o.height)
  }

  predicate IsCollisionLayer(l: Layer)
  {
    l.ObjectGroup? && l.name == CollisionLayerName
  }

  function LayerTiles(l: Layer): set<Tile>
  {
    if IsCollisionLayer(l) then set o | o in l.objects :: ToTile(o) else {}
  }

  /** The tiles of every collision layer among `layers`, as one set (duplicates collapse). */
  function CollidableTiles(layers: seq<Layer>): set<Tile>
  {
    if layers == [] then {} else CollidableTiles(layers[..|layers| - 1]) + LayerTiles(layers[|layers| - 1])
  }

  /**
   * A tile is collidable exactly when some object of some layer named
   * `collision_boundaries` moves onto it; objects of other layers never count.
   */
  lemma {:induction false} CollidableTilesMembers(layers: seq<Layer>, t: Tile)
    ensures t in CollidableTiles(layers) <==>
      exists i, j :: 0 <= i < |layers| && IsCollisionLayer(layers[i])
                     && 0 <= j < |layers[i].objects| && t == ToTile(layers[i].objects[j])
  {
    if layers != [] {
      var n := |layers| - 1;
      CollidableTilesMembers(layers[..n], t);
      if t in LayerTiles(layers[n]) {
        var o :| o in layers[n].objects && t == ToTile(o);
        var j :| 0 <= j < |layers[n].objects| && layers[n].objects[j] == o;
        assert IsCollisionLayer(layers[n]) && t == ToTile(layers[n].objects[j]);
      }
      if exists i, j :: 0 <= i < |layers| && IsCollisionLayer(layers[i])
                        && 0 <= j < |layers[i].objects| && t == ToTile(layers[i].objects[j]) {
        var i, j :| 0 <= i < |layers| && IsCollisionLayer(layers[i])
                    && 0 <= j < |layers[i].objects| && t == ToTile(layers[i].objects[j]);
        if i < n {
          assert layers[..n][i] == layers[i];
        } else {
          assert layers[n].objects[j] in layers[n].objects;
        }
      }
    }
  }

  /** `_extractCollidableTilesOptimized`: a loop over the layers growing one set. */
  method ExtractCollidableTiles(layers: seq<Layer>) returns (tiles: set<Tile>)
    ensures tiles == CollidableTiles(layers)
    ensures forall o :: o in Objects(layers) ==> ToTile(o) in tiles
  {
    tiles := {};
    var i := 0;
    while i < |layers|
      invariant i <= |layers|
      invariant tiles == CollidableTiles(layers[..i])
    {
      assert layers[..i + 1][..i] == layers[..i];
      tiles := tiles + LayerTiles(layers[i]);
      i := i + 1;
    }
    assert layers[..i] == layers;
    forall o | o in Objects(layers) ensures ToTile(o) in tiles {
      var k, j :| 0 <= k < |layers| && IsCollisionLayer(layers[k])
                  && 0 <= j < |layers[k].objects| && o == layers[k].objects[j];
      CollidableTilesMembers(layers, ToTile(o));
    }
  }

  /** The objects of the collision layers. */
  ghost function Objects(layers: seq<Layer>): set<MapObject>
  {
    set i, j | 0 <= i < |layers| && IsCollisionLayer(layers[i]) && 0 <= j < |layers[i].objects|
      :: layers[i].objects[j]
  }

  /** Centre of a tile as the server computes it: `x` plus half the width, `y` minus half the height. */
  function Centre(t: Tile): Point
  {
    (t.x + t.width / 2.0, t.y - t.height / 2.0)
  }

  /** The centres of a set of tiles. */
  function Centres(tiles: set<Tile>): set<Point>
  {
    set t | t in tiles :: Centre(t)
  }

  /**
   * The dictionary built by pairing each tile of `order` with its centre, in
   * order: a later tile with an equal centre overwrites an earlier one.
   */
  function CentreMap(order: seq<Tile>): map<Point, Tile>
  {
    if order == [] then map[]
    else CentreMap(order[..|order| - 1])[Centre(order[|order| - 1]) := order[|order| - 1]]
  }

  /** The dictionary's keys are the centres of the listed tiles. */
  lemma {:induction false} CentreMapKeys(order: seq<Tile>)
    ensures CentreMap(order).Keys == set t | t in order :: Centre(t)
  {
    if order != [] {
      var n := |order| - 1;
      CentreMapKeys(order[..n]);
      assert forall t :: t in order <==> t in order[..n] || t == order[n];
    }
  }

  /** Each centre maps to a listed tile with that centre. */
  lemma {:induction false} CentreMapValues(order: seq<Tile>)
    ensures forall p :: p in CentreMap(order) ==> CentreMap(order)[p] in order && Centre(CentreMap(order)[p]) == p
  {
    if order != [] {
      var n := |order| - 1;
      CentreMapValues(order[..n]);
      assert forall t :: t in order[..n] ==> t in order;
    }
  }

  /** Each centre maps to the last listed tile with that centre. */
  lemma {:induction false} CentreMapLast(order: seq<Tile>, i: int)
    requires 0 <= i < |order|
    requires forall j :: i < j < |order| ==> Centre(order[j]) != Centre(order[i])
    ensures Centre(order[i]) in CentreMap(order) && CentreMap(order)[Centre(order[i])] == order[i]
  {
    var n := |order| - 1;
    var init := order[..n];
    assert CentreMap(order) == CentreMap(init)[Centre(order[n]) := order[n]];
    if i < n {
      assert init[i] == order[i];
      assert Centre(order[n]) != Centre(order[i]);
      CentreMapLast(init, i);
    }
  }

  /**
   * The centre list handed to the spatial index and the dictionary from
   * centre to tile. Both walk the tile set in the same iteration order,
   * `order`, which lists every tile once.
   */
  method BuildTileMapping(tiles: set<Tile>) returns (positions: seq<Point>, mapping: map<Point, Tile>, ghost order: seq<Tile>)
    ensures |order| == |tiles| && (forall t :: t in order <==> t in tiles)
    ensures forall i, j :: 0 <= i < j < |order| ==> order[i] != order[j]
    ensures |positions| == |order| && forall i :: 0 <= i < |order| ==> positions[i] == Centre(order[i])
    ensures mapping == CentreMap(order)
    ensures mapping.Keys == Centres(tiles)
    ensures forall p :: p in mapping ==> mapping[p] in tiles && Centre(mapping[p]) == p
  {
    var listing := ListOf(tiles);
    order := listing;
    positions := [];
    mapping := map[];
    var i := 0;
    while i < |listing|
      invariant i <= |listing|
      invariant |positions| == i && forall k :: 0 <= k < i ==> positions[k] == Centre(listing[k])
      invariant mapping == CentreMap(listing[..i])
    {
      assert listing[..i + 1][..i] == listing[..i];
      positions := positions + [Centre(listing[i])];
      mapping := mapping[Centre(listing[i]) := listing[i]];
      i := i + 1;
    }
    assert listing[..i] == listing;
    assert forall t :: t in listing <==> t in Elements(listing);
    CentreMapOfListing(order, tiles);
  }

  /** For a listing of a tile set, the dictionary's keys are the set's centres and its values are tiles of the set. */
  lemma CentreMapOfListing(order: seq<Tile>, tiles: set<Tile>)
    requires forall t :: t in order <==> t in tiles
    ensures CentreMap(order).Keys == Centres(tiles)
    ensures forall p :: p in CentreMap(order) ==> CentreMap(order)[p] in tiles && Centre(CentreMap(order)[p]) == p
  {
    CentreMapKeys(order);
    CentreMapValues(order);
  }

  /** Distinct tiles can share a centre, so the centre-to-tile dictionary can hold fewer entries than there are tiles. */
  lemma SharedCentre()
    ensures Tile(0.0, 2.0, 0.0, 2.0) != Tile(-1.0, 4.0, 1.0, 4.0)
    ensures Centre(Tile(0.0, 2.0, 0.0, 2.0)) == Centre(Tile(-1.0, 4.0, 1.0, 4.0))
  {
  }

  /** Taking centres never yields more points than tiles, and strictly fewer when two tiles share a centre. */
  lemma {:induction false} CentresCardinality(tiles: set<Tile>)
    ensures |Centres(tiles)| <= |tiles|
    ensures (exists a, b :: a in tiles && b in tiles && a != b && Centre(a) == Centre(b)) ==> |Centres(tiles)| < |tiles|
    decreases |tiles|
  {
    if tiles != {} {
      var t :| t in tiles;
      var rest := tiles - {t};
      CentresCardinality(rest);
      assert Centres(tiles) == Centres(rest) + {Centre(t)};
      if exists a, b :: a in tiles && b in tiles && a != b && Centre(a) == Centre(b) {
        var a, b :| a in tiles && b in tiles && a != b && Centre(a) == Centre(b);
        if a != t && b != t {
          assert a in rest && b in rest;
        } else {
          var other := if a == t then b else a;
          assert other in rest && Centre(other) == Centre(t);
          assert Centres(tiles) == Centres(rest);
        }
      }
    }
  }
}
