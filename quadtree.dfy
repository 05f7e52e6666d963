/** Tile addresses in the quadtree pyramid and the navigation functions
    `coord_children`, `coord_children_range`, `seed_tiles` and the parent
    step (`zoomTo(zoom - 1).container()`), as the tile tests fix them.

    ModestMaps builds `Coordinate(row, column, zoom)` positionally; the
    fields here are named, so `Coordinate(1, 0, 1)` is
    `Coord(zoom := 1, column := 0, row := 1)`. */
module Quadtree {

  datatype Coord = Coord(zoom: nat, column: nat, row: nat)

  const Root := Coord(0, 0, 0)

  function Pow2(k: nat): (r: nat)
    ensures r >= 1
  {
    if k == 0 then 1 else 2 * Pow2(k - 1)
  }

  function Pow4(k: nat): (r: nat)
    ensures r >= 1
  {
    if k == 0 then 1 else 4 * Pow4(k - 1)
  }

  /** Column and row lie inside the 2^zoom by 2^zoom grid of the zoom. */
  predicate Valid(c: Coord)
  {
    c.column < Pow2(c.zoom) && c.row < Pow2(c.zoom)
  }

  /** The four tiles one zoom below `c` that cover it. The row varies
      fastest: (row, column) = (2r, 2c), (2r+1, 2c), (2r, 2c+1), (2r+1, 2c+1). */
  function Children(c: Coord): (r: seq<Coord>)
    ensures |r| == 4
    ensures forall i :: 0 <= i < 4 ==>
      r[i].zoom == c.zoom + 1 && r[i].column / 2 == c.column && r[i].row / 2 == c.row
    ensures forall i, j :: 0 <= i < j < 4 ==> r[i] != r[j]
    ensures Valid(c) ==> forall i :: 0 <= i < 4 ==> Valid(r[i])
  {
    var z, col, row := c.zoom + 1, 2 * c.column, 2 * c.row;
    [Coord(z, col, row), Coord(z, col, row + 1), Coord(z, col + 1, row), Coord(z, col + 1, row + 1)]
  }

  /** The tile one zoom above that contains `c`: zoom minus one, column
      and row halved and rounded down. */
  function Parent(c: Coord): (p: Coord)
    requires c.zoom >= 1
    ensures p.zoom == c.zoom - 1
    ensures c in Children(p)
    ensures Valid(c) ==> Valid(p)
  {
    Coord(c.zoom - 1, c.column / 2, c.row / 2)
  }

  /** The children of every tile of `s`, in the order of `s`. */
  function FlatChildren(s: seq<Coord>): (r: seq<Coord>)
    ensures |r| == 4 * |s|
  {
    if s == [] then [] else Children(s[0]) + FlatChildren(s[1..])
  }

  /** A tile is among the children of `s` exactly when its parent is in `s`. */
  lemma {:induction false} FlatChildrenMembers(s: seq<Coord>, x: Coord)
    ensures x in FlatChildren(s) <==> x.zoom >= 1 && Parent(x) in s
  {
    if s != [] {
      FlatChildrenMembers(s[1..], x);
      if x.zoom >= 1 {
        assert Parent(x) in s <==> Parent(x) == s[0] || Parent(x) in s[1..];
      }
    }
  }

  /** The tiles exactly `k` zooms below `c` (for k = 0, `c` itself), each
      zoom level built from the previous by taking children. */
  function Level(c: Coord, k: nat): (r: seq<Coord>)
  {
    if k == 0 then [c] else FlatChildren(Level(c, k - 1))
  }

  /** Children of tiles of one zoom are all of the next zoom. */
  lemma {:induction false} FlatChildrenZoom(s: seq<Coord>, z: nat)
    requires forall x :: x in s ==> x.zoom == z
    ensures forall x :: x in FlatChildren(s) ==> x.zoom == z + 1
  {
    if s != [] {
      FlatChildrenZoom(s[1..], z);
      assert s[0] in s;
    }
  }

  lemma {:induction false} LevelShape(c: Coord, k: nat)
    ensures |Level(c, k)| == Pow4(k)
    ensures forall x :: x in Level(c, k) ==> x.zoom == c.zoom + k
  {
    if k > 0 {
      LevelShape(c, k - 1);
      FlatChildrenZoom(Level(c, k - 1), c.zoom + k - 1);
    }
  }

  /** A tile is on level k below the root exactly when it is a valid tile
      of zoom k: the levels enumerate the whole grid. */
  lemma {:induction false} RootLevelMembers(k: nat, x: Coord)
    ensures x in Level(Root, k) <==> Valid(x) && x.zoom == k
  {
    if k > 0 {
      FlatChildrenMembers(Level(Root, k - 1), x);
      if x.zoom >= 1 {
        RootLevelMembers(k - 1, Parent(x));
        assert x in Children(Parent(x));
      }
    }
  }

  /** Levels `lo` to `hi` below `c`, shallowest first. */
  function Levels(c: Coord, lo: nat, hi: nat): (r: seq<Coord>)
    decreases hi + 1 - lo
  {
    if lo > hi then [] else Level(c, lo) + Levels(c, lo + 1, hi)
  }

  /** `coord_children_range(c, maxZoom)`: every descendant of `c` from
      zoom c.zoom + 1 through `maxZoom`, each zoom before the next. */
  function ChildrenRange(c: Coord, maxZoom: nat): seq<Coord>
  {
    if maxZoom <= c.zoom then [] else Levels(c, 1, maxZoom - c.zoom)
  }

  /** `seed_tiles(zoomStart, zoomUntil)`: every tile of every zoom from
      `zoomStart` through `zoomUntil`. */
  function SeedTiles(zoomStart: nat, zoomUntil: nat): seq<Coord>
  {
    Levels(Root, zoomStart, zoomUntil)
  }

  /** Number of tiles of zoom `k` in `s`. */
  function CountAtZoom(s: seq<Coord>, k: nat): nat
  {
    if s == [] then 0 else (if s[0].zoom == k then 1 else 0) + CountAtZoom(s[1..], k)
  }

  lemma {:induction false} CountAtZoomAppend(a: seq<Coord>, b: seq<Coord>, k: nat)
    ensures CountAtZoom(a + b, k) == CountAtZoom(a, k) + CountAtZoom(b, k)
  {
    if a != [] {
      assert a + b != [];
      assert (a + b)[0] == a[0];
      assert (a + b)[1..] == a[1..] + b;
      CountAtZoomAppend(a[1..], b, k);
    } else {
      assert a + b == b;
    }
  }

  lemma {:induction false} CountAtZoomUniform(s: seq<Coord>, z: nat, k: nat)
    requires forall x :: x in s ==> x.zoom == z
    ensures CountAtZoom(s, k) == if z == k then |s| else 0
  {
    if s != [] {
      CountAtZoomUniform(s[1..], z, k);
    }
  }

  /** 3 * (4^lo + ... + 4^hi) == 4^(hi+1) - 4^lo tiles lie on levels lo..hi. */
  lemma {:induction false} LevelsCount(c: Coord, lo: nat, hi: nat)
    requires lo <= hi + 1
    ensures 3 * |Levels(c, lo, hi)| + Pow4(lo) == Pow4(hi + 1)
    decreases hi + 1 - lo
  {
    if lo <= hi {
      LevelShape(c, lo);
      LevelsCount(c, lo + 1, hi);
      assert |Levels(c, lo, hi)| == |Level(c, lo)| + |Levels(c, lo + 1, hi)|;
    }
  }

  /** The tiles on levels lo..hi below the root are exactly the valid
      tiles of zooms lo..hi. */
  lemma {:induction false} LevelsRootMembers(lo: nat, hi: nat, x: Coord)
    ensures x in Levels(Root, lo, hi) <==> Valid(x) && lo <= x.zoom <= hi
    decreases hi + 1 - lo
  {
    if lo <= hi {
      var here, rest := Level(Root, lo), Levels(Root, lo + 1, hi);
      assert Levels(Root, lo, hi) == here + rest;
      RootLevelMembers(lo, x);
      LevelsRootMembers(lo + 1, hi, x);
    }
  }

  lemma {:induction false} LevelsCountAtZoom(lo: nat, hi: nat, k: nat)
    ensures CountAtZoom(Levels(Root, lo, hi), k) == if lo <= k <= hi then Pow4(k) else 0
    decreases hi + 1 - lo
  {
    if lo <= hi {
      var here, rest := Level(Root, lo), Levels(Root, lo + 1, hi);
      LevelShape(Root, lo);
      CountAtZoomUniform(here, lo, k);
      LevelsCountAtZoom(lo + 1, hi, k);
      CountAtZoomAppend(here, rest, k);
    }
  }

  /** `seed_tiles(zoom_until=z)` yields (4^(z+1) - 1) / 3 tiles. */
  lemma SeedTilesCount(z: nat)
    ensures 3 * |SeedTiles(0, z)| + 1 == Pow4(z + 1)
  {
    LevelsCount(Root, 0, z);
  }

  /** Grouped by zoom, seed tiles from 0 to z hold exactly 4^k tiles of each
      zoom k <= z, and none of any other zoom. */
  lemma SeedTilesPerZoom(zoomStart: nat, zoomUntil: nat, k: nat)
    ensures CountAtZoom(SeedTiles(zoomStart, zoomUntil), k)
         == if zoomStart <= k <= zoomUntil then Pow4(k) else 0
  {
    LevelsCountAtZoom(zoomStart, zoomUntil, k);
  }

  /** The seed tiles are exactly the valid tiles at the zooms asked for. */
  lemma SeedTilesMembers(zoomStart: nat, zoomUntil: nat, x: Coord)
    ensures x in SeedTiles(zoomStart, zoomUntil)
        <==> Valid(x) && zoomStart <= x.zoom <= zoomUntil
  {
    LevelsRootMembers(zoomStart, zoomUntil, x);
  }

  /** `seed_tiles(zoom_until=0)` is the root alone. */
  lemma SeedTilesZoom0()
    ensures SeedTiles(0, 0) == [Root]
  {
  }

  /** `seed_tiles(zoom_until=1)`: the root and its four children, five tiles. */
  lemma SeedTilesZoom1()
    ensures SeedTiles(0, 1) == [Root] + Children(Root)
    ensures |SeedTiles(0, 1)| == 5
  {
    assert [Root][1..] == [];
    assert Level(Root, 1) == Children(Root) + FlatChildren([]);
  }

  /** The children of the root, in the order the tests pin. */
  lemma ChildrenOfRoot()
    ensures Children(Root) == [Coord(1, 0, 0), Coord(1, 0, 1), Coord(1, 1, 0), Coord(1, 1, 1)]
  {
  }

  /** Two zooms of descendants are the children followed by the children of
      the children; their number is 4 + 16 = 20. */
  lemma ChildrenRangeTwoZooms(c: Coord)
    ensures ChildrenRange(c, c.zoom + 2) == Children(c) + FlatChildren(Children(c))
    ensures |ChildrenRange(c, c.zoom + 2)| == 20
  {
    assert [c][1..] == [];
    assert Level(c, 1) == Children(c) + FlatChildren([]);
    assert FlatChildren([]) == [];
    assert Level(c, 1) == Children(c);
    assert Level(c, 2) == FlatChildren(Children(c));
    assert Levels(c, 3, 2) == [];
    assert Levels(c, 2, 2) == Level(c, 2) + [];
    assert Levels(c, 1, 2) == Level(c, 1) + Levels(c, 2, 2);
    assert ChildrenRange(c, c.zoom + 2) == Levels(c, 1, 2);
  }

  /** The children range of the tests, `Coordinate(3, 4, 2)` up to zoom 4:
      column 4 lies outside the zoom-2 grid and the range is still defined. */
  lemma ChildrenRangeExample()
    ensures !Valid(Coord(2, 4, 3))
    ensures |ChildrenRange(Coord(2, 4, 3), 4)| == 20
  {
    ChildrenRangeTwoZooms(Coord(2, 4, 3));
  }

  /** Number of descendants: 3 * |range| + 4 == 4^(d+1) for d zooms. */
  lemma ChildrenRangeCount(c: Coord, maxZoom: nat)
    requires maxZoom >= c.zoom
    ensures 3 * |ChildrenRange(c, maxZoom)| + 4 == Pow4(maxZoom - c.zoom + 1)
  {
    if maxZoom > c.zoom {
      LevelsCount(c, 1, maxZoom - c.zoom);
    }
  }

  /** Every tile that `seed_tiles(zoomStart, zoomUntil)` yields at zoom >= 1
      has its parent among the seed tiles one zoom up. */
  lemma SeedTileParents(zoomStart: nat, zoomUntil: nat, x: Coord)
    requires zoomStart >= 1
    requires x in SeedTiles(zoomStart, zoomUntil)
    ensures x.zoom >= 1 && Parent(x) in SeedTiles(zoomStart - 1, zoomUntil - 1)
  {
    SeedTilesMembers(zoomStart, zoomUntil, x);
    SeedTilesMembers(zoomStart - 1, zoomUntil - 1, Parent(x));
  }

  /** The boundary tiles of the tests: the last tile of zooms 20 and 10,
      whose parents are the last tiles of zooms 19 and 9. */
  lemma ParentAtGridCorner(z: nat)
    requires z >= 1
    ensures Valid(Coord(z, Pow2(z) - 1, Pow2(z) - 1))
    ensures Parent(Coord(z, Pow2(z) - 1, Pow2(z) - 1)) == Coord(z - 1, Pow2(z - 1) - 1, Pow2(z - 1) - 1)
  {
  }
}
