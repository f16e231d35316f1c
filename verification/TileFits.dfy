/** Which paths leave no cube larger than the tile shape of its level. */
module TileFits {
  import opened Options
  import opened Tensors
  import opened Rectangles
  import opened Tiles
  import opened TilePaths

  /** The sizes a dimension of this size is cut into by a tile of that size. */
  function CutSizes(size: nat, tile: nat): set<nat> {
    if tile == 0 || size <= tile then {size} else if size % tile == 0 then {tile} else {tile, size % tile}
  }

  ghost function CutAll(sizes: set<nat>, tile: nat): (r: set<nat>)
    ensures forall w :: w in r <==> exists v :: v in sizes && w in CutSizes(v, tile)
  {
    if sizes == {} then {}
    else
      var v :| v in sizes;
      CutAll(sizes - {v}, tile) + CutSizes(v, tile)
  }

  /** The sizes of a dimension after some hops, each dimension on its own. */
  ghost function SizesIn(full: nat, tiles: seq<nat>): set<nat> {
    if tiles == [] then {full}
    else
      CutAll(SizesIn(full, tiles[..|tiles| - 1]), tiles[|tiles| - 1])
  }

  function Column(tiles: seq<seq<nat>>, d: nat): (c: seq<nat>)
    requires forall h :: 0 <= h < |tiles| ==> d < |tiles[h]|
    ensures |c| == |tiles|
  {
    seq(|tiles|, h requires 0 <= h < |tiles| => tiles[h][d])
  }

  ghost predicate Ranked(tiles: seq<seq<nat>>, rank: nat) {
    forall h :: 0 <= h < |tiles| ==> |tiles[h]| == rank
  }

  /** The sizes of dimension d before hop h. */
  ghost function SizesBefore(tiles: seq<seq<nat>>, full: seq<nat>, h: nat, d: nat): set<nat>
    requires Ranked(tiles, |full|) && h <= |tiles| && d < |full|
  {
    SizesIn(full[d], Column(tiles[..h], d))
  }

  /** Before hop h, a size of one dimension is below its tile, and a size of another is above its own. */
  ghost predicate MixedAt(tiles: seq<seq<nat>>, full: seq<nat>, h: nat)
    requires Ranked(tiles, |full|) && h < |tiles|
  {
    exists d, e :: 0 <= d < |full| && 0 <= e < |full| && d != e && MixedIn(tiles, full, h, d, e)
  }

  ghost predicate MixedIn(tiles: seq<seq<nat>>, full: seq<nat>, h: nat, d: nat, e: nat)
    requires Ranked(tiles, |full|) && h < |tiles| && d < |full| && e < |full|
  {
    && (exists v :: v in SizesBefore(tiles, full, h, d) && v < tiles[h][d])
    && (exists w :: w in SizesBefore(tiles, full, h, e) && w > tiles[h][e])
  }

  /** A cube and a tile compare the same way in all dimensions. */
  predicate Comparable(dims: seq<nat>, tile: seq<nat>) { Below(dims, tile) || Below(tile, dims) }

  // ----- one hop -----

  /** Each cube after a hop is a tile of a cube before it. */
  lemma {:induction false} HopMember(tile: seq<nat>, cubes: seq<AbsoluteHyperRectangle>, j: nat) returns (k: nat, i: nat)
    requires AllTransferable(tile, cubes) && j < |Hop(tile, cubes)|
    ensures k < |cubes| && i < |CubeTiles(tile, cubes[k])| && Hop(tile, cubes)[j] == CubeTiles(tile, cubes[k])[i]
  {
    hide CubeTiles;
    var l := |cubes| - 1;
    var before := Hop(tile, cubes[..l]);
    if j < |before| {
      k, i := HopMember(tile, cubes[..l], j);
    } else {
      k, i := l, j - |before|;
    }
  }

  lemma {:induction false} MemberOfHop(tile: seq<nat>, cubes: seq<AbsoluteHyperRectangle>, k: nat, i: nat) returns (j: nat)
    requires AllTransferable(tile, cubes) && k < |cubes| && i < |CubeTiles(tile, cubes[k])|
    ensures j < |Hop(tile, cubes)| && Hop(tile, cubes)[j] == CubeTiles(tile, cubes[k])[i]
  {
    hide CubeTiles;
    var l := |cubes| - 1;
    if k < l {
      j := MemberOfHop(tile, cubes[..l], k, i);
    } else {
      j := |Hop(tile, cubes[..l])| + i;
    }
  }

  /** The tiles of a cube fit their tile shape exactly when it is comparable with the cube. */
  lemma TilesFitIff(tile: seq<nat>, cube: AbsoluteHyperRectangle)
    requires Transferable(tile, cube) && |tile| == |cube.rectangle.dims|
    ensures CubeTiles(tile, cube) != []
    ensures AllFit(CubeTiles(tile, cube), tile) <==> Comparable(cube.rectangle.dims, tile)
  {
    var group, dims := CubeTiles(tile, cube), cube.rectangle.dims;
    if AnyLarger(tile, dims) {
      UncutCube(tile, cube);
      assert |group| == |Regions(group)| == 1 && Regions(group)[0] == group[0].Region();
      assert !Below(tile, dims);
      assert Fits(group[0], tile) <==> Below(dims, tile);
    } else {
      assert Below(tile, dims);
      forall k: nat | k < |group| ensures Fits(group[k], tile) { TileFits(k, dims, tile); }
      SomeTile(dims, tile);
    }
  }

  lemma SomeTile(dims: seq<nat>, tile: seq<nat>)
    requires Tileable(dims, tile)
    ensures TileList(dims, tile) != []
  {
    CountsPositive(dims, tile);
    ProductAbove(TileCounts(dims, tile));
  }

  lemma {:induction false} ProductAbove(ends: seq<nat>)
    requires forall d :: 0 <= d < |ends| ==> 0 < ends[d]
    ensures 0 < Product(ends)
  {
    if ends != [] { ProductAbove(ends[1..]); }
  }

  lemma HopFitsIff(tile: seq<nat>, cubes: seq<AbsoluteHyperRectangle>)
    requires AllTransferable(tile, cubes) && forall k :: 0 <= k < |cubes| ==> |cubes[k].rectangle.dims| == |tile|
    ensures AllFit(Hop(tile, cubes), tile) <==> forall k :: 0 <= k < |cubes| ==> Comparable(cubes[k].rectangle.dims, tile)
  {
    hide CubeTiles, Hop, Fits, Comparable;
    if AllFit(Hop(tile, cubes), tile) {
      forall k | 0 <= k < |cubes| ensures Comparable(cubes[k].rectangle.dims, tile) {
        assert Transferable(tile, cubes[k]);
        TilesFitIff(tile, cubes[k]);
        forall i: nat | i < |CubeTiles(tile, cubes[k])| ensures Fits(CubeTiles(tile, cubes[k])[i], tile) {
          var j := MemberOfHop(tile, cubes, k, i);
        }
      }
    }
    if forall k :: 0 <= k < |cubes| ==> Comparable(cubes[k].rectangle.dims, tile) {
      forall j: nat | j < |Hop(tile, cubes)| ensures Fits(Hop(tile, cubes)[j], tile) {
        var k, i := HopMember(tile, cubes, j);
        assert Transferable(tile, cubes[k]);
        TilesFitIff(tile, cubes[k]);
      }
    }
  }

  // ----- the sizes that occur -----

  /** Every cube has sizes from the sets, and any two dimensions meet in any two of their sizes. */
  ghost predicate Sized(cubes: seq<AbsoluteHyperRectangle>, sizes: seq<set<nat>>) {
    && (forall k :: 0 <= k < |cubes| ==> |cubes[k].rectangle.dims| == |sizes|)
    && (forall k, d :: 0 <= k < |cubes| && 0 <= d < |sizes| ==> cubes[k].rectangle.dims[d] in sizes[d])
    && (forall d, e, v, w :: 0 <= d < |sizes| && 0 <= e < |sizes| && d != e && v in sizes[d] && w in sizes[e] ==> Meet(cubes, d, e, v, w))
  }

  ghost predicate Meet(cubes: seq<AbsoluteHyperRectangle>, d: nat, e: nat, v: nat, w: nat) {
    exists k :: 0 <= k < |cubes| && MeetAt(cubes[k], d, e, v, w)
  }

  predicate MeetAt(c: AbsoluteHyperRectangle, d: nat, e: nat, v: nat, w: nat) {
    d < |c.rectangle.dims| && e < |c.rectangle.dims| && c.rectangle.dims[d] == v && c.rectangle.dims[e] == w
  }

  lemma UncutDims(tile: seq<nat>, cube: AbsoluteHyperRectangle)
    requires Transferable(tile, cube) && AnyLarger(tile, cube.rectangle.dims)
    ensures |CubeTiles(tile, cube)| == 1 && CubeTiles(tile, cube)[0].rectangle.dims == cube.rectangle.dims
  {
    var group := CubeTiles(tile, cube);
    UncutCube(tile, cube);
    assert |group| == |Regions(group)| == 1 && Regions(group)[0] == group[0].Region();
  }

  /** Dimension d of a tile is its n-th part of the cube's. */
  lemma PartOf(tile: seq<nat>, cube: AbsoluteHyperRectangle, i: nat, d: nat) returns (n: nat)
    requires Transferable(tile, cube) && !AnyLarger(tile, cube.rectangle.dims) && i < |CubeTiles(tile, cube)| && d < |tile|
    ensures var part, size := CubeTiles(tile, cube)[i], cube.rectangle.dims[d];
      && |part.absoluteOffset| == |part.rectangle.dims| == |tile| && 0 < tile[d] <= size && n * tile[d] < size
      && part.absoluteOffset[d] == cube.absoluteOffset[d] + n * tile[d]
      && part.rectangle.dims[d] == PartSize(size, tile[d], n)
  {
    TileOnGrid(tile, cube, i, d);
    n :|
      && CubeTiles(tile, cube)[i].rectangle.offset[d] == n * tile[d] < cube.rectangle.dims[d]
      && CubeTiles(tile, cube)[i].absoluteOffset[d] == cube.absoluteOffset[d] + n * tile[d]
      && CubeTiles(tile, cube)[i].rectangle.dims[d] ==
         (if tile[d] <= cube.rectangle.dims[d] - n * tile[d] then tile[d] else cube.rectangle.dims[d] - n * tile[d]);
  }

  function PartSize(size: nat, tile: nat, n: nat): nat
    requires n * tile <= size
  {
    if tile <= size - n * tile then tile else size - n * tile
  }

  /** A tile of a comparable cube has sizes that cutting each dimension gives. */
  lemma TileSizesIn(tile: seq<nat>, cube: AbsoluteHyperRectangle, i: nat, d: nat)
    requires Transferable(tile, cube) && |tile| == |cube.rectangle.dims| && Comparable(cube.rectangle.dims, tile)
    requires i < |CubeTiles(tile, cube)| && d < |tile|
    ensures |CubeTiles(tile, cube)[i].rectangle.dims| == |tile|
    ensures CubeTiles(tile, cube)[i].rectangle.dims[d] in CutSizes(cube.rectangle.dims[d], tile[d])
  {
    hide CubeTiles, CutSizes;
    if AnyLarger(tile, cube.rectangle.dims) {
      UncutDims(tile, cube);
      Uncut(cube.rectangle.dims[d], tile[d]);
    } else {
      var n := PartOf(tile, cube, i, d);
      LastPart(cube.rectangle.dims[d], tile[d], n);
    }
  }

  lemma Uncut(size: nat, tile: nat)
    ensures size <= tile ==> CutSizes(size, tile) == {size}
  {
  }

  lemma LastPart(size: nat, tile: nat, n: nat)
    requires 0 < tile <= size && n * tile < size
    ensures PartSize(size, tile, n) in CutSizes(size, tile)
  {
    if tile > size - n * tile {
      DivModUnique(size, tile, n, size - n * tile);
    }
  }

  /** Where a part of this size starts. */
  function StartOfSize(size: nat, tile: nat, v: nat): nat
    requires tile > 0
  {
    if v != tile then size / tile * tile else 0
  }

  /** An element of the cube at the start of these parts. */
  function Probe(tile: seq<nat>, dims: seq<nat>, o: seq<nat>, d: nat, e: nat, v: nat, w: nat): (x: seq<nat>)
    requires |tile| == |dims| == |o| && d < |tile| && e < |tile| && d != e && forall a :: 0 <= a < |tile| ==> 0 < tile[a]
    ensures |x| == |tile| && x[d] == o[d] + StartOfSize(dims[d], tile[d], v) && x[e] == o[e] + StartOfSize(dims[e], tile[e], w)
    ensures forall a :: 0 <= a < |tile| && a != d && a != e ==> x[a] == o[a]
  {
    o[d := o[d] + StartOfSize(dims[d], tile[d], v)][e := o[e] + StartOfSize(dims[e], tile[e], w)]
  }

  /** A comparable cube has a tile with any two of these sizes in any two dimensions. */
  lemma TileOfSizes(tile: seq<nat>, cube: AbsoluteHyperRectangle, d: nat, e: nat, v: nat, w: nat) returns (i: nat)
    requires Transferable(tile, cube) && |tile| == |cube.rectangle.dims| && Comparable(cube.rectangle.dims, tile)
    requires d < |tile| && e < |tile| && d != e && forall a :: 0 <= a < |tile| ==> 0 < tile[a]
    requires v in CutSizes(cube.rectangle.dims[d], tile[d]) && w in CutSizes(cube.rectangle.dims[e], tile[e])
    ensures i < |CubeTiles(tile, cube)| && MeetAt(CubeTiles(tile, cube)[i], d, e, v, w)
  {
    hide CubeTiles, CutSizes, StartOfSize, Cover, Probe;
    var dims, group := cube.rectangle.dims, CubeTiles(tile, cube);
    if AnyLarger(tile, dims) {
      UncutDims(tile, cube);
      Uncut(dims[d], tile[d]);
      Uncut(dims[e], tile[e]);
      i := 0;
    } else {
      var x := Probe(tile, dims, cube.absoluteOffset, d, e, v, w);
      RestStarts(dims[d], tile[d], v);
      RestStarts(dims[e], tile[e], w);
      assert InRect(x, cube.Region());
      CubeTilesCover(x, tile, cube);
      i := CoveredBySome(x, Regions(group));
      assert Regions(group)[i] == group[i].Region();
      SizeAt(tile, cube, i, x, d, v);
      SizeAt(tile, cube, i, x, e, w);
    }
  }

  lemma RestStarts(size: nat, tile: nat, v: nat)
    requires 0 < tile <= size && v in CutSizes(size, tile)
    ensures StartOfSize(size, tile, v) < size
    ensures v != tile ==> v == size - StartOfSize(size, tile, v)
  {
    assert size == size / tile * tile + size % tile;
    if size == tile { assert v == tile; }
  }

  /** The tile around an element has the size that belongs to where the element is. */
  lemma SizeAt(tile: seq<nat>, cube: AbsoluteHyperRectangle, i: nat, x: seq<nat>, d: nat, v: nat)
    requires Transferable(tile, cube) && |tile| == |cube.rectangle.dims| && !AnyLarger(tile, cube.rectangle.dims)
    requires i < |CubeTiles(tile, cube)| && InRect(x, CubeTiles(tile, cube)[i].Region()) && d < |tile|
    requires v in CutSizes(cube.rectangle.dims[d], tile[d]) && tile[d] > 0
    requires d < |x| && x[d] == cube.absoluteOffset[d] + StartOfSize(cube.rectangle.dims[d], tile[d], v)
    ensures d < |CubeTiles(tile, cube)[i].rectangle.dims| && CubeTiles(tile, cube)[i].rectangle.dims[d] == v
  {
    hide CubeTiles, CutSizes, StartOfSize;
    var n := PartOf(tile, cube, i, d);
    var region := CubeTiles(tile, cube)[i].Region();
    assert region.offset[d] <= x[d] < region.offset[d] + region.dims[d];
    PartAround(cube.rectangle.dims[d], tile[d], n, v);
  }

  lemma PartAround(size: nat, tile: nat, n: nat, v: nat)
    requires 0 < tile <= size && n * tile < size && v in CutSizes(size, tile)
    requires n * tile <= StartOfSize(size, tile, v) < n * tile + tile
    ensures PartSize(size, tile, n) == v
  {
    if v != tile {
      RestStarts(size, tile, v);
      SameMultiple(n, size / tile, tile);
    } else {
      SameMultiple(n, 0, tile);
    }
  }

  lemma SameMultiple(n: nat, q: nat, t: nat)
    requires n * t <= q * t < n * t + t
    ensures n == q
  {
    assert n < q ==> (n + 1) * t <= q * t;
    assert n > q ==> (q + 1) * t <= n * t;
  }

  /** The size sets of all dimensions cut by a tile. */
  ghost function CutEach(sizes: seq<set<nat>>, tile: seq<nat>): (r: seq<set<nat>>)
    requires |tile| == |sizes|
    ensures |r| == |sizes| && forall d :: 0 <= d < |r| ==> r[d] == CutAll(sizes[d], tile[d])
  {
    seq(|sizes|, d requires 0 <= d < |sizes| => CutAll(sizes[d], tile[d]))
  }

  /** A hop over comparable cubes cuts the sizes of each dimension on its own. */
  lemma SizedHop(tile: seq<nat>, cubes: seq<AbsoluteHyperRectangle>, sizes: seq<set<nat>>)
    requires AllTransferable(tile, cubes) && Sized(cubes, sizes) && |tile| == |sizes| && forall a :: 0 <= a < |tile| ==> 0 < tile[a]
    requires forall k :: 0 <= k < |cubes| ==> Comparable(cubes[k].rectangle.dims, tile)
    ensures Sized(Hop(tile, cubes), CutEach(sizes, tile))
  {
    hide CubeTiles, Hop, CutSizes, Comparable, CutAll;
    var after, cut := Hop(tile, cubes), CutEach(sizes, tile);
    forall j, d | 0 <= j < |after| && 0 <= d < |cut| ensures |after[j].rectangle.dims| == |cut| && after[j].rectangle.dims[d] in cut[d] {
      var k, i := HopMember(tile, cubes, j);
      assert Transferable(tile, cubes[k]);
      TileSizesIn(tile, cubes[k], i, d);
    }
    forall j | 0 <= j < |after| ensures |after[j].rectangle.dims| == |cut| {
      var k, i := HopMember(tile, cubes, j);
      assert Transferable(tile, cubes[k]);
    }
    forall d, e, v, w | 0 <= d < |cut| && 0 <= e < |cut| && d != e && v in cut[d] && w in cut[e] ensures Meet(after, d, e, v, w) {
      var v0 :| v0 in sizes[d] && v in CutSizes(v0, tile[d]);
      var w0 :| w0 in sizes[e] && w in CutSizes(w0, tile[e]);
      assert Meet(cubes, d, e, v0, w0);
      var k :| 0 <= k < |cubes| && MeetAt(cubes[k], d, e, v0, w0);
      assert Transferable(tile, cubes[k]);
      var i := TileOfSizes(tile, cubes[k], d, e, v, w);
      var j := MemberOfHop(tile, cubes, k, i);
    }
  }

  // ----- along a path -----

  ghost function SizesAt(tiles: seq<seq<nat>>, full: seq<nat>, h: nat): (r: seq<set<nat>>)
    requires Ranked(tiles, |full|) && h <= |tiles|
    ensures |r| == |full| && forall d :: 0 <= d < |full| ==> r[d] == SizesBefore(tiles, full, h, d)
  {
    seq(|full|, d requires 0 <= d < |full| => SizesBefore(tiles, full, h, d))
  }

  lemma SizesNext(tiles: seq<seq<nat>>, full: seq<nat>, h: nat)
    requires Ranked(tiles, |full|) && h < |tiles|
    ensures SizesAt(tiles, full, h + 1) == CutEach(SizesAt(tiles, full, h), tiles[h])
  {
    forall d | 0 <= d < |full| ensures SizesBefore(tiles, full, h + 1, d) == CutAll(SizesBefore(tiles, full, h, d), tiles[h][d]) {
      var column := Column(tiles[..h + 1], d);
      assert column[..h] == Column(tiles[..h], d) && column[h] == tiles[h][d];
    }
  }

  lemma SizedWhole(tiles: seq<seq<nat>>, full: seq<nat>)
    requires Ranked(tiles, |full|)
    ensures Along(tiles[..0], full) == Some([Whole(full)]) && Sized([Whole(full)], SizesAt(tiles, full, 0))
  {
    var whole := [Whole(full)];
    assert tiles[..0] == [];
    forall d | 0 <= d < |full| ensures SizesAt(tiles, full, 0)[d] == {full[d]} { assert Column(tiles[..0], d) == []; }
    forall d, e | 0 <= d < |full| && 0 <= e < |full| ensures Meet(whole, d, e, full[d], full[e]) {
      assert MeetAt(whole[0], d, e, full[d], full[e]);
    }
  }

  /** Cubes of these sizes all compare with the tile exactly when no dimension is mixed with another. */
  lemma ComparableIff(tiles: seq<seq<nat>>, full: seq<nat>, h: nat, cubes: seq<AbsoluteHyperRectangle>)
    requires Ranked(tiles, |full|) && h < |tiles| && Sized(cubes, SizesAt(tiles, full, h))
    ensures (forall k :: 0 <= k < |cubes| ==> Comparable(cubes[k].rectangle.dims, tiles[h])) <==> !MixedAt(tiles, full, h)
  {
    hide SizesBefore;
    var tile, sizes := tiles[h], SizesAt(tiles, full, h);
    if k :| 0 <= k < |cubes| && !Comparable(cubes[k].rectangle.dims, tile) {
      var dims := cubes[k].rectangle.dims;
      var e :| 0 <= e < |tile| && dims[e] > tile[e];
      var d :| 0 <= d < |tile| && tile[d] > dims[d];
      assert dims[d] in sizes[d] && dims[e] in sizes[e];
      assert MixedIn(tiles, full, h, d, e);
    }
    if MixedAt(tiles, full, h) {
      var d, e :| 0 <= d < |full| && 0 <= e < |full| && d != e && MixedIn(tiles, full, h, d, e);
      var v :| v in SizesBefore(tiles, full, h, d) && v < tile[d];
      var w :| w in SizesBefore(tiles, full, h, e) && w > tile[e];
      assert v in sizes[d] && w in sizes[e];
      assert Meet(cubes, d, e, v, w);
      var k :| 0 <= k < |cubes| && MeetAt(cubes[k], d, e, v, w);
      assert !Comparable(cubes[k].rectangle.dims, tile);
    }
  }

  /** As long as no hop is mixed, the sizes that occur are those of each dimension on its own. */
  lemma {:induction false} SizedAlong(tiles: seq<seq<nat>>, full: seq<nat>, h: nat)
    requires PositiveShapes(tiles, full) && h <= |tiles| && forall g :: 0 <= g < h ==> !MixedAt(tiles, full, g)
    ensures Along(tiles[..h], full).Some? && Sized(Along(tiles[..h], full).value, SizesAt(tiles, full, h))
  {
    hide MixedAt, Sized, Along, SizesAt, AllTransferable, Comparable;
    if h == 0 {
      SizedWhole(tiles, full);
    } else {
      SizedAlong(tiles, full, h - 1);
      var cubes := Along(tiles[..h - 1], full).value;
      ComparableIff(tiles, full, h - 1, cubes);
      NextLevel(tiles, full, h - 1);
      SizedHop(tiles[h - 1], cubes, SizesAt(tiles, full, h - 1));
      SizesNext(tiles, full, h - 1);
    }
  }

  lemma NextLevel(tiles: seq<seq<nat>>, full: seq<nat>, h: nat)
    requires PositiveShapes(tiles, full) && h < |tiles|
    ensures Along(tiles[..h], full).Some? && AllTransferable(tiles[h], Along(tiles[..h], full).value)
    ensures Along(tiles[..h + 1], full) == Some(Hop(tiles[h], Along(tiles[..h], full).value))
  {
    PathAccepted(tiles[..h], full);
    PathAccepted(tiles[..h + 1], full);
    AlongNext(tiles, h, full);
  }

  /** After hop h every cube fits the hop's tile shape. */
  ghost predicate FitsAfter(tiles: seq<seq<nat>>, full: seq<nat>, h: nat)
    requires h < |tiles|
  {
    Along(tiles[..h + 1], full).Some? && AllFit(Along(tiles[..h + 1], full).value, tiles[h])
  }

  lemma LevelFitsIff(tiles: seq<seq<nat>>, full: seq<nat>, h: nat)
    requires PositiveShapes(tiles, full) && h < |tiles| && forall g :: 0 <= g < h ==> !MixedAt(tiles, full, g)
    ensures FitsAfter(tiles, full, h) <==> !MixedAt(tiles, full, h)
  {
    hide MixedAt, Along, SizesAt, AllTransferable, Comparable, AllFit;
    SizedAlong(tiles, full, h);
    NextLevel(tiles, full, h);
    var cubes := Along(tiles[..h], full).value;
    ComparableIff(tiles, full, h, cubes);
    HopFitsIff(tiles[h], cubes);
  }

  lemma {:induction false} FittingIsUnmixed(tiles: seq<seq<nat>>, full: seq<nat>, h: nat)
    requires PositiveShapes(tiles, full) && h <= |tiles| && forall g :: 0 <= g < h ==> FitsAfter(tiles, full, g)
    ensures forall g :: 0 <= g < h ==> !MixedAt(tiles, full, g)
  {
    hide MixedAt, FitsAfter;
    if h > 0 {
      FittingIsUnmixed(tiles, full, h - 1);
      LevelFitsIff(tiles, full, h - 1);
    }
  }

  /** On any path, in every level all cubes fit its tile shape, exactly when at no hop a size of one
      dimension is below its tile while a size of another is above its own. The sizes of a dimension are
      those that cutting it alone gives: the tile and the rest. */
  lemma PathFitsIff(tiles: seq<seq<nat>>, full: seq<nat>)
    requires PositiveShapes(tiles, full)
    ensures (forall h :: 0 <= h < |tiles| ==> FitsAfter(tiles, full, h)) <==> forall h :: 0 <= h < |tiles| ==> !MixedAt(tiles, full, h)
  {
    hide MixedAt, FitsAfter;
    if forall h :: 0 <= h < |tiles| ==> FitsAfter(tiles, full, h) { FittingIsUnmixed(tiles, full, |tiles|); }
    if forall h :: 0 <= h < |tiles| ==> !MixedAt(tiles, full, h) {
      forall h | 0 <= h < |tiles| ensures FitsAfter(tiles, full, h) { LevelFitsIff(tiles, full, h); }
    }
  }

  /** With one dimension every cube fits. */
  lemma OneDimensionFits(tiles: seq<seq<nat>>, full: seq<nat>, h: nat)
    requires PositiveShapes(tiles, full) && |full| == 1 && h < |tiles|
    ensures FitsAfter(tiles, full, h)
  {
    hide FitsAfter;
    PathFitsIff(tiles, full);
    assert forall g :: 0 <= g < |tiles| ==> !MixedAt(tiles, full, g);
  }

  /** So they do when every shape divides the one before it, the first one the output. */
  lemma DividingPathFits(tiles: seq<seq<nat>>, full: seq<nat>, h: nat)
    requires PositiveShapes(tiles, full) && h < |tiles|
    requires forall g, d :: 0 <= g < |tiles| && 0 <= d < |full| ==> ShapeAt(tiles, full, g, d) % tiles[g][d] == 0
    ensures FitsAfter(tiles, full, h)
  {
    hide FitsAfter;
    PathFitsIff(tiles, full);
    forall g | 0 <= g < |tiles| ensures !MixedAt(tiles, full, g) {
      forall d | 0 <= d < |full| ensures forall v :: v in SizesBefore(tiles, full, g, d) ==> v >= tiles[g][d] {
        DividedSizes(tiles, full, g, d);
        MultipleAbove(ShapeAt(tiles, full, g, d), tiles[g][d]);
      }
    }
  }

  /** The shape a hop starts from: the output, or the tile of the hop before. */
  function ShapeAt(tiles: seq<seq<nat>>, full: seq<nat>, h: nat, d: nat): (size: nat)
    requires PositiveShapes(tiles, full) && h <= |tiles| && d < |full|
    ensures size > 0
  {
    if h == 0 then full[d] else tiles[h - 1][d]
  }

  lemma MultipleAbove(size: nat, tile: nat)
    requires size > 0 && tile > 0 && size % tile == 0
    ensures size >= tile
  {
  }

  lemma {:induction false} DividedSizes(tiles: seq<seq<nat>>, full: seq<nat>, h: nat, d: nat)
    requires PositiveShapes(tiles, full) && h <= |tiles| && d < |full|
    requires forall g :: 0 <= g < h ==> ShapeAt(tiles, full, g, d) % tiles[g][d] == 0
    ensures forall v :: v in SizesBefore(tiles, full, h, d) ==> v == ShapeAt(tiles, full, h, d)
  {
    hide CutAll;
    if h == 0 {
      assert Column(tiles[..0], d) == [];
    } else {
      DividedSizes(tiles, full, h - 1, d);
      SizesNext(tiles, full, h - 1);
      MultipleAbove(ShapeAt(tiles, full, h - 1, d), tiles[h - 1][d]);
      assert SizesAt(tiles, full, h)[d] == CutAll(SizesAt(tiles, full, h - 1)[d], tiles[h - 1][d]);
    }
  }

  lemma OneCut(full: nat, tile: nat, w: nat)
    requires w in CutSizes(full, tile)
    ensures w in SizesIn(full, [tile])
  {
    assert [tile][..0] == [] && full in SizesIn(full, []);
  }

  /** Shapes that shrink along the path are not enough: the output [5, 4] cut by [4, 4] leaves a rest of
      [1, 4], which a tile of [2, 2] does not cut, though it is larger. */
  lemma ShrinkingPathDoesNotFit()
    ensures PositiveShapes([[4, 4], [2, 2]], [5, 4]) && !FitsAfter([[4, 4], [2, 2]], [5, 4], 1)
  {
    hide FitsAfter, SizesIn, CutSizes;
    var tiles: seq<seq<nat>>, full: seq<nat> := [[4, 4], [2, 2]], [5, 4];
    FirstCuts();
    assert SizesBefore(tiles, full, 1, 0) == SizesIn(5, [4]) by { assert Column(tiles[..1], 0) == [4]; }
    assert SizesBefore(tiles, full, 1, 1) == SizesIn(4, [4]) by { assert Column(tiles[..1], 1) == [4]; }
    assert MixedIn(tiles, full, 1, 0, 1);
    assert SizesBefore(tiles, full, 0, 0) == {5} && SizesBefore(tiles, full, 0, 1) == {4} by {
      assert Column(tiles[..0], 0) == [] && Column(tiles[..0], 1) == [];
    }
    assert !MixedAt(tiles, full, 0);
    LevelFitsIff(tiles, full, 1);
  }

  lemma FirstCuts()
    ensures 1 in SizesIn(5, [4]) && 4 in SizesIn(4, [4]) && SizesIn(5, []) == {5} && SizesIn(4, []) == {4}
  {
    OneCut(5, 4, 1);
    OneCut(4, 4, 4);
  }
}
