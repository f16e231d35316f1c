/** Tiling an output along a path of memory levels, one hop after the other. */
module TilePaths {
  import opened Options
  import opened Tensors
  import opened Rectangles
  import opened Tiles

  datatype AbsoluteHyperRectangle = AbsoluteHyperRectangle(rectangle: HyperRectangle, absoluteOffset: seq<nat>) {
    ghost predicate Valid() { rectangle.Valid() && |absoluteOffset| == |rectangle.offset| }

    /** The region of the full tensor this cube stands for. */
    function Region(): HyperRectangle { HyperRectangle(absoluteOffset, rectangle.dims) }
  }

  function Regions(cubes: seq<AbsoluteHyperRectangle>): (r: seq<HyperRectangle>)
    ensures |r| == |cubes|
  {
    seq(|cubes|, k requires 0 <= k < |cubes| => cubes[k].Region())
  }

  predicate AnyLarger(a: seq<nat>, b: seq<nat>) {
    exists d :: 0 <= d < |a| && d < |b| && a[d] > b[d]
  }

  /** The shape a hop moves at a time: the level's tile shape, or the whole source cube as soon as
      the tile is larger in any dimension. */
  function DestinationShape(tile: seq<nat>, source: seq<nat>): seq<nat> {
    if AnyLarger(tile, source) then source else tile
  }

  /** computeTileHyperRectangles accepts the transfer of this cube. */
  ghost predicate Transferable(tile: seq<nat>, cube: AbsoluteHyperRectangle) {
    cube.Valid() && Tileable(cube.rectangle.dims, DestinationShape(tile, cube.rectangle.dims))
  }

  ghost predicate AllTransferable(tile: seq<nat>, cubes: seq<AbsoluteHyperRectangle>) {
    forall k :: 0 <= k < |cubes| ==> Transferable(tile, cubes[k])
  }

  ghost function CubeTiles(tile: seq<nat>, cube: AbsoluteHyperRectangle): (r: seq<AbsoluteHyperRectangle>)
    requires Transferable(tile, cube)
    ensures forall k :: 0 <= k < |r| ==> r[k].Valid() && |r[k].absoluteOffset| == |cube.absoluteOffset|
  {
    var tiles := TileList(cube.rectangle.dims, DestinationShape(tile, cube.rectangle.dims));
    seq(|tiles|, k requires 0 <= k < |tiles| =>
      assert tiles[k].Valid() && |tiles[k].dims| == |cube.absoluteOffset|;
      AbsoluteHyperRectangle(tiles[k], Add(cube.absoluteOffset, tiles[k].offset)))
  }

  ghost function Hop(tile: seq<nat>, cubes: seq<AbsoluteHyperRectangle>): (r: seq<AbsoluteHyperRectangle>)
    requires AllTransferable(tile, cubes)
  {
    if cubes == [] then [] else Hop(tile, cubes[..|cubes| - 1]) + CubeTiles(tile, cubes[|cubes| - 1])
  }

  ghost function HopLengths(tile: seq<nat>, cubes: seq<AbsoluteHyperRectangle>): (r: seq<nat>)
    requires AllTransferable(tile, cubes)
  {
    seq(|cubes|, k requires 0 <= k < |cubes| => |CubeTiles(tile, cubes[k])|)
  }

  method GetMemoryTransfer(tile: seq<nat>, source: seq<nat>) returns (destination: seq<nat>)
    ensures destination == DestinationShape(tile, source)
  {
    destination := tile;
    for d := 0 to |tile|
      invariant forall e :: 0 <= e < d && e < |source| ==> tile[e] <= source[e]
    {
      if d < |source| && tile[d] > source[d] { return source; }
    }
  }

  /** The tiles of a cube, at its absolute offset. */
  method AbsoluteTiles(tiles: seq<HyperRectangle>, ghost tile: seq<nat>, cube: AbsoluteHyperRectangle)
    returns (cubes: seq<AbsoluteHyperRectangle>)
    requires Transferable(tile, cube) && tiles == TileList(cube.rectangle.dims, DestinationShape(tile, cube.rectangle.dims))
    ensures cubes == CubeTiles(tile, cube)
  {
    cubes := [];
    for i := 0 to |tiles|
      invariant |cubes| == i && forall k :: 0 <= k < i ==> cubes[k] == CubeTiles(tile, cube)[k]
    {
      assert tiles[i].Valid() && |tiles[i].dims| == |cube.absoluteOffset|;
      cubes := cubes + [AbsoluteHyperRectangle(tiles[i], Add(cube.absoluteOffset, tiles[i].offset))];
    }
  }

  method GetCubeTransfers(tile: seq<nat>, sourceCubes: seq<AbsoluteHyperRectangle>)
    returns (r: Option<(seq<AbsoluteHyperRectangle>, seq<nat>)>)
    requires forall k :: 0 <= k < |sourceCubes| ==> sourceCubes[k].Valid()
    ensures r.Some? <==> AllTransferable(tile, sourceCubes)
    ensures r.Some? ==> r.value == (Hop(tile, sourceCubes), HopLengths(tile, sourceCubes))
  {
    var solution: seq<AbsoluteHyperRectangle>, solutionLengths: seq<nat> := [], [];
    for k := 0 to |sourceCubes|
      invariant AllTransferable(tile, sourceCubes[..k])
      invariant solution == Hop(tile, sourceCubes[..k])
      invariant solutionLengths == HopLengths(tile, sourceCubes[..k])
    {
      var cube := sourceCubes[k];
      var destination := GetMemoryTransfer(tile, cube.rectangle.dims);
      var tiles := ComputeTileHyperRectangles(cube.rectangle.dims, destination);
      if tiles.None? {
        assert !Transferable(tile, sourceCubes[k]);
        return None;
      }
      var cubes := AbsoluteTiles(tiles.value, tile, cube);
      assert sourceCubes[..k + 1] == sourceCubes[..k] + [cube];
      solution := solution + cubes;
      solutionLengths := solutionLengths + [|cubes|];
    }
    assert sourceCubes[..|sourceCubes|] == sourceCubes;
    r := Some((solution, solutionLengths));
  }

  function Flatten<T>(groups: seq<seq<T>>): seq<T> {
    if groups == [] then [] else Flatten(groups[..|groups| - 1]) + groups[|groups| - 1]
  }

  function Total(lengths: seq<nat>): nat {
    if lengths == [] then 0 else Total(lengths[..|lengths| - 1]) + lengths[|lengths| - 1]
  }

  /** Cuts the flat list back into one group per source cube. */
  method Regroup<T>(cubes: seq<T>, solutionLengths: seq<nat>) returns (groups: seq<seq<T>>)
    requires Total(solutionLengths) == |cubes|
    ensures Flatten(groups) == cubes
    ensures |groups| == |solutionLengths| && forall i :: 0 <= i < |groups| ==> |groups[i]| == solutionLengths[i]
  {
    groups := [];
    var start := 0;
    for i := 0 to |solutionLengths|
      invariant start == Total(solutionLengths[..i])
      invariant start <= |cubes|
      invariant Flatten(groups) == cubes[..start]
      invariant |groups| == i && forall j :: 0 <= j < i ==> |groups[j]| == solutionLengths[j]
    {
      assert solutionLengths[..i + 1][..i] == solutionLengths[..i];
      TotalPrefix(solutionLengths, i + 1);
      var group := cubes[start..start + solutionLengths[i]];
      assert (groups + [group])[..i] == groups;
      groups := groups + [group];
      start := start + solutionLengths[i];
    }
    assert solutionLengths[..|solutionLengths|] == solutionLengths;
  }

  lemma {:induction false} TotalPrefix(lengths: seq<nat>, i: nat)
    requires i <= |lengths|
    ensures Total(lengths[..i]) <= Total(lengths)
    decreases |lengths|
  {
    if i == |lengths| {
      assert lengths[..i] == lengths;
    } else {
      TotalPrefix(lengths[..|lengths| - 1], i);
      assert lengths[..|lengths| - 1][..i] == lengths[..i];
    }
  }

  /** The cubes after hopping through the tile shapes of a path; None once a transfer is rejected. */
  ghost function Along(tiles: seq<seq<nat>>, full: seq<nat>): (r: Option<seq<AbsoluteHyperRectangle>>) {
    if tiles == [] then Some([Whole(full)])
    else
      var before := Along(tiles[..|tiles| - 1], full);
      if before.Some? && AllTransferable(tiles[|tiles| - 1], before.value)
      then Some(Hop(tiles[|tiles| - 1], before.value)) else None
  }

  function Whole(full: seq<nat>): (c: AbsoluteHyperRectangle)
    ensures c.Valid()
  {
    AbsoluteHyperRectangle(HyperRectangle(Zeros(|full|), full), Zeros(|full|))
  }

  /** The hops taken towards the level at targetIdx of a path with these tile shapes. */
  function Hops(shapes: seq<seq<nat>>, targetIdx: nat): seq<seq<nat>>
    requires targetIdx < |shapes|
  {
    var t := if targetIdx == 0 then 1 else targetIdx;
    if |shapes| == 1 then [] else shapes[1..t + 1]
  }

  /** The tiles of each source cube, as one group. */
  ghost function TileGroups(tile: seq<nat>, cubes: seq<AbsoluteHyperRectangle>): (groups: seq<seq<AbsoluteHyperRectangle>>)
    requires AllTransferable(tile, cubes)
    ensures |groups| == |cubes|
  {
    seq(|cubes|, k requires 0 <= k < |cubes| => CubeTiles(tile, cubes[k]))
  }

  // ----- in the cubes' own terms -----

  /** The tiles of a cube, in order: they cover it once and nothing else; each starts some tiles into the
      cube in every dimension and is a whole tile there, or what is left of the cube. */
  ghost predicate OnGrid(tile: seq<nat>, cube: AbsoluteHyperRectangle, group: seq<AbsoluteHyperRectangle>) {
    && cube.Valid() && |tile| == |cube.absoluteOffset|
    && (forall k :: 0 <= k < |group| ==> group[k].Valid() && |group[k].absoluteOffset| == |tile|)
    && (forall k, d :: 0 <= k < |group| && 0 <= d < |tile| ==> OnGridIn(tile, cube, group[k], d))
    && (forall k, l :: 0 <= k < l < |group| ==> Ascends(group[k].absoluteOffset, group[l].absoluteOffset))
    && (forall x: seq<nat> :: |x| == |tile| ==> Cover(x, Regions(group)) == if InRect(x, cube.Region()) then 1 else 0)
  }

  ghost predicate OnGridIn(tile: seq<nat>, cube: AbsoluteHyperRectangle, part: AbsoluteHyperRectangle, d: nat)
    requires cube.Valid() && part.Valid() && d < |tile| == |cube.absoluteOffset| == |part.absoluteOffset|
  {
    exists i: nat ::
      && part.rectangle.offset[d] == i * tile[d] < cube.rectangle.dims[d]
      && part.absoluteOffset[d] == cube.absoluteOffset[d] + i * tile[d]
      && part.rectangle.dims[d] == (if tile[d] <= cube.rectangle.dims[d] - i * tile[d] then tile[d] else cube.rectangle.dims[d] - i * tile[d])
  }

  /** What a hop makes of a cube: its tiles; or the cube as a whole when the tile is larger in some dimension. */
  ghost predicate CutInto(tile: seq<nat>, cube: AbsoluteHyperRectangle, group: seq<AbsoluteHyperRectangle>) {
    && cube.Valid()
    && if exists d :: 0 <= d < |tile| && d < |cube.rectangle.dims| && tile[d] > cube.rectangle.dims[d]
       then |group| == 1 && group[0].Region() == cube.Region() && forall d :: 0 <= d < |group[0].rectangle.offset| ==> group[0].rectangle.offset[d] == 0
       else OnGrid(tile, cube, group)
  }

  lemma TilesCutInto(tile: seq<nat>, cube: AbsoluteHyperRectangle)
    requires Transferable(tile, cube)
    ensures CutInto(tile, cube, CubeTiles(tile, cube))
  {
    hide OnGrid;
    var group, dims := CubeTiles(tile, cube), cube.rectangle.dims;
    if AnyLarger(tile, dims) {
      UncutCube(tile, cube);
      WholeTile(dims);
      assert |group| == |Regions(group)| && Regions(group)[0] == group[0].Region();
    } else {
      TilesOnGrid(tile, cube);
    }
  }

  lemma TilesOnGrid(tile: seq<nat>, cube: AbsoluteHyperRectangle)
    requires Transferable(tile, cube) && !AnyLarger(tile, cube.rectangle.dims)
    ensures OnGrid(tile, cube, CubeTiles(tile, cube))
  {
    hide CubeTiles, Ascends, InRect, OnGridIn;
    var group := CubeTiles(tile, cube);
    forall k, d | 0 <= k < |group| && 0 <= d < |tile| ensures OnGridIn(tile, cube, group[k], d) {
      TileOnGrid(tile, cube, k, d);
    }
    forall k, l | 0 <= k < l < |group| ensures Ascends(group[k].absoluteOffset, group[l].absoluteOffset) {
      TilesAscend(tile, cube, k, l);
    }
    forall x: seq<nat> | |x| == |tile| ensures Cover(x, Regions(group)) == if InRect(x, cube.Region()) then 1 else 0 {
      CubeTilesCover(x, tile, cube);
    }
  }

  /** The k-th tile is that of the k-th index vector. */
  lemma TileOnGrid(tile: seq<nat>, cube: AbsoluteHyperRectangle, k: nat, d: nat)
    requires Transferable(tile, cube) && !AnyLarger(tile, cube.rectangle.dims) && k < |CubeTiles(tile, cube)| && d < |tile|
    ensures forall e :: 0 <= e < |tile| ==> 0 < TileCounts(cube.rectangle.dims, tile)[e]
    ensures var v := Digits(k, TileCounts(cube.rectangle.dims, tile));
      |v| == |tile| && CubeTiles(tile, cube)[k].absoluteOffset[d] == cube.absoluteOffset[d] + v[d] * tile[d]
    ensures OnGridIn(tile, cube, CubeTiles(tile, cube)[k], d)
  {
    var dims := cube.rectangle.dims;
    CountsPositive(dims, tile);
    var v := Digits(k, TileCounts(dims, tile));
    OffsetsInside(v, dims, tile);
    assert CubeTiles(tile, cube)[k].rectangle == TileAt(v, dims, tile);
  }

  lemma TilesAscend(tile: seq<nat>, cube: AbsoluteHyperRectangle, k: nat, l: nat)
    requires Transferable(tile, cube) && !AnyLarger(tile, cube.rectangle.dims) && k < l < |CubeTiles(tile, cube)|
    ensures Ascends(CubeTiles(tile, cube)[k].absoluteOffset, CubeTiles(tile, cube)[l].absoluteOffset)
  {
    var a, b := CubeTiles(tile, cube)[k].absoluteOffset, CubeTiles(tile, cube)[l].absoluteOffset;
    var ends := TileCounts(cube.rectangle.dims, tile);
    CountsPositive(cube.rectangle.dims, tile);
    DigitsAscend(k, l, ends);
    var v, w := Digits(k, ends), Digits(l, ends);
    forall e | 0 <= e < |tile| ensures (v[e] < w[e] ==> a[e] < b[e]) && (v[e] == w[e] ==> a[e] == b[e]) {
      TileOnGrid(tile, cube, k, e);
      TileOnGrid(tile, cube, l, e);
      ScaledBelow(v[e], w[e], tile[e]);
    }
    SameOrder(a, b, v, w);
  }

  lemma ScaledBelow(v: nat, w: nat, t: nat)
    requires t > 0
    ensures v < w ==> v * t < w * t
  {
    assert v < w ==> (v + 1) * t <= w * t;
  }

  lemma SameOrder(a: seq<nat>, b: seq<nat>, v: seq<nat>, w: seq<nat>)
    requires |a| == |b| == |v| == |w| && Ascends(v, w)
    requires forall e :: 0 <= e < |v| ==> (v[e] < w[e] ==> a[e] < b[e]) && (v[e] == w[e] ==> a[e] == b[e])
    ensures Ascends(a, b)
  {
    var d :| 0 <= d < |v| && v[d] < w[d] && forall e :: d < e < |v| ==> v[e] == w[e];
    assert a[d] < b[d];
  }

  /** The cubes before hop h of a path: the whole output, then what the hop before made. */
  function CubesBefore(full: seq<nat>, groupings: seq<seq<seq<AbsoluteHyperRectangle>>>, h: nat): seq<AbsoluteHyperRectangle>
    requires h <= |groupings|
  {
    if h == 0 then [Whole(full)] else Flatten(groupings[h - 1])
  }

  /** A path through the first t hops towards levels with these tile shapes, the first of which is the
      home of the whole output: every hop cuts every cube of the hop before. */
  ghost predicate PathOf(shapes: seq<seq<nat>>, t: nat, full: seq<nat>, groupings: seq<seq<seq<AbsoluteHyperRectangle>>>) {
    && t < |shapes| && |groupings| == t
    && forall h :: 0 <= h < t ==>
         && |groupings[h]| == |CubesBefore(full, groupings, h)|
         && forall k :: 0 <= k < |groupings[h]| ==> CutInto(shapes[h + 1], CubesBefore(full, groupings, h)[k], groupings[h][k])
  }

  lemma PathMore(shapes: seq<seq<nat>>, t: nat, full: seq<nat>, groupings: seq<seq<seq<AbsoluteHyperRectangle>>>,
                 cubes: seq<AbsoluteHyperRectangle>)
    requires PathOf(shapes, t, full, groupings) && t + 1 < |shapes| && CubesBefore(full, groupings, t) == cubes
    requires AllTransferable(shapes[t + 1], cubes)
    ensures var more := groupings + [TileGroups(shapes[t + 1], cubes)];
      PathOf(shapes, t + 1, full, more) && CubesBefore(full, more, t + 1) == Hop(shapes[t + 1], cubes)
  {
    hide CutInto, Flatten, Transferable, AllTransferable, CubeTiles, Hop, Whole;
    var groups := TileGroups(shapes[t + 1], cubes);
    var more := groupings + [groups];
    GroupsFlatten(shapes[t + 1], cubes);
    GroupsCutInto(shapes[t + 1], cubes);
    forall h | 0 <= h <= t
      ensures CubesBefore(full, more, h) == CubesBefore(full, groupings, h) && (h < t ==> more[h] == groupings[h])
    {
    }
  }

  lemma GroupsCutInto(tile: seq<nat>, cubes: seq<AbsoluteHyperRectangle>)
    requires AllTransferable(tile, cubes)
    ensures |TileGroups(tile, cubes)| == |cubes| && forall k :: 0 <= k < |cubes| ==> CutInto(tile, cubes[k], TileGroups(tile, cubes)[k])
  {
    hide CutInto, CubeTiles;
    forall k | 0 <= k < |cubes| ensures CutInto(tile, cubes[k], TileGroups(tile, cubes)[k]) { TilesCutInto(tile, cubes[k]); }
  }

  /** None for a rejected transfer, or when there is no hop and so no list of group lengths.
      Otherwise one group of cubes per cube of the level before the target. */
  method WrapTilingSolution(shapes: seq<seq<nat>>, targetIdx: nat, fullShape: seq<nat>)
    returns (r: Option<seq<seq<AbsoluteHyperRectangle>>>)
    requires targetIdx < |shapes|
    ensures r.Some? <==> |shapes| > 1 && Along(Hops(shapes, targetIdx), fullShape).Some?
    ensures r.Some? ==> Flatten(r.value) == Along(Hops(shapes, targetIdx), fullShape).value
    ensures r.Some? ==>
      var hops := Hops(shapes, targetIdx);
      var before := Along(hops[..|hops| - 1], fullShape);
      before.Some? && AllTransferable(hops[|hops| - 1], before.value) && r.value == TileGroups(hops[|hops| - 1], before.value)
    ensures r.Some? ==> exists groupings ::
      PathOf(shapes, if targetIdx == 0 then 1 else targetIdx, fullShape, groupings) && r.value == groupings[|groupings| - 1]
    ensures r.Some? ==> forall x: seq<nat> :: |x| == |fullShape| ==> Cover(x, Regions(Flatten(r.value))) == if InBox(x, fullShape) then 1 else 0
    ensures |shapes| > 1 && PositiveShapes(shapes[1..], fullShape) ==> r.Some?
  {
    hide Hop, CubeTiles, AllTransferable, Whole, Along, Flatten, Total, PathOf, CubesBefore, Cover, Regions, InBox, PositiveShapes;
    PositiveAccepted(shapes, targetIdx, fullShape);
    ghost var groupings: seq<seq<seq<AbsoluteHyperRectangle>>> := [];
    NoPath(shapes, fullShape);
    var outputCubes := [Whole(fullShape)];
    assert Along(Hops(shapes, targetIdx)[..0], fullShape) == Some(outputCubes) by { NoHops(fullShape); }
    var solutionLengths: Option<seq<nat>> := None;
    ghost var hops := Hops(shapes, targetIdx);
    ghost var sources := outputCubes;
    var count := if |shapes| == 1 then 0 else if targetIdx == 0 then 1 else targetIdx;
    assert count == |hops| && forall h :: 0 <= h < count ==> hops[h] == shapes[h + 1];
    for h := 0 to count
      invariant Along(hops[..h], fullShape) == Some(outputCubes)
      invariant forall k :: 0 <= k < |outputCubes| ==> outputCubes[k].Valid()
      invariant h == 0 ==> solutionLengths.None?
      invariant h > 0 ==> Along(hops[..h - 1], fullShape) == Some(sources) && AllTransferable(hops[h - 1], sources)
      invariant h > 0 ==> outputCubes == Hop(hops[h - 1], sources)
      invariant h > 0 ==> solutionLengths == Some(HopLengths(hops[h - 1], sources))
      invariant |groupings| == h && PathOf(shapes, h, fullShape, groupings) && CubesBefore(fullShape, groupings, h) == outputCubes
      invariant h > 0 ==> groupings[h - 1] == TileGroups(hops[h - 1], sources)
    {
      AlongNext(hops, h, fullShape);
      var transfers := GetCubeTransfers(shapes[h + 1], outputCubes);
      if transfers.None? {
        AlongPrefix(hops, h + 1, fullShape);
        return None;
      }
      HopValid(shapes[h + 1], outputCubes);
      PathMore(shapes, h, fullShape, groupings, outputCubes);
      groupings := groupings + [TileGroups(shapes[h + 1], outputCubes)];
      sources := outputCubes;
      solutionLengths := Some(transfers.value.1);
      outputCubes := transfers.value.0;
    }
    assert hops[..count] == hops;
    if solutionLengths.None? { return None; }
    LengthsTotal(hops[count - 1], sources);
    var groups := Regroup(outputCubes, solutionLengths.value);
    GroupsFlatten(hops[count - 1], sources);
    FlattenInjective(groups, TileGroups(hops[count - 1], sources));
    r := Some(groups);
    OutputCovered(hops, fullShape);
  }

  lemma OutputCovered(hops: seq<seq<nat>>, full: seq<nat>)
    requires Along(hops, full).Some?
    ensures forall x: seq<nat> :: |x| == |full| ==> Cover(x, Regions(Along(hops, full).value)) == if InBox(x, full) then 1 else 0
  {
    forall x: seq<nat> | |x| == |full| ensures Cover(x, Regions(Along(hops, full).value)) == if InBox(x, full) then 1 else 0 {
      PathPartition(x, hops, full);
    }
  }

  lemma PositiveAccepted(shapes: seq<seq<nat>>, targetIdx: nat, full: seq<nat>)
    requires targetIdx < |shapes|
    ensures |shapes| > 1 && PositiveShapes(shapes[1..], full) ==> Along(Hops(shapes, targetIdx), full).Some?
  {
    if |shapes| > 1 && PositiveShapes(shapes[1..], full) {
      var hops := Hops(shapes, targetIdx);
      forall h | 0 <= h < |hops| ensures hops[h] == shapes[1..][h] {}
      PathAccepted(hops, full);
    }
  }

  ghost predicate PositiveShapes(shapes: seq<seq<nat>>, full: seq<nat>) {
    && |full| > 0 && (forall d :: 0 <= d < |full| ==> 0 < full[d])
    && forall h :: 0 <= h < |shapes| ==> |shapes[h]| == |full| && forall d :: 0 <= d < |full| ==> 0 < shapes[h][d]
  }

  lemma NoPath(shapes: seq<seq<nat>>, full: seq<nat>)
    requires shapes != []
    ensures PathOf(shapes, 0, full, []) && CubesBefore(full, [], 0) == [Whole(full)]
  {
  }

  lemma NoHops(full: seq<nat>)
    ensures Along([], full) == Some([Whole(full)])
  {
  }

  lemma AlongNext(hops: seq<seq<nat>>, h: nat, full: seq<nat>)
    requires h < |hops|
    ensures var before := Along(hops[..h], full);
      Along(hops[..h + 1], full) ==
        if before.Some? && AllTransferable(hops[h], before.value) then Some(Hop(hops[h], before.value)) else None
  {
    assert hops[..h + 1][..h] == hops[..h];
  }

  lemma {:induction false} GroupsFlatten(tile: seq<nat>, cubes: seq<AbsoluteHyperRectangle>)
    requires AllTransferable(tile, cubes)
    ensures Flatten(TileGroups(tile, cubes)) == Hop(tile, cubes)
  {
    if cubes != [] {
      GroupsFlatten(tile, cubes[..|cubes| - 1]);
      assert TileGroups(tile, cubes)[..|cubes| - 1] == TileGroups(tile, cubes[..|cubes| - 1]);
    }
  }

  /** A flat list has one grouping with given group lengths. */
  lemma {:induction false} FlattenInjective<T>(a: seq<seq<T>>, b: seq<seq<T>>)
    requires |a| == |b| && Flatten(a) == Flatten(b)
    requires forall i :: 0 <= i < |a| ==> |a[i]| == |b[i]|
    ensures a == b
  {
    if a != [] {
      var l := |a| - 1;
      var fa, fb := Flatten(a[..l]), Flatten(b[..l]);
      assert fa + a[l] == fb + b[l];
      assert |fa| == |fb|;
      assert fa == (fa + a[l])[..|fa|] && fb == (fb + b[l])[..|fb|];
      assert a[l] == (fa + a[l])[|fa|..] && b[l] == (fb + b[l])[|fb|..];
      FlattenInjective(a[..l], b[..l]);
    }
  }

  lemma {:induction false} AlongPrefix(hops: seq<seq<nat>>, h: nat, full: seq<nat>)
    requires h <= |hops| && Along(hops[..h], full).None?
    ensures Along(hops, full).None?
    decreases |hops|
  {
    if h == |hops| {
      assert hops[..h] == hops;
    } else {
      assert hops[..|hops| - 1][..h] == hops[..h];
      AlongPrefix(hops[..|hops| - 1], h, full);
    }
  }

  lemma {:induction false} HopValid(tile: seq<nat>, cubes: seq<AbsoluteHyperRectangle>)
    requires AllTransferable(tile, cubes)
    ensures forall k :: 0 <= k < |Hop(tile, cubes)| ==> Hop(tile, cubes)[k].Valid()
  {
    if cubes != [] { HopValid(tile, cubes[..|cubes| - 1]); }
  }

  lemma {:induction false} LengthsTotal(tile: seq<nat>, cubes: seq<AbsoluteHyperRectangle>)
    requires AllTransferable(tile, cubes)
    ensures Total(HopLengths(tile, cubes)) == |Hop(tile, cubes)|
  {
    if cubes != [] {
      LengthsTotal(tile, cubes[..|cubes| - 1]);
      assert HopLengths(tile, cubes)[..|cubes| - 1] == HopLengths(tile, cubes[..|cubes| - 1]);
    }
  }

  // ----- still a partition -----

  lemma {:induction false} CoverConcat(x: seq<nat>, a: seq<HyperRectangle>, b: seq<HyperRectangle>)
    ensures Cover(x, a + b) == Cover(x, a) + Cover(x, b)
  {
    if b == [] {
      assert a + b == a;
    } else {
      assert (a + b)[..|a + b| - 1] == a + b[..|b| - 1];
      CoverConcat(x, a, b[..|b| - 1]);
    }
  }

  function Minus(x: seq<nat>, o: seq<nat>): (y: seq<nat>)
    requires |x| == |o| && forall d :: 0 <= d < |x| ==> o[d] <= x[d]
    ensures |y| == |x|
  {
    seq(|x|, d requires 0 <= d < |x| => x[d] - o[d])
  }

  /** Moving every rectangle by o moves what they cover by o. */
  lemma {:induction false} CoverTranslated(x: seq<nat>, o: seq<nat>, rects: seq<HyperRectangle>, moved: seq<HyperRectangle>)
    requires |x| == |o| && |moved| == |rects|
    requires forall k :: 0 <= k < |rects| ==> |rects[k].offset| == |rects[k].dims| == |o|
    requires forall k :: 0 <= k < |rects| ==> moved[k] == HyperRectangle(Add(o, rects[k].offset), rects[k].dims)
    ensures Cover(x, moved) ==
            if forall d :: 0 <= d < |x| ==> o[d] <= x[d] then Cover(Minus(x, o), rects) else 0
  {
    if forall d :: 0 <= d < |x| ==> o[d] <= x[d] {
      if rects != [] {
        var l := |rects| - 1;
        CoverTranslated(x, o, rects[..l], moved[..l]);
        InRectTranslated(x, o, rects[l]);
      }
    } else {
      forall k | 0 <= k < |moved| ensures !InRect(x, moved[k]) {
        var d :| 0 <= d < |x| && o[d] > x[d];
        assert moved[k].offset[d] > x[d];
      }
      CoverNone(x, moved);
    }
  }

  lemma InRectTranslated(x: seq<nat>, o: seq<nat>, rect: HyperRectangle)
    requires |x| == |o| == |rect.dims| && rect.Valid() && forall d :: 0 <= d < |x| ==> o[d] <= x[d]
    ensures InRect(x, HyperRectangle(Add(o, rect.offset), rect.dims)) <==> InRect(Minus(x, o), rect)
  {
    var moved := HyperRectangle(Add(o, rect.offset), rect.dims);
    if InRect(x, moved) {
      forall d | 0 <= d < |x| ensures rect.offset[d] <= Minus(x, o)[d] < rect.offset[d] + rect.dims[d] {
        assert moved.offset[d] <= x[d] < moved.offset[d] + moved.dims[d];
      }
    }
    if InRect(Minus(x, o), rect) {
      forall d | 0 <= d < |x| ensures moved.offset[d] <= x[d] < moved.offset[d] + moved.dims[d] {
        assert rect.offset[d] <= Minus(x, o)[d] < rect.offset[d] + rect.dims[d];
      }
    }
  }

  /** The tiles of one cube cover its region once and nothing else, with its volume. */
  lemma CubeTilesCover(x: seq<nat>, tile: seq<nat>, cube: AbsoluteHyperRectangle)
    requires Transferable(tile, cube) && |x| == |cube.absoluteOffset|
    ensures Cover(x, Regions(CubeTiles(tile, cube))) == if InRect(x, cube.Region()) then 1 else 0
    ensures TotalVolume(Regions(CubeTiles(tile, cube))) == Product(cube.rectangle.dims)
  {
    var dims, o := cube.rectangle.dims, cube.absoluteOffset;
    var destination := DestinationShape(tile, dims);
    var tiles := TileList(dims, destination);
    CoverTranslated(x, o, tiles, Regions(CubeTiles(tile, cube)));
    if forall d :: 0 <= d < |x| ==> o[d] <= x[d] {
      TilesPartition(Minus(x, o), dims, destination);
      InRectTranslated(x, o, HyperRectangle(Zeros(|o|), dims));
      assert Add(o, Zeros(|o|)) == o;
      InZeroBased(Minus(x, o), dims);
    }
    TileVolumesSum(dims, destination);
    SameVolumes(tiles, Regions(CubeTiles(tile, cube)));
  }

  lemma InZeroBased(x: seq<nat>, dims: seq<nat>)
    requires |x| == |dims|
    ensures InRect(x, HyperRectangle(Zeros(|dims|), dims)) <==> InBox(x, dims)
  {
    var rect := HyperRectangle(Zeros(|dims|), dims);
    if InRect(x, rect) {
      forall d | 0 <= d < |x| ensures x[d] < dims[d] { assert x[d] < rect.offset[d] + rect.dims[d]; }
    }
  }

  lemma {:induction false} SameVolumes(a: seq<HyperRectangle>, b: seq<HyperRectangle>)
    requires |a| == |b| && forall k :: 0 <= k < |a| ==> a[k].dims == b[k].dims
    ensures TotalVolume(a) == TotalVolume(b)
  {
    if a != [] { SameVolumes(a[..|a| - 1], b[..|b| - 1]); }
  }

  lemma {:induction false} VolumeConcat(a: seq<HyperRectangle>, b: seq<HyperRectangle>)
    ensures TotalVolume(a + b) == TotalVolume(a) + TotalVolume(b)
  {
    if b == [] {
      assert a + b == a;
    } else {
      assert (a + b)[..|a + b| - 1] == a + b[..|b| - 1];
      VolumeConcat(a, b[..|b| - 1]);
    }
  }

  lemma HopLast(tile: seq<nat>, cubes: seq<AbsoluteHyperRectangle>)
    requires AllTransferable(tile, cubes) && cubes != []
    ensures AllTransferable(tile, cubes[..|cubes| - 1])
    ensures Regions(Hop(tile, cubes))
         == Regions(Hop(tile, cubes[..|cubes| - 1])) + Regions(CubeTiles(tile, cubes[|cubes| - 1]))
  {
    var a, b := Hop(tile, cubes[..|cubes| - 1]), CubeTiles(tile, cubes[|cubes| - 1]);
    assert Hop(tile, cubes) == a + b;
    RegionsConcat(a, b);
  }

  lemma RegionsLast(cubes: seq<AbsoluteHyperRectangle>)
    requires cubes != []
    ensures Regions(cubes) == Regions(cubes[..|cubes| - 1]) + [cubes[|cubes| - 1].Region()]
  {
  }

  lemma RegionsConcat(a: seq<AbsoluteHyperRectangle>, b: seq<AbsoluteHyperRectangle>)
    ensures Regions(a + b) == Regions(a) + Regions(b)
  {
  }

  lemma {:induction false} HopRank(tile: seq<nat>, cubes: seq<AbsoluteHyperRectangle>, rank: nat)
    requires AllTransferable(tile, cubes) && forall k :: 0 <= k < |cubes| ==> |cubes[k].absoluteOffset| == rank
    ensures forall k :: 0 <= k < |Hop(tile, cubes)| ==> |Hop(tile, cubes)[k].absoluteOffset| == rank
  {
    if cubes != [] { HopRank(tile, cubes[..|cubes| - 1], rank); }
  }

  /** A hop changes neither how often an element is covered nor the total volume. */
  lemma {:induction false} HopKeepsCover(x: seq<nat>, tile: seq<nat>, cubes: seq<AbsoluteHyperRectangle>)
    requires AllTransferable(tile, cubes)
    requires forall k :: 0 <= k < |cubes| ==> |cubes[k].absoluteOffset| == |x|
    ensures Cover(x, Regions(Hop(tile, cubes))) == Cover(x, Regions(cubes))
    ensures TotalVolume(Regions(Hop(tile, cubes))) == TotalVolume(Regions(cubes))
  {
    hide CubeTiles, InRect, DestinationShape, Tileable;
    if cubes != [] {
      var l := |cubes| - 1;
      HopKeepsCover(x, tile, cubes[..l]);
      CubeTilesCover(x, tile, cubes[l]);
      HopLast(tile, cubes);
      var a, b := Regions(Hop(tile, cubes[..l])), Regions(CubeTiles(tile, cubes[l]));
      CoverConcat(x, a, b);
      VolumeConcat(a, b);
      assert Regions(cubes)[..l] == Regions(cubes[..l]);
    }
  }

  /** After any number of hops, the cubes at their absolute offsets cover every output element
      exactly once, cover nothing else, and their volumes add up to the output's. */
  lemma {:induction false} PathPartition(x: seq<nat>, tiles: seq<seq<nat>>, full: seq<nat>)
    requires |x| == |full| && Along(tiles, full).Some?
    ensures var cubes := Along(tiles, full).value;
      && (forall k :: 0 <= k < |cubes| ==> |cubes[k].absoluteOffset| == |full|)
      && Cover(x, Regions(cubes)) == (if InBox(x, full) then 1 else 0)
      && TotalVolume(Regions(cubes)) == Product(full)
  {
    if tiles == [] {
      var rects := Regions([Whole(full)]);
      InZeroBased(x, full);
      assert rects == [HyperRectangle(Zeros(|full|), full)];
      assert Cover(x, rects[..0]) == 0 && TotalVolume(rects[..0]) == 0;
    } else {
      PathPartition(x, tiles[..|tiles| - 1], full);
      HopKeepsCover(x, tiles[|tiles| - 1], Along(tiles[..|tiles| - 1], full).value);
      HopRank(tiles[|tiles| - 1], Along(tiles[..|tiles| - 1], full).value, |full|);
    }
  }

  /** A path of positive tile shapes of the output's rank is never rejected. */
  lemma {:induction false} PathAccepted(tiles: seq<seq<nat>>, full: seq<nat>)
    requires |full| > 0 && forall d :: 0 <= d < |full| ==> 0 < full[d]
    requires forall h :: 0 <= h < |tiles| ==> |tiles[h]| == |full| && forall d :: 0 <= d < |full| ==> 0 < tiles[h][d]
    ensures Along(tiles, full).Some?
    ensures forall k :: 0 <= k < |Along(tiles, full).value| ==> PositiveCube(Along(tiles, full).value[k], |full|)
  {
    if tiles != [] {
      var last := tiles[|tiles| - 1];
      PathAccepted(tiles[..|tiles| - 1], full);
      var before := Along(tiles[..|tiles| - 1], full).value;
      forall k | 0 <= k < |before| ensures Transferable(last, before[k]) {
        assert PositiveCube(before[k], |full|);
      }
      HopPositive(last, before, |full|);
    }
  }

  ghost predicate PositiveCube(c: AbsoluteHyperRectangle, rank: nat) {
    c.Valid() && |c.rectangle.dims| == rank && forall d :: 0 <= d < rank ==> 0 < c.rectangle.dims[d]
  }

  lemma {:induction false} HopPositive(tile: seq<nat>, cubes: seq<AbsoluteHyperRectangle>, rank: nat)
    requires AllTransferable(tile, cubes) && forall k :: 0 <= k < |cubes| ==> |cubes[k].rectangle.dims| == rank
    ensures forall k :: 0 <= k < |Hop(tile, cubes)| ==> PositiveCube(Hop(tile, cubes)[k], rank)
  {
    if cubes != [] {
      var l := |cubes| - 1;
      HopPositive(tile, cubes[..l], rank);
      var dims := cubes[l].rectangle.dims;
      forall k | 0 <= k < |CubeTiles(tile, cubes[l])| ensures PositiveCube(CubeTiles(tile, cubes[l])[k], rank) {
        TileFits(k, dims, DestinationShape(tile, dims));
      }
    }
  }

  lemma TileFits(k: nat, large: seq<nat>, small: seq<nat>)
    requires Tileable(large, small) && k < |TileList(large, small)|
    ensures forall d :: 0 <= d < |large| ==> 0 < TileList(large, small)[k].dims[d] <= small[d]
  {
    CountsPositive(large, small);
    OffsetsInside(Digits(k, TileCounts(large, small)), large, small);
  }

  // ----- one tile shape for every hop -----

  ghost predicate Fits(c: AbsoluteHyperRectangle, tile: seq<nat>) {
    |c.rectangle.dims| == |tile| && forall d :: 0 <= d < |tile| ==> c.rectangle.dims[d] <= tile[d]
  }

  ghost predicate AllFit(cubes: seq<AbsoluteHyperRectangle>, tile: seq<nat>) {
    forall k :: 0 <= k < |cubes| ==> Fits(cubes[k], tile)
  }

  predicate Below(a: seq<nat>, b: seq<nat>) {
    |a| == |b| && forall d :: 0 <= d < |a| ==> a[d] <= b[d]
  }

  /** A cube moved as a whole is a single tile at the same place. */
  lemma WholeTile(dims: seq<nat>)
    requires Tileable(dims, dims)
    ensures TileList(dims, dims) == [HyperRectangle(Zeros(|dims|), dims)]
  {
    var ends := TileCounts(dims, dims);
    forall d | 0 <= d < |dims| ensures ends[d] == 1 {
      MulCancel(1 * dims[d], 2 * dims[d], 1);
      assert dims[d] <= ends[d] * dims[d] < 2 * dims[d];
      MulCancel(ends[d], 2, dims[d]);
    }
    OnesProduct(ends);
    CountsPositive(dims, dims);
    DigitsOfZero(ends);
    assert TileList(dims, dims)[0] == HyperRectangle(Zeros(|dims|), dims);
  }

  lemma {:induction false} OnesProduct(ends: seq<nat>)
    requires forall d :: 0 <= d < |ends| ==> ends[d] == 1
    ensures Product(ends) == 1
  {
    if ends != [] { OnesProduct(ends[1..]); }
  }

  /** Cubes that the tile shape does not cut stay where they are. */
  lemma {:induction false} UncutHop(tile: seq<nat>, cubes: seq<AbsoluteHyperRectangle>)
    requires AllTransferable(tile, cubes)
    requires forall k :: 0 <= k < |cubes| ==> DestinationShape(tile, cubes[k].rectangle.dims) == cubes[k].rectangle.dims
    ensures Regions(Hop(tile, cubes)) == Regions(cubes)
  {
    if cubes != [] {
      var l := |cubes| - 1;
      UncutHop(tile, cubes[..l]);
      UncutCube(tile, cubes[l]);
      HopLast(tile, cubes);
      RegionsLast(cubes);
    }
  }

  lemma UncutCube(tile: seq<nat>, cube: AbsoluteHyperRectangle)
    requires Transferable(tile, cube) && DestinationShape(tile, cube.rectangle.dims) == cube.rectangle.dims
    ensures Regions(CubeTiles(tile, cube)) == [cube.Region()]
  {
    WholeTile(cube.rectangle.dims);
    assert Add(cube.absoluteOffset, Zeros(|cube.rectangle.dims|)) == cube.absoluteOffset;
  }

  /** The first hop decides: further hops with the same tile shape change nothing. */
  lemma {:induction false} LaterHopsKeepCubes(n: nat, tile: seq<nat>, full: seq<nat>)
    requires |tile| == |full| > 0 && forall d :: 0 <= d < |full| ==> 0 < full[d] && 0 < tile[d]
    ensures var hops := seq(n + 1, _ => tile);
      && Along(hops, full).Some? && Along([tile], full).Some?
      && Regions(Along(hops, full).value) == Regions(Along([tile], full).value)
      && forall k :: 0 <= k < |Along(hops, full).value| ==>
           DestinationShape(tile, Along(hops, full).value[k].rectangle.dims) == Along(hops, full).value[k].rectangle.dims
  {
    var hops := seq(n + 1, _ => tile);
    PathAccepted(hops, full);
    PathAccepted([tile], full);
    if n == 0 {
      assert hops == [tile];
      FirstHopUncut(tile, full);
    } else {
      var before := seq(n, _ => tile);
      assert hops[..n] == before;
      LaterHopsKeepCubes(n - 1, tile, full);
      UncutHop(tile, Along(before, full).value);
      SameDims(Along(before, full).value, Along(hops, full).value);
    }
  }

  lemma SameDims(a: seq<AbsoluteHyperRectangle>, b: seq<AbsoluteHyperRectangle>)
    requires Regions(a) == Regions(b)
    ensures |a| == |b| && forall k :: 0 <= k < |a| ==> a[k].rectangle.dims == b[k].rectangle.dims
  {
    assert |a| == |Regions(a)| == |Regions(b)| == |b|;
    forall k | 0 <= k < |a| ensures a[k].rectangle.dims == b[k].rectangle.dims {
      assert Regions(a)[k] == Regions(b)[k];
    }
  }

  lemma FirstHop(tile: seq<nat>, full: seq<nat>)
    requires |tile| == |full| > 0 && Along([tile], full).Some?
    ensures Transferable(tile, Whole(full)) && Along([tile], full).value == CubeTiles(tile, Whole(full))
  {
    var whole := [Whole(full)];
    assert [tile][..0] == [] && Along([], full).value == whole;
    assert AllTransferable(tile, whole) && Along([tile], full).value == Hop(tile, whole);
    assert Transferable(tile, whole[0]) && whole[..0] == [] && Hop(tile, whole) == CubeTiles(tile, Whole(full));
  }

  lemma FirstHopUncut(tile: seq<nat>, full: seq<nat>)
    requires |tile| == |full| > 0 && Along([tile], full).Some?
    ensures forall k :: 0 <= k < |Along([tile], full).value| ==>
      DestinationShape(tile, Along([tile], full).value[k].rectangle.dims) == Along([tile], full).value[k].rectangle.dims
    ensures AnyLarger(tile, full) ==> Regions(Along([tile], full).value) == [HyperRectangle(Zeros(|full|), full)]
    ensures !AnyLarger(tile, full) ==> AllFit(Along([tile], full).value, tile)
  {
    FirstHop(tile, full);
    var cubes := CubeTiles(tile, Whole(full));
    if AnyLarger(tile, full) {
      UncutCube(tile, Whole(full));
      SameDims(cubes, [Whole(full)]);
    } else {
      forall k: nat | k < |cubes|
        ensures Fits(cubes[k], tile)
        ensures DestinationShape(tile, cubes[k].rectangle.dims) == cubes[k].rectangle.dims
      {
        TileFits(k, full, tile);
        FittingUncut(tile, cubes[k].rectangle.dims);
      }
    }
  }

  lemma FittingUncut(tile: seq<nat>, dims: seq<nat>)
    requires Below(dims, tile)
    ensures DestinationShape(tile, dims) == dims
  {
    if !AnyLarger(tile, dims) {
      assert tile == dims;
    }
  }

  /** With one tile shape for all hops, every cube fits it exactly when the tile is no larger than
      the output in every dimension, or no smaller in every dimension. */
  lemma SharedTileFitsIff(n: nat, tile: seq<nat>, full: seq<nat>)
    requires |tile| == |full| > 0 && forall d :: 0 <= d < |full| ==> 0 < full[d] && 0 < tile[d]
    ensures var hops := seq(n + 1, _ => tile);
      && Along(hops, full).Some?
      && (AllFit(Along(hops, full).value, tile) <==> Below(tile, full) || Below(full, tile))
  {
    LaterHopsKeepCubes(n, tile, full);
    SameDims(Along(seq(n + 1, _ => tile), full).value, Along([tile], full).value);
    FirstHopFitsIff(tile, full);
  }

  lemma FirstHopFitsIff(tile: seq<nat>, full: seq<nat>)
    requires |tile| == |full| > 0 && Along([tile], full).Some?
    ensures AllFit(Along([tile], full).value, tile) <==> Below(tile, full) || Below(full, tile)
  {
    var first := Along([tile], full).value;
    FirstHopUncut(tile, full);
    if AnyLarger(tile, full) {
      assert !Below(tile, full);
      SameDims(first, [Whole(full)]);
      assert Fits(first[0], tile) <==> Below(full, tile);
    } else {
      assert Below(tile, full);
    }
  }

  /** A tile that is smaller in one dimension and larger in another is given up for the whole cube. */
  lemma MixedTileDoesNotFit()
    ensures Along([[1, 5]], [2, 3]).Some? && !AllFit(Along([[1, 5]], [2, 3]).value, [1, 5])
  {
    SharedTileFitsIff(0, [1, 5], [2, 3]);
    assert seq(1, _ => [1, 5]) == [[1, 5]];
    assert [1, 5][1] == 5 && [2, 3][1] == 3 && [1, 5][0] == 1 && [2, 3][0] == 2;
  }
}
