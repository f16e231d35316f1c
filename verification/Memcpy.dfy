/** Running a tiled memcpy: load a cube, copy its bytes, store the same cube. */
module Memcpy {
  import opened Options
  import opened Tensors
  import opened Rectangles
  import opened Tiles
  import opened TilePaths

  /** A rectangle of a tensor only touches the tensor's addresses. */
  lemma AddressesInside(rect: HyperRectangle, shape: seq<nat>, n: nat)
    requires InBounds(rect, shape) && n < Product(rect.dims)
    ensures n < |Addresses(rect, shape)| == Product(rect.dims)
    ensures 0 <= Addresses(rect, shape)[n] < Product(shape)
  {
    var base := Dot(rect.offset, Strides(shape));
    var v := Unflatten(n, rect.dims);
    UnflattenAt(n, rect.dims);
    WalkAt(rect.dims, Strides(shape), base, v);
    DotAdd(rect.offset, v, Strides(shape));
    WalkAt(shape, Strides(shape), 0, Add(rect.offset, v));
  }

  /** An element of the rectangle is among the addresses the rectangle visits. */
  lemma ElementVisited(rect: HyperRectangle, shape: seq<nat>, x: seq<nat>) returns (n: nat)
    requires InBounds(rect, shape) && InRect(x, rect)
    ensures n < |Addresses(rect, shape)| && Addresses(rect, shape)[n] == Dot(x, Strides(shape))
  {
    var v := Minus(x, rect.offset);
    forall d | 0 <= d < |v| ensures v[d] < rect.dims[d] {
      assert x[d] < rect.offset[d] + rect.dims[d];
    }
    WalkAt(rect.dims, Strides(shape), Dot(rect.offset, Strides(shape)), v);
    DotAdd(rect.offset, v, Strides(shape));
    assert Add(rect.offset, v) == x;
    n := Dot(v, Strides(rect.dims));
  }

  function AddressList(rect: HyperRectangle, shape: seq<nat>): (s: seq<int>)
    requires rect.Valid() && |rect.dims| == |shape|
    ensures s == Addresses(rect, shape)
  {
    Walk(rect.dims, Strides(shape), Dot(rect.offset, Strides(shape)))
  }

  /** Load one cube into a local buffer, copy it, and store the copy to the same cube. */
  method CopyCube<T>(rect: HyperRectangle, shape: seq<nat>, src: seq<T>, dst: array<T>)
    requires InBounds(rect, shape) && |src| == dst.Length == Product(shape)
    modifies dst
    ensures forall a :: 0 <= a < dst.Length ==> dst[a] == if a in Addresses(rect, shape) then src[a] else old(dst[a])
  {
    var addrs := AddressList(rect, shape);
    var size := Product(rect.dims);
    forall n | 0 <= n < size ensures n < |addrs| == size && 0 <= addrs[n] < Product(shape) {
      AddressesInside(rect, shape, n);
    }
    WalkLength(rect.dims, Strides(shape), Dot(rect.offset, Strides(shape)));
    var local := seq(size, n requires 0 <= n < size => src[addrs[n]]);
    for n := 0 to size
      invariant forall a :: 0 <= a < dst.Length ==> dst[a] == if a in addrs[..n] then src[a] else old(dst[a])
    {
      assert addrs[..n + 1] == addrs[..n] + [addrs[n]];
      dst[addrs[n]] := local[n];
    }
    assert addrs[..size] == addrs;
  }

  method RunSchedule<T>(rects: seq<HyperRectangle>, shape: seq<nat>, src: seq<T>, dst: array<T>)
    requires forall k :: 0 <= k < |rects| ==> InBounds(rects[k], shape)
    requires |src| == dst.Length == Product(shape)
    modifies dst
    ensures forall x: seq<nat> :: InBox(x, shape) ==> 0 <= Dot(x, Strides(shape)) < dst.Length
    ensures forall x: seq<nat> :: InBox(x, shape) && Cover(x, rects) > 0 ==> dst[Dot(x, Strides(shape))] == src[Dot(x, Strides(shape))]
  {
    forall x: seq<nat> | InBox(x, shape) ensures 0 <= Dot(x, Strides(shape)) < dst.Length {
      WalkAt(shape, Strides(shape), 0, x);
    }
    for k := 0 to |rects|
      invariant forall x: seq<nat> :: InBox(x, shape) && Cover(x, rects[..k]) > 0 ==> dst[Dot(x, Strides(shape))] == src[Dot(x, Strides(shape))]
    {
      assert rects[..k + 1][..k] == rects[..k];
      CopyCube(rects[k], shape, src, dst);
      forall x: seq<nat> | InBox(x, shape) && Cover(x, rects[..k + 1]) > 0
        ensures dst[Dot(x, Strides(shape))] == src[Dot(x, Strides(shape))]
      {
        if InRect(x, rects[k]) {
          var n := ElementVisited(rects[k], shape, x);
        }
      }
    }
    assert rects[..|rects|] == rects;
  }

  lemma TileInBounds(k: nat, large: seq<nat>, small: seq<nat>)
    requires Tileable(large, small) && k < |TileList(large, small)|
    ensures InBounds(TileList(large, small)[k], large)
  {
    CountsPositive(large, small);
    OffsetsInside(Digits(k, TileCounts(large, small)), large, small);
  }

  function Sizes(tiles: seq<HyperRectangle>, elementBytes: nat): (sizes: seq<nat>)
    ensures |sizes| == |tiles|
  {
    seq(|tiles|, k requires 0 <= k < |tiles| => Product(tiles[k].dims) * elementBytes)
  }

  lemma SpreadRight(a: int, b: int, c: int)
    ensures (a + b) * c == a * c + b * c
  {
  }

  lemma {:induction false} SizesTotal(tiles: seq<HyperRectangle>, elementBytes: nat)
    ensures Total(Sizes(tiles, elementBytes)) == TotalVolume(tiles) * elementBytes
  {
    if tiles != [] {
      SizesTotal(tiles[..|tiles| - 1], elementBytes);
      assert Sizes(tiles, elementBytes)[..|tiles| - 1] == Sizes(tiles[..|tiles| - 1], elementBytes);
      SpreadRight(TotalVolume(tiles[..|tiles| - 1]), Product(tiles[|tiles| - 1].dims), elementBytes);
    }
  }

  /** Copying tile by tile copies the whole tensor, and the copied sizes add up to its bytes. */
  method TiledMemcpy<T>(shape: seq<nat>, tileShape: seq<nat>, elementBytes: nat, src: seq<T>, dst: array<T>)
    returns (r: Option<seq<nat>>)
    requires |src| == dst.Length == Product(shape)
    modifies dst
    ensures r.Some? <==> Tileable(shape, tileShape)
    ensures r.Some? ==> dst[..] == src && Total(r.value) == Product(shape) * elementBytes
  {
    var tiles := ComputeTileHyperRectangles(shape, tileShape);
    if tiles.None? { return None; }
    forall k | 0 <= k < |tiles.value| ensures InBounds(tiles.value[k], shape) {
      TileInBounds(k, shape, tileShape);
    }
    RunSchedule(tiles.value, shape, src, dst);
    forall a | 0 <= a < dst.Length ensures dst[a] == src[a] {
      var x := Unflatten(a, shape);
      UnflattenAt(a, shape);
      TilesPartition(x, shape, tileShape);
      assert InBox(x, shape) && Cover(x, tiles.value) > 0;
    }
    SizesTotal(tiles.value, elementBytes);
    TileVolumesSum(shape, tileShape);
    r := Some(Sizes(tiles.value, elementBytes));
  }
}
