/** Cutting a tensor into tiles with a mixed-radix odometer over the tile indices. */
module Tiles {
  import opened Options
  import opened Tensors
  import opened Rectangles

  function CeilDiv(a: nat, b: nat): (q: nat)
    requires b > 0
    ensures a <= q * b < a + b
  {
    (a + b - 1) / b
  }

  /** A destination shape the tiler accepts for a source shape. */
  predicate Tileable(large: seq<nat>, small: seq<nat>) {
    |large| == |small| > 0 && forall d :: 0 <= d < |small| ==> 0 < small[d] <= large[d]
  }

  function TileCounts(large: seq<nat>, small: seq<nat>): (ends: seq<nat>)
    requires |large| == |small| && forall d :: 0 <= d < |small| ==> 0 < small[d]
    ensures |ends| == |large|
  {
    seq(|large|, d requires 0 <= d < |large| => CeilDiv(large[d], small[d]))
  }

  /** Mixed-radix digits of k; dimension 0 is the least significant. */
  function Digits(k: nat, ends: seq<nat>): (v: seq<nat>)
    requires forall d :: 0 <= d < |ends| ==> 0 < ends[d]
    ensures InBox(v, ends)
    decreases |ends|
  {
    if ends == [] then [] else [k % ends[0]] + Digits(k / ends[0], ends[1..])
  }

  function FromDigits(v: seq<nat>, ends: seq<nat>): nat
    requires |v| == |ends|
    decreases |ends|
  {
    if ends == [] then 0 else FromDigits(v[1..], ends[1..]) * ends[0] + v[0]
  }

  function Increment(v: seq<nat>, ends: seq<nat>): (w: seq<nat>)
    requires |v| == |ends|
    ensures |w| == |v|
    decreases |ends|
  {
    if ends == [] then []
    else if v[0] + 1 < ends[0] then [v[0] + 1] + v[1..]
    else [0] + Increment(v[1..], ends[1..])
  }

  function Min(a: nat, b: nat): nat { if a < b then a else b }

  /** The tile at a tile index; the last tile of a dimension is cut off at the tensor's edge. */
  function TileAt(v: seq<nat>, large: seq<nat>, small: seq<nat>): (rect: HyperRectangle)
    requires |v| == |large| == |small|
    requires forall d :: 0 <= d < |v| ==> v[d] * small[d] <= large[d]
    ensures rect.Valid() && |rect.dims| == |large|
  {
    HyperRectangle(
      seq(|v|, d requires 0 <= d < |v| => v[d] * small[d]),
      seq(|v|, d requires 0 <= d < |v| => Min(small[d], large[d] - v[d] * small[d])))
  }

  /** The k-th tile. */
  function Tile(k: nat, large: seq<nat>, small: seq<nat>): (rect: HyperRectangle)
    requires Tileable(large, small)
    ensures rect.Valid() && |rect.dims| == |large|
  {
    CountsPositive(large, small);
    var v := Digits(k, TileCounts(large, small));
    OffsetsInside(v, large, small);
    TileAt(v, large, small)
  }

  function TileList(large: seq<nat>, small: seq<nat>): (tiles: seq<HyperRectangle>)
    requires Tileable(large, small)
  {
    seq(Product(TileCounts(large, small)), k requires 0 <= k => Tile(k, large, small))
  }

  lemma CountsPositive(large: seq<nat>, small: seq<nat>)
    requires Tileable(large, small)
    ensures forall d :: 0 <= d < |large| ==> 0 < TileCounts(large, small)[d]
  {
    forall d | 0 <= d < |large| ensures 0 < TileCounts(large, small)[d] {
      assert large[d] <= TileCounts(large, small)[d] * small[d];
    }
  }

  lemma OffsetsInside(v: seq<nat>, large: seq<nat>, small: seq<nat>)
    requires Tileable(large, small) && InBox(v, TileCounts(large, small))
    ensures forall d :: 0 <= d < |v| ==> v[d] * small[d] < large[d]
  {
    forall d | 0 <= d < |v| ensures v[d] * small[d] < large[d] {
      var q := TileCounts(large, small)[d];
      assert v[d] * small[d] <= (q - 1) * small[d];
    }
  }

  /** One turn of the odometer, in place. */
  method Advance(tileIndex: array<nat>, tileIndexEnd: seq<nat>)
    requires tileIndex.Length == |tileIndexEnd|
    modifies tileIndex
    ensures tileIndex[..] == Increment(old(tileIndex[..]), tileIndexEnd)
  {
    ghost var was := tileIndex[..];
    for dimIdx := 0 to tileIndex.Length
      invariant forall d :: 0 <= d < dimIdx ==> tileIndex[d] == 0 && was[d] + 1 >= tileIndexEnd[d]
      invariant forall d :: dimIdx <= d < tileIndex.Length ==> tileIndex[d] == was[d]
    {
      if tileIndex[dimIdx] + 1 < tileIndexEnd[dimIdx] {
        tileIndex[dimIdx] := tileIndex[dimIdx] + 1;
        CarryPrefix(was, tileIndexEnd, dimIdx);
        return;
      }
      tileIndex[dimIdx] := 0;
    }
    CarryPrefix(was, tileIndexEnd, tileIndex.Length);
  }

  /** The checks on the shapes: a failed assertion, or a division by a zero tile size. */
  method CheckShapes(largeShape: seq<nat>, smallShape: seq<nat>) returns (ok: bool)
    ensures ok <==> Tileable(largeShape, smallShape)
  {
    if |largeShape| != |smallShape| || |largeShape| == 0 { return false; }
    for d := 0 to |smallShape|
      invariant forall e :: 0 <= e < d ==> 0 < smallShape[e] <= largeShape[e]
    {
      if smallShape[d] > largeShape[d] || smallShape[d] == 0 { return false; }
    }
    ok := true;
  }

  /** None when the shapes are rejected, or for rank 0, whose tile count is not an integer. The four
      assertions made on each tile are proved. */
  method ComputeTileHyperRectangles(largeShape: seq<nat>, smallShape: seq<nat>) returns (r: Option<seq<HyperRectangle>>)
    ensures r.Some? <==> Tileable(largeShape, smallShape)
    ensures r.Some? ==> r.value == TileList(largeShape, smallShape)
  {
    var accepted := CheckShapes(largeShape, smallShape);
    if !accepted { return None; }
    var tileIndexEnd := TileCounts(largeShape, smallShape);
    CountsPositive(largeShape, smallShape);
    var tileIndex := new nat[|tileIndexEnd|](_ => 0);
    DigitsOfZero(tileIndexEnd);
    var tiles := [];
    for k := 0 to Product(tileIndexEnd)
      invariant tileIndex[..] == Digits(k, tileIndexEnd)
      invariant |tiles| == k && forall i :: 0 <= i < k ==> tiles[i] == Tile(i, largeShape, smallShape)
    {
      hide Digits, Increment, TileCounts, Tileable;
      TileInside(tileIndex[..], largeShape, smallShape);
      var tile := TileAt(tileIndex[..], largeShape, smallShape);
      assert forall d :: 0 <= d < |largeShape| ==> 0 <= tile.offset[d] < largeShape[d];
      assert forall d :: 0 <= d < |largeShape| ==> 0 < tile.dims[d] <= smallShape[d];
      assert tile == Tile(k, largeShape, smallShape);
      tiles := tiles + [tile];
      IncrementDigits(k, tileIndexEnd);
      Advance(tileIndex, tileIndexEnd);
    }
    r := Some(tiles);
  }

  /** Every tile starts inside the tensor, is not empty, and is no larger than the tile shape. */
  lemma TileInside(v: seq<nat>, large: seq<nat>, small: seq<nat>)
    requires Tileable(large, small) && InBox(v, TileCounts(large, small))
    ensures |v| == |large| == |small| && forall d :: 0 <= d < |v| ==> v[d] * small[d] <= large[d]
    ensures var tile := TileAt(v, large, small);
      forall d :: 0 <= d < |v| ==> 0 <= tile.offset[d] < large[d] && 0 < tile.dims[d] <= small[d]
  {
    OffsetsInside(v, large, small);
  }

  // ----- the odometer -----

  /** Dimensions at their last tile wrap to 0 and pass the carry on. */
  lemma {:induction false} CarryPrefix(v: seq<nat>, ends: seq<nat>, d: nat)
    requires |v| == |ends| && d <= |v| && forall e :: 0 <= e < d ==> v[e] + 1 >= ends[e]
    ensures var w := Increment(v, ends);
      && (forall e :: 0 <= e < d ==> w[e] == 0)
      && (d < |v| && v[d] + 1 < ends[d] ==> w[d] == v[d] + 1 && forall e :: d < e < |v| ==> w[e] == v[e])
  {
    if d > 0 { CarryPrefix(v[1..], ends[1..], d - 1); }
  }

  lemma {:induction false} DigitsOfZero(ends: seq<nat>)
    requires forall d :: 0 <= d < |ends| ==> 0 < ends[d]
    ensures Digits(0, ends) == Zeros(|ends|)
    decreases |ends|
  {
    if ends != [] { DigitsOfZero(ends[1..]); }
  }

  /** A turn of the odometer adds one to the number its digits spell. */
  lemma {:induction false} IncrementDigits(k: nat, ends: seq<nat>)
    requires forall d :: 0 <= d < |ends| ==> 0 < ends[d]
    ensures Increment(Digits(k, ends), ends) == Digits(k + 1, ends)
    decreases |ends|
  {
    if ends != [] {
      DivModStep(k, ends[0]);
      IncrementDigits(k / ends[0], ends[1..]);
    }
  }

  lemma DivModStep(k: nat, e: nat)
    requires e > 0
    ensures k % e + 1 < e ==> (k + 1) % e == k % e + 1 && (k + 1) / e == k / e
    ensures k % e + 1 >= e ==> (k + 1) % e == 0 && (k + 1) / e == k / e + 1
  {
    var q, m := k / e, k % e;
    assert k == q * e + m;
    if m + 1 < e { DivModUnique(k + 1, e, q, m + 1); } else { DivModUnique(k + 1, e, q + 1, 0); }
  }

  lemma DivModUnique(k: nat, e: nat, q: nat, m: nat)
    requires e > 0 && k == q * e + m && m < e
    ensures k / e == q && k % e == m
  {
    var q' := k / e;
    assert k == q' * e + k % e;
    assert q' * e < (q + 1) * e && q * e < (q' + 1) * e by {
      assert (q + 1) * e == q * e + e && (q' + 1) * e == q' * e + e;
    }
    MulCancel(q', q + 1, e);
    MulCancel(q, q' + 1, e);
  }

  /** Every tile index has exactly one position: Digits and FromDigits are inverse bijections. */
  lemma {:induction false} DigitsRoundTrip(v: seq<nat>, ends: seq<nat>)
    requires InBox(v, ends) && forall d :: 0 <= d < |ends| ==> 0 < ends[d]
    ensures FromDigits(v, ends) < Product(ends)
    ensures Digits(FromDigits(v, ends), ends) == v
    decreases |ends|
  {
    if ends != [] {
      var rest := FromDigits(v[1..], ends[1..]);
      DigitsRoundTrip(v[1..], ends[1..]);
      DivModUnique(rest * ends[0] + v[0], ends[0], rest, v[0]);
      RowBound(rest, Product(ends[1..]), v[0], ends[0]);
      Commute(Product(ends[1..]), ends[0]);
    }
  }

  lemma {:induction false} PositionRoundTrip(k: nat, ends: seq<nat>)
    requires k < Product(ends) && forall d :: 0 <= d < |ends| ==> 0 < ends[d]
    ensures FromDigits(Digits(k, ends), ends) == k
    decreases |ends|
  {
    if ends != [] {
      var e, w := ends[0], Product(ends[1..]);
      Commute(e, w);
      DivSmall(k, w, e);
      PositionRoundTrip(k / e, ends[1..]);
    }
  }

  /** One index vector comes before another when the last dimension they differ in says so. */
  ghost predicate Ascends(v: seq<nat>, w: seq<nat>) {
    |v| == |w| && exists d :: 0 <= d < |v| && v[d] < w[d] && forall e :: d < e < |v| ==> v[e] == w[e]
  }

  lemma AscendsLater(v: seq<nat>, w: seq<nat>)
    requires v != [] && w != [] && Ascends(v[1..], w[1..])
    ensures Ascends(v, w)
  {
    var d :| 0 <= d < |v[1..]| && v[1..][d] < w[1..][d] && forall e :: d < e < |v[1..]| ==> v[1..][e] == w[1..][e];
    assert v[d + 1] < w[d + 1];
    forall e | d + 1 < e < |v| ensures v[e] == w[e] { assert v[1..][e - 1] == w[1..][e - 1]; }
  }

  lemma AscendsFirst(v: seq<nat>, w: seq<nat>)
    requires v != [] && w != [] && v[0] < w[0] && v[1..] == w[1..]
    ensures Ascends(v, w)
  {
    forall e | 0 < e < |v| ensures v[e] == w[e] { assert v[1..][e - 1] == w[1..][e - 1]; }
  }

  /** The odometer visits index vectors with dimension 0 running fastest. */
  lemma {:induction false} DigitsAscend(k: nat, l: nat, ends: seq<nat>)
    requires (forall d :: 0 <= d < |ends| ==> 0 < ends[d]) && k < l < Product(ends)
    ensures Ascends(Digits(k, ends), Digits(l, ends))
    decreases |ends|
  {
    hide Ascends;
    var v, w := Digits(k, ends), Digits(l, ends);
    QuotientsAscend(k, l, ends[0]);
    if k / ends[0] == l / ends[0] {
      AscendsFirst(v, w);
    } else {
      QuotientBelow(l, ends[0], Product(ends[1..]));
      DigitsAscend(k / ends[0], l / ends[0], ends[1..]);
      AscendsLater(v, w);
    }
  }

  lemma QuotientsAscend(k: nat, l: nat, e: nat)
    requires k < l && e > 0
    ensures k / e < l / e || (k / e == l / e && k % e < l % e)
  {
    var q, r := k / e, l / e;
    assert k == q * e + k % e && l == r * e + l % e;
    assert q > r ==> (r + 1) * e <= q * e;
  }

  lemma QuotientBelow(l: nat, e: nat, n: nat)
    requires e > 0 && l < e * n
    ensures l / e < n
  {
    var q := l / e;
    assert l == q * e + l % e;
    assert q >= n ==> n * e <= q * e;
  }

  // ----- the partition -----

  ghost predicate InRect(x: seq<nat>, rect: HyperRectangle) {
    rect.Valid() && |x| == |rect.dims| &&
    forall d :: 0 <= d < |x| ==> rect.offset[d] <= x[d] < rect.offset[d] + rect.dims[d]
  }

  /** How many rectangles of a list contain an element. */
  ghost function Cover(x: seq<nat>, rects: seq<HyperRectangle>): nat {
    if rects == [] then 0 else Cover(x, rects[..|rects| - 1]) + if InRect(x, rects[|rects| - 1]) then 1 else 0
  }

  lemma {:induction false} CoverNone(x: seq<nat>, rects: seq<HyperRectangle>)
    requires forall k :: 0 <= k < |rects| ==> !InRect(x, rects[k])
    ensures Cover(x, rects) == 0
  {
    if rects != [] { CoverNone(x, rects[..|rects| - 1]); }
  }

  lemma {:induction false} CoverOnce(x: seq<nat>, rects: seq<HyperRectangle>, k: nat)
    requires k < |rects| && InRect(x, rects[k])
    requires forall j :: 0 <= j < |rects| && j != k ==> !InRect(x, rects[j])
    ensures Cover(x, rects) == 1
  {
    if k == |rects| - 1 { CoverNone(x, rects[..k]); } else { CoverOnce(x, rects[..|rects| - 1], k); }
  }

  lemma {:induction false} CoveredBySome(x: seq<nat>, rects: seq<HyperRectangle>) returns (k: nat)
    requires Cover(x, rects) > 0
    ensures k < |rects| && InRect(x, rects[k])
  {
    k := |rects| - 1;
    if !InRect(x, rects[k]) { k := CoveredBySome(x, rects[..k]); }
  }

  /** The tile index of an element. */
  function TileOf(x: seq<nat>, small: seq<nat>): (v: seq<nat>)
    requires |x| == |small| && forall d :: 0 <= d < |small| ==> 0 < small[d]
    ensures |v| == |x|
  {
    seq(|x|, d requires 0 <= d < |x| => x[d] / small[d])
  }

  /** A tile contains exactly the elements of the tensor with its tile index. */
  lemma InTileIff(x: seq<nat>, v: seq<nat>, large: seq<nat>, small: seq<nat>)
    requires Tileable(large, small) && InBox(v, TileCounts(large, small)) && |x| == |large|
    ensures forall d :: 0 <= d < |v| ==> v[d] * small[d] <= large[d]
    ensures InRect(x, TileAt(v, large, small)) <==> InBox(x, large) && v == TileOf(x, small)
  {
    OffsetsInside(v, large, small);
    forall d | 0 <= d < |x|
      ensures v[d] * small[d] <= x[d] < v[d] * small[d] + Min(small[d], large[d] - v[d] * small[d])
         <==> x[d] < large[d] && v[d] == x[d] / small[d]
    {
      if v[d] * small[d] <= x[d] < v[d] * small[d] + small[d] {
        DivModUnique(x[d], small[d], v[d], x[d] - v[d] * small[d]);
      }
      assert x[d] == (x[d] / small[d]) * small[d] + x[d] % small[d];
    }
    var tile := TileAt(v, large, small);
    if InRect(x, tile) {
      forall d | 0 <= d < |x| ensures x[d] < large[d] && v[d] == TileOf(x, small)[d] {
        assert tile.offset[d] <= x[d] < tile.offset[d] + tile.dims[d];
      }
    }
  }

  lemma TileOfInRange(x: seq<nat>, large: seq<nat>, small: seq<nat>)
    requires Tileable(large, small) && InBox(x, large)
    ensures InBox(TileOf(x, small), TileCounts(large, small))
  {
    var v, ends := TileOf(x, small), TileCounts(large, small);
    forall d | 0 <= d < |v| ensures v[d] < ends[d] {
      assert x[d] == v[d] * small[d] + x[d] % small[d];
      MulCancel(v[d], ends[d], small[d]);
    }
  }

  /** The k-th tile owns exactly the elements whose tile index has position k. */
  lemma InListedTileIff(x: seq<nat>, k: nat, large: seq<nat>, small: seq<nat>)
    requires Tileable(large, small) && |x| == |large| && k < Product(TileCounts(large, small))
    ensures InRect(x, TileList(large, small)[k]) <==>
            InBox(x, large) && k == FromDigits(TileOf(x, small), TileCounts(large, small))
  {
    var ends := TileCounts(large, small);
    CountsPositive(large, small);
    InTileIff(x, Digits(k, ends), large, small);
    PositionRoundTrip(k, ends);
    if InBox(x, large) {
      TileOfInRange(x, large, small);
      DigitsRoundTrip(TileOf(x, small), ends);
    }
  }

  /** Every element of the tensor lies in exactly one tile, and no tile reaches outside. */
  lemma TilesPartition(x: seq<nat>, large: seq<nat>, small: seq<nat>)
    requires Tileable(large, small) && |x| == |large|
    ensures Cover(x, TileList(large, small)) == if InBox(x, large) then 1 else 0
  {
    var tiles := TileList(large, small);
    forall k: nat | k < |tiles|
      ensures InRect(x, tiles[k]) <==> InBox(x, large) && k == FromDigits(TileOf(x, small), TileCounts(large, small))
    {
      InListedTileIff(x, k, large, small);
    }
    if InBox(x, large) {
      TileOfInRange(x, large, small);
      CountsPositive(large, small);
      DigitsRoundTrip(TileOf(x, small), TileCounts(large, small));
      CoverOnce(x, tiles, FromDigits(TileOf(x, small), TileCounts(large, small)));
    } else {
      CoverNone(x, tiles);
    }
  }

  // ----- the volumes -----

  function Sum(n: nat, f: nat -> nat): nat {
    if n == 0 then 0 else Sum(n - 1, f) + f(n - 1)
  }

  function TotalVolume(rects: seq<HyperRectangle>): nat {
    if rects == [] then 0 else TotalVolume(rects[..|rects| - 1]) + Product(rects[|rects| - 1].dims)
  }

  lemma {:induction false} SumCong(n: nat, f: nat -> nat, g: nat -> nat)
    requires forall i :: 0 <= i < n ==> f(i) == g(i)
    ensures Sum(n, f) == Sum(n, g)
  {
    if n > 0 { SumCong(n - 1, f, g); }
  }

  lemma {:induction false} SumScale(n: nat, c: nat, f: nat -> nat, g: nat -> nat)
    requires forall i :: 0 <= i < n ==> g(i) == c * f(i)
    ensures Sum(n, g) == c * Sum(n, f)
  {
    if n > 0 { SumScale(n - 1, c, f, g); }
  }

  lemma {:induction false} SumSplit(m: nat, n: nat, f: nat -> nat, g: nat -> nat)
    requires forall j :: 0 <= j < n ==> g(j) == f(m + j)
    ensures Sum(m + n, f) == Sum(m, f) + Sum(n, g)
  {
    if n > 0 { SumSplit(m, n - 1, f, g); }
  }

  function From(f: nat -> nat, m: nat): nat -> nat {
    (j: nat) => f(m + j)
  }

  function Block(f: nat -> nat, e: nat, i: nat): nat -> nat {
    From(f, i * e)
  }

  lemma AddBlock(e: nat, i: nat, n: nat, f: nat -> nat)
    requires n == i + 1
    ensures Sum(n * e, f) == Sum(i * e, f) + Sum(e, Block(f, e, i))
  {
    SumSplit(i * e, e, f, From(f, i * e));
    Unroll(n, e);
  }

  /** Summing block after block. */
  lemma {:induction false} SumBlocks(e: nat, n: nat, f: nat -> nat, blocks: nat -> nat)
    requires forall i: nat :: i < n ==> Sum(e, Block(f, e, i)) == blocks(i)
    ensures Sum(n * e, f) == Sum(n, blocks)
  {
    hide Block;
    if n > 0 {
      SumBlocks(e, n - 1, f, blocks);
      AddBlock(e, n - 1, n, f);
    }
  }

  lemma Unroll(n: int, e: int)
    ensures (n - 1) * e + e == n * e
  {
  }

  /** The tile sizes along one dimension add up to its size. */
  lemma {:induction false} SumOfCuts(n: nat, l: nat, s: nat, w: nat -> nat)
    requires s > 0 && n <= CeilDiv(l, s)
    requires forall i :: 0 <= i < CeilDiv(l, s) ==> i * s < l && w(i) == Min(s, l - i * s)
    ensures Sum(n, w) == Min(n * s, l)
  {
    if n > 0 {
      SumOfCuts(n - 1, l, s, w);
      assert (n - 1) * s < l;
      assert (n - 1) * s + s == n * s;
    }
  }

  /** Product of the sizes of the tile with digits v, as a function of the remaining dimensions. */
  function CutVolume(v: seq<nat>, large: seq<nat>, small: seq<nat>): nat
    requires |v| == |large| == |small|
    decreases |v|
  {
    if v == [] then 1
    else (if v[0] * small[0] <= large[0] then Min(small[0], large[0] - v[0] * small[0]) else 0)
         * CutVolume(v[1..], large[1..], small[1..])
  }

  lemma {:induction false} CutVolumeIsVolume(v: seq<nat>, large: seq<nat>, small: seq<nat>)
    requires |v| == |large| == |small| && forall d :: 0 <= d < |v| ==> v[d] * small[d] <= large[d]
    ensures CutVolume(v, large, small) == Product(TileAt(v, large, small).dims)
    decreases |v|
  {
    if v != [] {
      CutVolumeIsVolume(v[1..], large[1..], small[1..]);
      assert TileAt(v, large, small).dims[1..] == TileAt(v[1..], large[1..], small[1..]).dims;
    }
  }

  function CutVolumes(large: seq<nat>, small: seq<nat>, ends: seq<nat>): nat -> nat
    requires |large| == |small| == |ends| && forall d :: 0 <= d < |ends| ==> 0 < ends[d]
  {
    (k: nat) => CutVolume(Digits(k, ends), large, small)
  }

  function Cuts(l: nat, s: nat): nat -> nat {
    (i: nat) => if i * s <= l then Min(s, l - i * s) else 0
  }

  lemma CutsSum(l: nat, s: nat)
    requires 0 < s <= l
    ensures Sum(CeilDiv(l, s), Cuts(l, s)) == l
  {
    var e := CeilDiv(l, s);
    forall i: nat | i < e ensures i * s < l {
      assert i * s <= (e - 1) * s;
    }
    SumOfCuts(e, l, s, Cuts(l, s));
  }

  lemma {:induction false} CutVolumesSum(large: seq<nat>, small: seq<nat>, ends: seq<nat>)
    requires |large| == |small| && forall d :: 0 <= d < |small| ==> 0 < small[d] <= large[d]
    requires ends == TileCounts(large, small) && forall d :: 0 <= d < |ends| ==> 0 < ends[d]
    ensures Sum(Product(ends), CutVolumes(large, small, ends)) == Product(large)
    decreases |large|
  {
    if large == [] {
      var f := CutVolumes(large, small, ends);
      assert Sum(1, f) == Sum(0, f) + f(0);
    } else {
      assert ends[1..] == TileCounts(large[1..], small[1..]);
      CutVolumesSum(large[1..], small[1..], ends[1..]);
      CutVolumesStep(large, small, ends, Product(ends[1..]));
      Commute(ends[0], Product(ends[1..]));
    }
  }

  lemma CutVolumesStep(large: seq<nat>, small: seq<nat>, ends: seq<nat>, n: nat)
    requires |large| == |small| > 0 && forall d :: 0 <= d < |small| ==> 0 < small[d] <= large[d]
    requires ends == TileCounts(large, small) && forall d :: 0 <= d < |ends| ==> 0 < ends[d]
    ensures Sum(n * ends[0], CutVolumes(large, small, ends)) == large[0] * Sum(n, CutVolumes(large[1..], small[1..], ends[1..]))
  {
    var f, rest := CutVolumes(large, small, ends), CutVolumes(large[1..], small[1..], ends[1..]);
    var blocks := (i: nat) => large[0] * rest(i);
    forall i: nat | i < n ensures Sum(ends[0], Block(f, ends[0], i)) == blocks(i) {
      CutBlock(i, i * ends[0], large, small, ends);
    }
    SumBlocks(ends[0], n, f, blocks);
    SumScale(n, large[0], rest, blocks);
  }

  /** One turn through dimension 0: its cuts add up to its size. */
  lemma CutBlock(i: nat, start: nat, large: seq<nat>, small: seq<nat>, ends: seq<nat>)
    requires |large| == |small| > 0 && forall d :: 0 <= d < |small| ==> 0 < small[d] <= large[d]
    requires ends == TileCounts(large, small) && forall d :: 0 <= d < |ends| ==> 0 < ends[d]
    requires start == i * ends[0]
    ensures Sum(ends[0], From(CutVolumes(large, small, ends), start))
         == large[0] * CutVolumes(large[1..], small[1..], ends[1..])(i)
  {
    var f, w := From(CutVolumes(large, small, ends), start), Cuts(large[0], small[0]);
    var r := CutVolumes(large[1..], small[1..], ends[1..])(i);
    forall j: nat | j < ends[0] ensures f(j) == r * w(j) {
      DigitsHead(start + j, i, j, ends);
      Commute(r, w(j));
    }
    SumScale(ends[0], r, w, f);
    CutsSum(large[0], small[0]);
    Commute(r, large[0]);
  }

  lemma DigitsHead(k: nat, i: nat, j: nat, ends: seq<nat>)
    requires ends != [] && (forall d :: 0 <= d < |ends| ==> 0 < ends[d])
    requires j < ends[0] && k == i * ends[0] + j
    ensures Digits(k, ends) == [j] + Digits(i, ends[1..])
  {
    DivModUnique(k, ends[0], i, j);
  }

  lemma {:induction false} TotalVolumeIsSum(rects: seq<HyperRectangle>, f: nat -> nat)
    requires forall k :: 0 <= k < |rects| ==> f(k) == Product(rects[k].dims)
    ensures TotalVolume(rects) == Sum(|rects|, f)
  {
    if rects != [] { TotalVolumeIsSum(rects[..|rects| - 1], f); }
  }

  /** The tile volumes add up to the volume of the tensor. */
  lemma TileVolumesSum(large: seq<nat>, small: seq<nat>)
    requires Tileable(large, small)
    ensures TotalVolume(TileList(large, small)) == Product(large)
  {
    var ends := TileCounts(large, small);
    CountsPositive(large, small);
    CutVolumesSum(large, small, ends);
    var f := CutVolumes(large, small, ends);
    forall k: nat | k < Product(ends) ensures f(k) == Product(TileList(large, small)[k].dims) {
      OffsetsInside(Digits(k, ends), large, small);
      CutVolumeIsVolume(Digits(k, ends), large, small);
    }
    TotalVolumeIsSum(TileList(large, small), f);
  }
}
