/** What the tile-size constraints posted on the tiler model mean for the tiles of a dimension. */
module TileSizes {
  import opened Tensors
  import opened Rectangles
  import opened Tiles

  /** An assignment of the variables of addMinTileSizeConstraint that satisfies its constraints;
      upper is the upper bound of the dimension variable the tile size is tied to. */
  predicate MinTileSizePosted(dim: nat, upper: nat, modulo: nat, tileSize: nat, mul: nat, add: nat) {
    && 1 <= tileSize <= dim && 1 <= mul <= dim && 0 <= add <= dim
    && add <= tileSize
    && add >= modulo * (if tileSize < upper then 1 else 0)
    && dim == mul * tileSize + add
  }

  /** Likewise for addTileSizeDivisibleConstraint. */
  predicate DivisiblePosted(dim: nat, modulo: nat, tileSize: nat, mul: nat, mulMul: nat, add: nat) {
    && 1 <= tileSize <= dim && 1 <= mul <= dim && 1 <= mulMul <= dim && 0 <= add <= dim
    && add <= tileSize
    && tileSize == mulMul * modulo
    && dim == mul * tileSize + add
  }

  /** The size of the k-th tile along one dimension. */
  function CutAt(dim: nat, tileSize: nat, k: nat): nat
    requires tileSize > 0 && k * tileSize <= dim
  {
    Min(tileSize, dim - k * tileSize)
  }

  /** The dimension stays whole, or every tile, the last included, has at least modulo elements. */
  ghost predicate SingleOrLarge(dim: nat, tileSize: nat, modulo: nat)
    requires 0 < tileSize
  {
    CeilDiv(dim, tileSize) == 1 ||
    forall k: nat :: k < CeilDiv(dim, tileSize) ==> k * tileSize <= dim && CutAt(dim, tileSize, k) >= modulo
  }

  /** How many tiles there are, and how large the last one is, from a decomposition of the size. */
  lemma CutsFromRemainder(dim: nat, tileSize: nat, mul: nat, add: nat)
    requires 0 < tileSize && 1 <= mul && add <= tileSize && dim == mul * tileSize + add
    ensures CeilDiv(dim, tileSize) == (if add == 0 then mul else mul + 1)
    ensures forall k: nat :: k < CeilDiv(dim, tileSize) ==>
      k * tileSize <= dim && CutAt(dim, tileSize, k) == (if k < mul then tileSize else add)
  {
    CutCount(dim, tileSize, mul, add);
    forall k: nat | k < CeilDiv(dim, tileSize)
      ensures k * tileSize <= dim && CutAt(dim, tileSize, k) == (if k < mul then tileSize else add)
    {
      if k < mul { CutBefore(k, mul, tileSize); }
    }
  }

  lemma CutBefore(k: nat, mul: nat, tileSize: nat)
    requires k < mul
    ensures k * tileSize + tileSize <= mul * tileSize
  {
    assert (k + 1) * tileSize <= mul * tileSize;
    assert (k + 1) * tileSize == k * tileSize + tileSize;
  }

  lemma CutCount(dim: nat, tileSize: nat, mul: nat, add: nat)
    requires 0 < tileSize && 1 <= mul && add <= tileSize && dim == mul * tileSize + add
    ensures CeilDiv(dim, tileSize) == (if add == 0 then mul else mul + 1)
  {
    if add == 0 {
      DivModUnique(dim + tileSize - 1, tileSize, mul, tileSize - 1);
    } else {
      CutBefore(mul, mul + 1, tileSize);
      assert (mul + 1) * tileSize == mul * tileSize + tileSize;
      DivModUnique(dim + tileSize - 1, tileSize, mul + 1, add - 1);
    }
  }

  /** With the bound at the full dimension, the minimum-tile constraint has a solution for a tile
      size exactly when the dimension stays whole or no tile is smaller than modulo. */
  lemma MinTileSizeIff(dim: nat, modulo: nat, tileSize: nat)
    requires 1 <= tileSize <= dim
    ensures (exists mul, add :: MinTileSizePosted(dim, dim, modulo, tileSize, mul, add)) <==> SingleOrLarge(dim, tileSize, modulo)
  {
    if mul: nat, add: nat :| MinTileSizePosted(dim, dim, modulo, tileSize, mul, add) {
      PostedMeansLarge(dim, modulo, tileSize, mul, add);
    }
    if SingleOrLarge(dim, tileSize, modulo) {
      var mul, add := LargeCanBePosted(dim, modulo, tileSize);
    }
  }

  lemma PostedMeansLarge(dim: nat, modulo: nat, tileSize: nat, mul: nat, add: nat)
    requires MinTileSizePosted(dim, dim, modulo, tileSize, mul, add)
    ensures SingleOrLarge(dim, tileSize, modulo)
  {
    CutsFromRemainder(dim, tileSize, mul, add);
    if tileSize == dim {
      DivModUnique(dim + dim - 1, dim, 1, dim - 1);
    }
  }

  lemma Quotient(dim: nat, tileSize: nat) returns (q: nat, rest: nat)
    requires 1 <= tileSize <= dim
    ensures 1 <= q <= dim && rest < tileSize && dim == q * tileSize + rest
  {
    q, rest := dim / tileSize, dim % tileSize;
    assert q >= 1;
    QuotientBound(dim, tileSize, q);
  }

  lemma LargeCanBePosted(dim: nat, modulo: nat, tileSize: nat) returns (mul: nat, add: nat)
    requires 1 <= tileSize <= dim && SingleOrLarge(dim, tileSize, modulo)
    ensures MinTileSizePosted(dim, dim, modulo, tileSize, mul, add)
  {
    mul, add := Quotient(dim, tileSize);
    CutsFromRemainder(dim, tileSize, mul, add);
    if tileSize == dim {
      mul, add := 1, 0;
    } else if add > 0 {
      assert CutAt(dim, tileSize, mul) == add;
    } else {
      assert mul > 1;
      assert CutAt(dim, tileSize, 0) == tileSize;
      assert (mul - 1) * tileSize + tileSize == mul * tileSize;
      mul, add := mul - 1, tileSize;
    }
  }

  lemma QuotientBound(dim: nat, tileSize: nat, q: nat)
    requires 1 <= tileSize && q * tileSize <= dim
    ensures q <= dim
  {
    assert q * 1 <= q * tileSize;
  }

  /** The divisible constraint has a solution for a tile size exactly when modulo divides it. */
  lemma DivisibleIff(dim: nat, modulo: nat, tileSize: nat)
    requires 1 <= tileSize <= dim && 0 < modulo
    ensures (exists mul, mulMul, add :: DivisiblePosted(dim, modulo, tileSize, mul, mulMul, add)) <==> tileSize % modulo == 0
  {
    if mul: nat, mulMul: nat, add: nat :| DivisiblePosted(dim, modulo, tileSize, mul, mulMul, add) {
      DivModUnique(tileSize, modulo, mulMul, 0);
    }
    if tileSize % modulo == 0 {
      var m := tileSize / modulo;
      assert tileSize == m * modulo;
      QuotientBound(tileSize, modulo, m);
      var q, rest := Quotient(dim, tileSize);
      assert DivisiblePosted(dim, modulo, tileSize, q, m, rest);
    }
  }

  // ----- the same for the tiles of a tensor -----

  /** Along dimension d every tile of the tensor is the whole dimension, or has at least modulo elements. */
  ghost predicate WholeOrLarge(large: seq<nat>, small: seq<nat>, d: nat, modulo: nat)
    requires Tileable(large, small) && d < |large|
  {
    var tiles := TileList(large, small);
    || (forall k :: 0 <= k < |tiles| ==> SizeAt(tiles[k], d) == large[d])
    || (forall k :: 0 <= k < |tiles| ==> SizeAt(tiles[k], d) >= modulo)
  }

  function SizeAt(rect: HyperRectangle, d: nat): nat
  {
    if d < |rect.dims| then rect.dims[d] else 0
  }

  /** The size of a tile along a dimension is the cut at its tile index. */
  lemma TileSizeIsCut(large: seq<nat>, small: seq<nat>, d: nat, k: nat)
    requires Tileable(large, small) && d < |large| && k < |TileList(large, small)|
    ensures forall e :: 0 <= e < |large| ==> 0 < TileCounts(large, small)[e]
    ensures var j := Digits(k, TileCounts(large, small))[d];
      && j < CeilDiv(large[d], small[d]) && j * small[d] <= large[d]
      && SizeAt(TileList(large, small)[k], d) == CutAt(large[d], small[d], j)
  {
    CountsPositive(large, small);
    OffsetsInside(Digits(k, TileCounts(large, small)), large, small);
  }

  /** Every cut of a dimension occurs in some tile. */
  lemma CutOccurs(large: seq<nat>, small: seq<nat>, d: nat, j: nat) returns (k: nat)
    requires Tileable(large, small) && d < |large| && j < CeilDiv(large[d], small[d])
    ensures k < |TileList(large, small)| && j * small[d] <= large[d]
    ensures SizeAt(TileList(large, small)[k], d) == CutAt(large[d], small[d], j)
  {
    var ends := TileCounts(large, small);
    CountsPositive(large, small);
    var v := Zeros(|ends|)[d := j];
    DigitsRoundTrip(v, ends);
    k := FromDigits(v, ends);
    TileSizeIsCut(large, small, d, k);
  }

  /** The minimum-tile constraint can be met for a tile shape exactly when, in that dimension, the
      tiles the schedule cuts are whole or none is smaller than modulo. */
  lemma MinTileSizeTilesIff(large: seq<nat>, small: seq<nat>, d: nat, modulo: nat)
    requires Tileable(large, small) && d < |large|
    ensures (exists mul, add :: MinTileSizePosted(large[d], large[d], modulo, small[d], mul, add)) <==> WholeOrLarge(large, small, d, modulo)
  {
    hide MinTileSizePosted, TileList, CutAt;
    var dim, size := large[d], small[d];
    MinTileSizeIff(dim, modulo, size);
    if SingleOrLarge(dim, size, modulo) {
      forall k | 0 <= k < |TileList(large, small)|
        ensures if CeilDiv(dim, size) == 1 then SizeAt(TileList(large, small)[k], d) == dim else SizeAt(TileList(large, small)[k], d) >= modulo
      {
        TileSizeIsCut(large, small, d, k);
        if CeilDiv(dim, size) == 1 { SingleCut(dim, size); }
      }
    }
    if WholeOrLarge(large, small, d, modulo) {
      var first := CutOccurs(large, small, d, 0);
      if SizeAt(TileList(large, small)[first], d) == dim {
        SingleCut(dim, size);
      } else {
        forall j: nat | j < CeilDiv(dim, size) ensures j * size <= dim && CutAt(dim, size, j) >= modulo {
          var k := CutOccurs(large, small, d, j);
        }
      }
    }
  }

  lemma SingleCut(dim: nat, size: nat)
    requires 0 < size <= dim
    ensures CeilDiv(dim, size) == 1 <==> CutAt(dim, size, 0) == dim
  {
    if size == dim { DivModUnique(dim + dim - 1, dim, 1, dim - 1); }
  }

  /** Under the divisible constraint every tile that is not the last of its dimension is a multiple of modulo. */
  lemma DivisibleTileList(large: seq<nat>, small: seq<nat>, d: nat, modulo: nat, mul: nat, mulMul: nat, add: nat, k: nat)
    requires Tileable(large, small) && d < |large| && k < |TileList(large, small)| && 0 < modulo
    requires DivisiblePosted(large[d], modulo, small[d], mul, mulMul, add)
    requires TileList(large, small)[k].offset[d] + SizeAt(TileList(large, small)[k], d) < large[d]
    ensures SizeAt(TileList(large, small)[k], d) % modulo == 0
  {
    TileSizeIsCut(large, small, d, k);
    DivModUnique(small[d], modulo, mulMul, 0);
  }
}
