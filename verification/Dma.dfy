/** Transfers of any rank on a DMA that supports only some ranks. */
module Dma {
  import opened Options
  import opened Tensors
  import opened Rectangles

  /** One call of the DMA: a rank and, per dimension, a length and a stride on either side. */
  datatype Kernel = Kernel(shape: seq<nat>, strideExt: seq<int>, strideLoc: seq<int>) {
    ghost predicate Valid() { |strideExt| == |strideLoc| == |shape| }
  }

  /** The emitted code: a plain DMA call, or nested for loops around a call whose two pointers are
      moved by i_0 * stride_0 + i_1 * stride_1 + ... */
  datatype CallStack =
    | Direct(kernel: Kernel)
    | Nested(ends: seq<nat>, extStrides: seq<int>, locStrides: seq<int>, kernel: Kernel) {
    ghost predicate Valid() { kernel.Valid() && (Nested? ==> |ends| == |extStrides| == |locStrides|) }
  }

  /** The (external, local) address pairs a transfer touches, in loop order. */
  ghost function PairWalk(k: Kernel, ext: int, loc: int): seq<(int, int)>
    requires k.Valid()
    decreases |k.shape|, 0
  {
    if k.shape == [] then [(ext, loc)] else Rows(k.shape[0], PairRow(Inner(k), k.strideExt[0], k.strideLoc[0], ext, loc))
  }

  ghost function PairRow(k: Kernel, strideExt: int, strideLoc: int, ext: int, loc: int): nat -> seq<(int, int)>
    requires k.Valid()
    decreases |k.shape|, 1
  {
    i => PairWalk(k, ext + i * strideExt, loc + i * strideLoc)
  }

  function Inner(k: Kernel): (r: Kernel)
    requires k.Valid() && k.shape != []
    ensures r.Valid() && |r.shape| < |k.shape|
  {
    Kernel(k.shape[1..], k.strideExt[1..], k.strideLoc[1..])
  }

  /** Running the loops still open, with the counters of the enclosing loops in iv. */
  ghost function RunLoops(ends: seq<nat>, iv: seq<nat>, extStrides: seq<int>, locStrides: seq<int>, k: Kernel): seq<(int, int)>
    requires k.Valid() && |iv| + |ends| == |extStrides| == |locStrides|
    decreases |ends|, 0
  {
    if ends == [] then PairWalk(k, Dot(iv, extStrides), Dot(iv, locStrides))
    else Rows(ends[0], LoopBody(ends[1..], iv, extStrides, locStrides, k))
  }

  ghost function LoopBody(ends: seq<nat>, iv: seq<nat>, extStrides: seq<int>, locStrides: seq<int>, k: Kernel): nat -> seq<(int, int)>
    requires k.Valid() && |iv| + 1 + |ends| == |extStrides| == |locStrides|
    decreases |ends|, 1
  {
    (i: nat) => RunLoops(ends, iv + [i], extStrides, locStrides, k)
  }

  ghost function Run(c: CallStack): seq<(int, int)>
    requires c.Valid()
  {
    match c
    case Direct(k) => PairWalk(k, 0, 0)
    case Nested(ends, es, ls, k) => RunLoops(ends, [], es, ls, k)
  }

  ghost predicate Ascending(s: seq<nat>) {
    forall i, j :: 0 <= i < j < |s| ==> s[i] < s[j]
  }

  /** The largest supported rank not above the transfer's, else the smallest supported rank. */
  ghost predicate IsNearest(r: nat, ranks: seq<nat>, transferRank: nat) {
    r in ranks &&
    if exists q :: q in ranks && q <= transferRank
    then r <= transferRank && forall q :: q in ranks && q <= transferRank ==> q <= r
    else forall q :: q in ranks ==> r <= q
  }

  /** None when no rank is supported. */
  method NearestSupportedTransferRank(sortedRanks: seq<nat>, transferRank: nat) returns (r: Option<nat>)
    requires Ascending(sortedRanks)
    ensures r.None? <==> sortedRanks == []
    ensures r.Some? ==> IsNearest(r.value, sortedRanks, transferRank)
  {
    if |sortedRanks| == 0 { return None; }
    var i := |sortedRanks|;
    while i > 0
      invariant 0 <= i <= |sortedRanks|
      invariant forall j :: i <= j < |sortedRanks| ==> sortedRanks[j] > transferRank
    {
      i := i - 1;
      if sortedRanks[i] <= transferRank {
        return Some(sortedRanks[i]);
      }
    }
    r := Some(sortedRanks[0]);
  }

  function Repeat(x: int, n: nat): seq<int> { seq(n, _ => x) }

  function Ones(n: nat): seq<nat> { seq(n, _ => 1) }

  /** dma.transfer: None when the rank check fails. */
  method KernelTransfer(ranks: seq<nat>, k: Kernel) returns (r: Option<Kernel>)
    requires k.Valid()
    ensures r == if |k.shape| in ranks then Some(k) else None
  {
    if |k.shape| !in ranks { return None; }
    r := Some(k);
  }

  /** The emitted code touches the address pairs of the plain transfer, in the same order, and calls
      the DMA with a supported rank. It fails only without a supported rank, or when the nearest
      rank is 0: a slice of the last 0 dimensions is the whole shape. */
  method Transfer(sortedRanks: seq<nat>, k: Kernel, strideExtPad: int) returns (r: Option<CallStack>)
    requires Ascending(sortedRanks) && k.Valid()
    ensures r.None? <==> sortedRanks == [] || (k.shape != [] && IsNearest(0, sortedRanks, |k.shape|))
    ensures r.Some? ==> r.value.Valid() && |r.value.kernel.shape| in sortedRanks
    ensures r.Some? ==> Run(r.value) == PairWalk(k, 0, 0)
  {
    var transferRank := |k.shape|;
    var nearest := NearestSupportedTransferRank(sortedRanks, transferRank);
    if nearest.None? { return None; }
    var kernelRank := nearest.value;
    if kernelRank < transferRank {
      var depth := transferRank - kernelRank;
      var start := if kernelRank == 0 then 0 else depth;
      var inner := KernelTransfer(sortedRanks, Kernel(k.shape[start..], k.strideExt[start..], k.strideLoc[start..]));
      if inner.None? { return None; }
      r := Some(Nested(k.shape[..depth], k.strideExt[..depth], k.strideLoc[..depth], inner.value));
      LoopsAreTransfer(k.shape[..depth], [], k.strideExt[..depth], k.strideLoc[..depth], inner.value);
      assert k == Kernel(k.shape[..depth] + inner.value.shape, k.strideExt[..depth] + inner.value.strideExt, k.strideLoc[..depth] + inner.value.strideLoc);
    } else if kernelRank == transferRank {
      var inner := KernelTransfer(sortedRanks, k);
      if inner.None? { return None; }
      r := Some(Direct(inner.value));
    } else {
      var p := kernelRank - transferRank;
      var padded := Kernel(Ones(p) + k.shape, Repeat(strideExtPad, p) + k.strideExt, Repeat(Product(k.shape), p) + k.strideLoc);
      var inner := KernelTransfer(sortedRanks, padded);
      if inner.None? { return None; }
      r := Some(Direct(inner.value));
      PaddingIsTransfer(p, k, strideExtPad, Product(k.shape));
    }
  }

  // ----- the three cases -----

  lemma {:induction false} DotSnoc(a: seq<int>, x: int, b: seq<int>)
    requires |b| == |a| + 1
    ensures Dot(a + [x], b) == Dot(a, b[..|a|]) + x * b[|a|]
  {
    if a == [] {
      assert Dot([x], b) == x * b[0] + Dot([], b[1..]);
    } else {
      assert (a + [x])[1..] == a[1..] + [x] && b[1..][..|a| - 1] == b[..|a|][1..];
      DotSnoc(a[1..], x, b[1..]);
    }
  }

  /** Loops around a kernel are the transfer with the loops' dimensions in front. */
  lemma {:induction false} LoopsAreTransfer(ends: seq<nat>, iv: seq<nat>, es: seq<int>, ls: seq<int>, k: Kernel)
    requires k.Valid() && |iv| + |ends| == |es| == |ls|
    ensures var n := |iv|;
      RunLoops(ends, iv, es, ls, k)
      == PairWalk(Kernel(ends + k.shape, es[n..] + k.strideExt, ls[n..] + k.strideLoc), Dot(iv, es[..n]), Dot(iv, ls[..n]))
    decreases |ends|
  {
    var n := |iv|;
    if ends == [] {
      assert es[..n] == es && ls[..n] == ls;
      assert Kernel(ends + k.shape, es[n..] + k.strideExt, ls[n..] + k.strideLoc) == k;
    } else {
      var full := Kernel(ends + k.shape, es[n..] + k.strideExt, ls[n..] + k.strideLoc);
      var f := LoopBody(ends[1..], iv, es, ls, k);
      var g := PairRow(Inner(full), es[n], ls[n], Dot(iv, es[..n]), Dot(iv, ls[..n]));
      assert Inner(full) == Kernel(ends[1..] + k.shape, es[n + 1..] + k.strideExt, ls[n + 1..] + k.strideLoc);
      forall i: nat ensures f(i) == g(i) {
        LoopsAreTransfer(ends[1..], iv + [i], es, ls, k);
        assert es[..n + 1][..n] == es[..n] && ls[..n + 1][..n] == ls[..n];
        DotSnoc(iv, i, es[..n + 1]);
        DotSnoc(iv, i, ls[..n + 1]);
      }
      RowsCong(ends[0], f, g);
    }
  }

  /** Leading dimensions of length one add nothing, whatever their strides. */
  lemma {:induction false} PaddingIsTransfer(p: nat, k: Kernel, e: int, l: int)
    requires k.Valid()
    ensures PairWalk(Kernel(Ones(p) + k.shape, Repeat(e, p) + k.strideExt, Repeat(l, p) + k.strideLoc), 0, 0) == PairWalk(k, 0, 0)
  {
    var padded := Kernel(Ones(p) + k.shape, Repeat(e, p) + k.strideExt, Repeat(l, p) + k.strideLoc);
    if p == 0 {
      assert padded == k;
    } else {
      PaddingIsTransfer(p - 1, k, e, l);
      assert Inner(padded) == Kernel(Ones(p - 1) + k.shape, Repeat(e, p - 1) + k.strideExt, Repeat(l, p - 1) + k.strideLoc);
      var row := PairRow(Inner(padded), e, l, 0, 0);
      assert Rows(1, row) == Rows(0, row) + row(0);
    }
  }

  // ----- from a rectangle to the DMA -----

  /** The pairs are the two one-sided walks, position by position. */
  lemma {:induction false} PairsAreWalks(k: Kernel, ext: int, loc: int)
    requires k.Valid()
    ensures |PairWalk(k, ext, loc)| == Product(k.shape) == |Walk(k.shape, k.strideExt, ext)| == |Walk(k.shape, k.strideLoc, loc)|
    ensures forall n :: 0 <= n < Product(k.shape) ==>
      PairWalk(k, ext, loc)[n] == (Walk(k.shape, k.strideExt, ext)[n], Walk(k.shape, k.strideLoc, loc)[n])
    decreases |k.shape|
  {
    WalkLength(k.shape, k.strideExt, ext);
    WalkLength(k.shape, k.strideLoc, loc);
    if k.shape != [] {
      var f := WalkRow(k.shape[1..], k.strideExt[1..], k.strideExt[0], ext);
      var g := WalkRow(k.shape[1..], k.strideLoc[1..], k.strideLoc[0], loc);
      var h := PairRow(Inner(k), k.strideExt[0], k.strideLoc[0], ext, loc);
      forall i: nat ensures Zipped(h(i), f(i), g(i)) {
        PairsAreWalks(Inner(k), ext + i * k.strideExt[0], loc + i * k.strideLoc[0]);
      }
      RowsZipped(k.shape[0], h, f, g);
    }
  }

  ghost predicate Zipped(h: seq<(int, int)>, f: seq<int>, g: seq<int>) {
    |h| == |f| == |g| && forall n :: 0 <= n < |h| ==> h[n] == (f[n], g[n])
  }

  lemma {:induction false} RowsZipped(n: nat, h: nat -> seq<(int, int)>, f: nat -> seq<int>, g: nat -> seq<int>)
    requires forall i: nat :: Zipped(h(i), f(i), g(i))
    ensures Zipped(Rows(n, h), Rows(n, f), Rows(n, g))
  {
    if n > 0 { RowsZipped(n - 1, h, f, g); }
  }

  /** The n-th of these bytes of the external side goes to the n-th byte of the local side. */
  ghost predicate CopiesInOrder(pairs: seq<(int, int)>, offset: int, addresses: seq<int>) {
    |pairs| == |addresses| && forall n :: 0 <= n < |pairs| ==> offset + pairs[n].0 == addresses[n] && pairs[n].1 == n
  }

  /** Collapse a rectangle, take strides on both sides, and emit the transfer. The bytes of the
      rectangle go to the local buffer one after the other, in lexicographic order, exactly when
      collapsing drops no empty block; without a size zero it never does. */
  method TransferRectangle(rect: HyperRectangle, externalShape: seq<nat>, sortedRanks: seq<nat>)
    returns (offset: int, r: Option<CallStack>)
    requires InBounds(rect, externalShape) && externalShape != [] && Ascending(sortedRanks)
    ensures r.None? <==> sortedRanks == [] || IsNearest(0, sortedRanks, |Minimized(rect, externalShape).0.dims|)
    ensures r.Some? ==> r.value.Valid() && |r.value.kernel.shape| in sortedRanks
    ensures r.Some? ==>
      (CopiesInOrder(Run(r.value), offset, Addresses(rect, externalShape)) <==> !DropsEmptyBlock(rect.dims, externalShape))
    ensures (forall d :: 0 <= d < |externalShape| ==> 0 < externalShape[d]) ==> !DropsEmptyBlock(rect.dims, externalShape)
  {
    hide Addresses, DropsEmptyBlock, Minimized, PairWalk, Walk, Strides, Product;
    InBoundsPlaced(rect, externalShape);
    if forall d :: 0 <= d < |externalShape| ==> 0 < externalShape[d] { NothingDropped(rect.dims, externalShape); }
    var minimal := MinimizeRectangle(rect, externalShape);
    var (m, mShape) := minimal.value;
    CollapseKeepsAddressesIff(rect, externalShape);
    var strideExt := StridesFromShape(mShape);
    var strideLoc := StridesFromShape(m.dims);
    var flat := CalculateFlatOffset(m.offset, strideExt);
    offset := flat.value;
    var k := Kernel(m.dims, strideExt, strideLoc);
    r := Transfer(sortedRanks, k, Product(mShape));
    PairsOfRectangle(m, mShape, offset);
    if r.Some? && CopiesInOrder(Run(r.value), offset, Addresses(rect, externalShape)) {
      assert Addresses(rect, externalShape) == Addresses(m, mShape);
    }
  }

  /** With the strides of its shape and of its own dimensions, a rectangle's pairs are its addresses, in order. */
  lemma PairsOfRectangle(m: HyperRectangle, shape: seq<nat>, offset: int)
    requires m.Valid() && |m.dims| == |shape| && offset == Dot(m.offset, Strides(shape))
    ensures CopiesInOrder(PairWalk(Kernel(m.dims, Strides(shape), Strides(m.dims)), 0, 0), offset, Addresses(m, shape))
  {
    hide PairWalk, Walk, Strides, Product, Dot;
    PairsAreWalks(Kernel(m.dims, Strides(shape), Strides(m.dims)), 0, 0);
    ContiguousWalk(m.dims, 0);
    WalkShift(m.dims, Strides(shape), 0, offset);
  }

  lemma NothingDropped(dims: seq<nat>, shape: seq<nat>)
    requires |dims| == |shape| && forall d :: 0 <= d < |shape| ==> 0 < shape[d]
    ensures !DropsEmptyBlock(dims, shape)
  {
    ProductPositive(dims, shape);
  }
}
