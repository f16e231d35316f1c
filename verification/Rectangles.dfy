/** Collapsing a rectangle inside a reference tensor to the fewest dimensions. */
module Rectangles {
  import opened Options
  import opened Tensors

  datatype HyperRectangle = HyperRectangle(offset: seq<nat>, dims: seq<nat>) {
    ghost predicate Valid() { |offset| == |dims| }
  }

  /** Intermediate state of the right-to-left sweep: what was emitted, and the product of the
      full dimensions still waiting to be merged into the next one. */
  datatype Sweep = Sweep(offset: seq<nat>, dims: seq<nat>, shape: seq<nat>, pending: nat) {
    ghost predicate Valid() { |offset| == |dims| == |shape| }
  }

  ghost predicate InBounds(rect: HyperRectangle, shape: seq<nat>) {
    rect.Valid() && |rect.dims| == |shape| &&
    forall d :: 0 <= d < |shape| ==> rect.offset[d] + rect.dims[d] <= shape[d]
  }

  /** The flat addresses of a rectangle of a row-major tensor, in lexicographic order. */
  ghost function Addresses(rect: HyperRectangle, shape: seq<nat>): seq<int>
    requires rect.Valid() && |rect.dims| == |shape|
  {
    Walk(rect.dims, Strides(shape), Dot(rect.offset, Strides(shape)))
  }

  /** A dimension that fills its reference dimension but does not start at zero. */
  predicate Misplaced(rect: HyperRectangle, shape: seq<nat>)
    requires rect.Valid() && |rect.dims| == |shape|
  {
    exists d :: 0 <= d < |shape| && rect.dims[d] == shape[d] && rect.offset[d] != 0
  }

  function Step(s: Sweep, offset: nat, dim: nat, ref: nat): Sweep {
    if dim == ref then s.(pending := s.pending * dim)
    else Sweep([s.pending * offset] + s.offset, [s.pending * dim] + s.dims, [s.pending * ref] + s.shape, 1)
  }

  function SweepFrom(rect: HyperRectangle, shape: seq<nat>): (s: Sweep)
    requires rect.Valid() && |rect.dims| == |shape|
    ensures s.Valid()
    decreases |shape|
  {
    if shape == [] then Sweep([], [], [], 1)
    else Step(SweepFrom(Tail(rect), shape[1..]), rect.offset[0], rect.dims[0], shape[0])
  }

  function Tail(rect: HyperRectangle): (t: HyperRectangle)
    requires rect.Valid() && rect.dims != []
    ensures t.Valid()
  {
    HyperRectangle(rect.offset[1..], rect.dims[1..])
  }

  function Finish(s: Sweep, offset0: nat): (HyperRectangle, seq<nat>) {
    if s.pending > 1 || s.dims == [] then
      (HyperRectangle([s.pending * offset0] + s.offset, [s.pending] + s.dims), [s.pending] + s.shape)
    else (HyperRectangle(s.offset, s.dims), s.shape)
  }

  function Minimized(rect: HyperRectangle, shape: seq<nat>): (HyperRectangle, seq<nat>)
    requires rect.Valid() && |rect.dims| == |shape| > 0
  {
    Finish(SweepFrom(rect, shape), rect.offset[0])
  }

  /** None when the zero-offset assertion fires or the rectangle has rank 0. */
  method MinimizeRectangle(rect: HyperRectangle, referenceShape: seq<nat>)
    returns (r: Option<(HyperRectangle, seq<nat>)>)
    requires rect.Valid() && |rect.dims| == |referenceShape|
    ensures r.None? <==> referenceShape == [] || Misplaced(rect, referenceShape)
    ensures r.Some? ==> r.value == Minimized(rect, referenceShape)
  {
    var minRectShape: seq<nat>, minRectOffset: seq<nat>, minReferenceShape: seq<nat> := [], [], [];
    var currentCollapsedDim: nat := 1;
    var i := |referenceShape|;
    while i > 0
      invariant 0 <= i <= |referenceShape|
      invariant Sweep(minRectOffset, minRectShape, minReferenceShape, currentCollapsedDim)
             == SweepFrom(HyperRectangle(rect.offset[i..], rect.dims[i..]), referenceShape[i..])
      invariant forall d :: i <= d < |referenceShape| && rect.dims[d] == referenceShape[d] ==> rect.offset[d] == 0
    {
      i := i - 1;
      var rectDim, rectOffset, referenceDim := rect.dims[i], rect.offset[i], referenceShape[i];
      assert rect.offset[i..][1..] == rect.offset[i + 1..];
      assert rect.dims[i..][1..] == rect.dims[i + 1..];
      assert referenceShape[i..][1..] == referenceShape[i + 1..];
      if rectDim == referenceDim {
        if rectOffset != 0 { return None; }
        currentCollapsedDim := currentCollapsedDim * rectDim;
      } else {
        minRectShape := [currentCollapsedDim * rectDim] + minRectShape;
        minReferenceShape := [currentCollapsedDim * referenceDim] + minReferenceShape;
        minRectOffset := [currentCollapsedDim * rectOffset] + minRectOffset;
        currentCollapsedDim := 1;
      }
    }
    assert rect.offset[0..] == rect.offset && rect.dims[0..] == rect.dims && referenceShape[0..] == referenceShape;
    if currentCollapsedDim > 1 || |minRectShape| == 0 {
      if |rect.offset| == 0 { return None; }
      minRectShape := [currentCollapsedDim] + minRectShape;
      minReferenceShape := [currentCollapsedDim] + minReferenceShape;
      minRectOffset := [currentCollapsedDim * rect.offset[0]] + minRectOffset;
    }
    r := Some((HyperRectangle(minRectOffset, minRectShape), minReferenceShape));
  }

  // ----- the addresses survive -----

  /** Splitting a dimension of size r * c into r rows of c changes no address. */
  lemma MergeDimensions(o: nat, r: nat, ref: nat, c: nat, offset: seq<nat>, dims: seq<nat>, shape: seq<nat>)
    requires |offset| == |dims| == |shape|
    ensures Addresses(HyperRectangle([o] + ([0] + offset), [r] + ([c] + dims)), [ref] + ([c] + shape))
         == Addresses(HyperRectangle([c * o] + offset, [c * r] + dims), [c * ref] + shape)
  {
    var p, st := Product(shape), Strides(shape);
    ConsStrides(c * ref, shape);
    ConsStrides(c, shape);
    ConsStrides(ref, [c] + shape);
    ConsDot(c * o, offset, p, st);
    ConsDot(0, offset, p, st);
    ConsDot(o, [0] + offset, c * p, [p] + st);
    Reassociate(o, c, p);
    var base := o * (c * p) + Dot(offset, st);
    MergeWalks(r, c, dims, p, st, base);
  }

  lemma MergeWalks(r: nat, c: nat, dims: seq<nat>, p: int, st: seq<int>, base: int)
    requires |dims| == |st|
    ensures Walk([r] + ([c] + dims), [c * p] + ([p] + st), base) == Walk([c * r] + dims, [p] + st, base)
  {
    var f := WalkRow(dims, st, p, base);
    var g := WalkRow([c] + dims, [p] + st, c * p, base);
    ConsWalk(r, [c] + dims, c * p, [p] + st, base);
    ConsWalk(c * r, dims, p, st, base);
    forall i: nat ensures g(i) == Rows(c, Late(f, i * c)) {
      MergeRow(i, c, dims, p, st, base);
    }
    RowsMerge(r, c, f, g);
    Commute(r, c);
  }

  lemma MergeRow(i: nat, c: nat, dims: seq<nat>, p: int, st: seq<int>, base: int)
    requires |dims| == |st|
    ensures WalkRow([c] + dims, [p] + st, c * p, base)(i) == Rows(c, Late(WalkRow(dims, st, p, base), i * c))
  {
    var start := base + i * (c * p);
    ConsWalk(c, dims, p, st, start);
    var f, g := Late(WalkRow(dims, st, p, base), i * c), WalkRow(dims, st, p, start);
    forall j: nat ensures f(j) == g(j) {
      Distribute(i, c, j, p);
    }
    RowsCong(c, f, g);
  }

  lemma Distribute(i: int, c: int, j: int, p: int)
    ensures i * (c * p) + j * p == (i * c + j) * p
  {
    Reassociate(i, c, p);
  }

  lemma Commute(a: int, b: int)
    ensures a * b == b * a
  {
  }

  lemma Reassociate(o: int, c: int, p: int)
    ensures o * (c * p) == c * o * p == (o * c) * p
  {
  }

  /** A leading dimension of size one adds nothing. */
  lemma DropUnit(offset: seq<nat>, dims: seq<nat>, shape: seq<nat>)
    requires |offset| == |dims| == |shape|
    ensures Addresses(HyperRectangle([0] + offset, [1] + dims), [1] + shape)
         == Addresses(HyperRectangle(offset, dims), shape)
  {
    var p, st := Product(shape), Strides(shape);
    ConsStrides(1, shape);
    ConsDot(0, offset, p, st);
    var base := Dot(offset, st);
    ConsWalk(1, dims, p, st, base);
    var row := WalkRow(dims, st, p, base);
    assert Rows(1, row) == Rows(0, row) + row(0);
  }

  ghost function PendingRectangle(s: Sweep): HyperRectangle {
    HyperRectangle([0] + s.offset, [s.pending] + s.dims)
  }

  lemma {:induction false} SweepKeepsAddresses(rect: HyperRectangle, shape: seq<nat>)
    requires rect.Valid() && |rect.dims| == |shape| && !Misplaced(rect, shape)
    ensures var s := SweepFrom(rect, shape);
      && Addresses(PendingRectangle(s), [s.pending] + s.shape) == Addresses(rect, shape)
      && Product([s.pending] + s.shape) == Product(shape)
    decreases |shape|
  {
    if shape == [] {
      DropUnit([], [], []);
      ConsStrides(1, []);
    } else {
      var tail := Tail(rect);
      TailPlaced(rect, shape);
      SweepKeepsAddresses(tail, shape[1..]);
      var s := SweepFrom(tail, shape[1..]);
      var o, r, ref, c := rect.offset[0], rect.dims[0], shape[0], s.pending;
      PrependDimension(o, r, ref, PendingRectangle(s), [c] + s.shape, tail, shape[1..]);
      assert rect == HyperRectangle([o] + tail.offset, [r] + tail.dims) && shape == [ref] + shape[1..];
      StepKeepsAddresses(s, o, r, ref);
      ConsStrides(ref, shape[1..]);
    }
  }

  lemma StepKeepsAddresses(s: Sweep, o: nat, r: nat, ref: nat)
    requires s.Valid() && (r == ref ==> o == 0)
    ensures var t := Step(s, o, r, ref);
      && t.Valid()
      && Addresses(PendingRectangle(t), [t.pending] + t.shape)
      == Addresses(HyperRectangle([o] + PendingRectangle(s).offset, [r] + PendingRectangle(s).dims), [ref] + ([s.pending] + s.shape))
      && Product([t.pending] + t.shape) == ref * Product([s.pending] + s.shape)
  {
    var c := s.pending;
    MergeDimensions(o, r, ref, c, s.offset, s.dims, s.shape);
    ConsStrides(c, s.shape);
    ConsStrides(c * ref, s.shape);
    Reassociate(ref, c, Product(s.shape));
    if r != ref {
      DropUnit([c * o] + s.offset, [c * r] + s.dims, [c * ref] + s.shape);
      ConsStrides(1, [c * ref] + s.shape);
    }
  }

  lemma TailPlaced(rect: HyperRectangle, shape: seq<nat>)
    requires rect.Valid() && |rect.dims| == |shape| > 0 && !Misplaced(rect, shape)
    ensures !Misplaced(Tail(rect), shape[1..])
  {
    var tail := Tail(rect);
    forall d | 0 <= d < |tail.dims| && tail.dims[d] == shape[1..][d] ensures tail.offset[d] == 0 {
      assert rect.dims[d + 1] == shape[d + 1];
    }
  }

  lemma ConsAddresses(o: nat, r: nat, ref: nat, rect: HyperRectangle, shape: seq<nat>, start: int)
    requires rect.Valid() && |rect.dims| == |shape|
    requires start == o * Product(shape) + Dot(rect.offset, Strides(shape))
    ensures Addresses(HyperRectangle([o] + rect.offset, [r] + rect.dims), [ref] + shape)
         == Rows(r, WalkRow(rect.dims, Strides(shape), Product(shape), start))
  {
    var p, st := Product(shape), Strides(shape);
    ConsStrides(ref, shape);
    assert Dot([o] + rect.offset, [p] + st) == start by { ConsDot(o, rect.offset, p, st); }
    ConsWalk(r, rect.dims, p, st, start);
  }

  /** A dimension put in front of two equal walks over equal volumes keeps them equal. */
  lemma PrependDimension(o: nat, r: nat, ref: nat, a: HyperRectangle, shapeA: seq<nat>, b: HyperRectangle, shapeB: seq<nat>)
    requires a.Valid() && |a.dims| == |shapeA| && b.Valid() && |b.dims| == |shapeB|
    requires Addresses(a, shapeA) == Addresses(b, shapeB)
    requires Product(shapeA) == Product(shapeB)
    ensures Addresses(HyperRectangle([o] + a.offset, [r] + a.dims), [ref] + shapeA)
         == Addresses(HyperRectangle([o] + b.offset, [r] + b.dims), [ref] + shapeB)
  {
    hide Walk, WalkRow, Rows, Product, Strides, Dot;
    var p, startA, startB := Product(shapeA), Dot(a.offset, Strides(shapeA)), Dot(b.offset, Strides(shapeB));
    var x := o * p;
    ConsAddresses(o, r, ref, a, shapeA, x + startA);
    ConsAddresses(o, r, ref, b, shapeB, x + startB);
    PrependWalks(r, p, x, a.dims, Strides(shapeA), startA, b.dims, Strides(shapeB), startB);
  }

  lemma PrependWalks(r: nat, p: int, x: int, dimsA: seq<nat>, sa: seq<int>, a: int, dimsB: seq<nat>, sb: seq<int>, b: int)
    requires |dimsA| == |sa| && |dimsB| == |sb|
    requires Walk(dimsA, sa, a) == Walk(dimsB, sb, b)
    ensures Rows(r, WalkRow(dimsA, sa, p, x + a)) == Rows(r, WalkRow(dimsB, sb, p, x + b))
  {
    var f, g := WalkRow(dimsA, sa, p, x + a), WalkRow(dimsB, sb, p, x + b);
    forall i: nat ensures f(i) == g(i) {
      var y := x + i * p;
      SameWalksShift(dimsA, sa, a, dimsB, sb, b, y);
      assert x + a + i * p == a + y && x + b + i * p == b + y;
    }
    RowsCong(r, f, g);
  }

  // ----- main results -----

  /** The zero-offset assertion cannot fire on a rectangle that lies inside its tensor. */
  lemma InBoundsPlaced(rect: HyperRectangle, shape: seq<nat>)
    requires InBounds(rect, shape)
    ensures !Misplaced(rect, shape)
  {
    forall d | 0 <= d < |shape| && rect.dims[d] == shape[d] ensures rect.offset[d] == 0 {
      assert rect.offset[d] + rect.dims[d] <= shape[d];
    }
  }

  /** The number of leading dimensions that fill their reference dimension. */
  function LeadingFull(dims: seq<nat>, shape: seq<nat>): (l: nat)
    requires |dims| == |shape|
    ensures l <= |dims|
  {
    if dims == [] || dims[0] != shape[0] then 0 else 1 + LeadingFull(dims[1..], shape[1..])
  }

  /** An empty block of leading full dimensions in front of a non-empty rest: the sweep ends with
      a pending product of zero and drops it. */
  predicate DropsEmptyBlock(dims: seq<nat>, shape: seq<nat>)
    requires |dims| == |shape|
  {
    var l := LeadingFull(dims, shape);
    l < |dims| && Product(dims[..l]) == 0 && Product(dims[l..]) != 0
  }

  lemma {:induction false} SweepVolumes(rect: HyperRectangle, shape: seq<nat>)
    requires rect.Valid() && |rect.dims| == |shape|
    ensures var s, l := SweepFrom(rect, shape), LeadingFull(rect.dims, shape);
      && s.pending == Product(rect.dims[..l])
      && Product(s.dims) == Product(rect.dims[l..])
      && (s.dims == [] <==> l == |shape|)
      && s.pending * Product(s.dims) == Product(rect.dims)
    decreases |shape|
  {
    var l := LeadingFull(rect.dims, shape);
    if shape == [] {
      assert rect.dims[..0] == [] && rect.dims[0..] == [];
    } else {
      SweepVolumes(Tail(rect), shape[1..]);
      var s := SweepFrom(Tail(rect), shape[1..]);
      if rect.dims[0] == shape[0] {
        assert rect.dims[..l][1..] == rect.dims[1..][..l - 1];
        assert rect.dims[l..] == rect.dims[1..][l - 1..];
        Commute(rect.dims[0], s.pending);
        Reassociate(rect.dims[0], s.pending, Product(s.dims));
      } else {
        assert rect.dims[..0] == [] && rect.dims[0..] == rect.dims;
        ConsStrides(s.pending * rect.dims[0], s.dims);
        Reassociate(rect.dims[0], s.pending, Product(s.dims));
      }
    }
  }

  /** Collapsing a rectangle keeps its lexicographic sequence of flat addresses, exactly when it
      does not drop an empty block of leading full dimensions. */
  lemma CollapseKeepsAddressesIff(rect: HyperRectangle, shape: seq<nat>)
    requires rect.Valid() && |rect.dims| == |shape| > 0 && !Misplaced(rect, shape)
    ensures var (m, mShape) := Minimized(rect, shape);
      && m.Valid() && |m.dims| == |mShape| > 0
      && (Addresses(m, mShape) == Addresses(rect, shape) <==> !DropsEmptyBlock(rect.dims, shape))
  {
    var s := SweepFrom(rect, shape);
    SweepKeepsAddresses(rect, shape);
    SweepVolumes(rect, shape);
    if s.pending > 1 || s.dims == [] {
      LeadingOffsetZero(rect, shape);
    } else if s.pending == 1 {
      DropUnit(s.offset, s.dims, s.shape);
    } else {
      WalkLength(rect.dims, Strides(shape), Dot(rect.offset, Strides(shape)));
      WalkLength(s.dims, Strides(s.shape), Dot(s.offset, Strides(s.shape)));
    }
  }

  lemma LeadingOffsetZero(rect: HyperRectangle, shape: seq<nat>)
    requires rect.Valid() && |rect.dims| == |shape| > 0 && !Misplaced(rect, shape)
    requires var s := SweepFrom(rect, shape); s.pending > 1 || s.dims == []
    ensures rect.offset[0] == 0
  {
    assert rect.dims[0] == shape[0];
  }

  /** An empty rectangle in front of a full row collapses to one that visits an address. */
  lemma EmptyBlockIsDropped()
    ensures var rect, shape := HyperRectangle([0, 0], [0, 1]), [0, 2];
      InBounds(rect, shape) && Addresses(Minimized(rect, shape).0, Minimized(rect, shape).1) != Addresses(rect, shape)
  {
    var rect, shape := HyperRectangle([0, 0], [0, 1]), [0, 2];
    CollapseKeepsAddressesIff(rect, shape);
    assert rect.dims[1..] == [1] && shape[1..] == [2] && LeadingFull(rect.dims[1..], shape[1..]) == 0;
    assert rect.dims[..1] == [0] && [0][1..] == [] && [1][1..] == [];
  }

  /** No size is zero: collapsing always keeps the addresses, and stays inside the new shape. */
  lemma CollapseKeepsAddresses(rect: HyperRectangle, shape: seq<nat>)
    requires InBounds(rect, shape) && shape != []
    requires forall d :: 0 <= d < |shape| ==> 0 < shape[d]
    ensures var (m, mShape) := Minimized(rect, shape);
      InBounds(m, mShape) && Addresses(m, mShape) == Addresses(rect, shape)
  {
    InBoundsPlaced(rect, shape);
    CollapseKeepsAddressesIff(rect, shape);
    SweepVolumes(rect, shape);
    ProductPositive(rect.dims, shape);
    CollapsedInBounds(rect, shape);
  }

  /** The product of the leading full dimensions is positive. */
  lemma {:induction false} ProductPositive(dims: seq<nat>, shape: seq<nat>)
    requires |dims| == |shape| && forall d :: 0 <= d < |shape| ==> 0 < shape[d]
    ensures 0 < Product(dims[..LeadingFull(dims, shape)])
  {
    var l := LeadingFull(dims, shape);
    if l > 0 {
      ProductPositive(dims[1..], shape[1..]);
      assert dims[..l][1..] == dims[1..][..l - 1];
    }
  }

  // ----- the form of the result -----

  predicate FullAt(dims: seq<nat>, shape: seq<nat>, d: nat)
    requires |dims| == |shape| && d < |dims|
  {
    dims[d] == shape[d]
  }

  /** A full dimension of size zero. */
  predicate FullZero(dims: seq<nat>, shape: seq<nat>)
    requires |dims| == |shape|
  {
    exists z :: 0 <= z < |dims| && FullAt(dims, shape, z) && dims[z] == 0
  }

  /** A full dimension of size zero behind one that is not full. */
  predicate ZeroBehind(dims: seq<nat>, shape: seq<nat>)
    requires |dims| == |shape|
  {
    exists d, z :: 0 <= d < z < |dims| && !FullAt(dims, shape, d) && FullAt(dims, shape, z) && dims[z] == 0
  }

  predicate SomeFull(dims: seq<nat>, shape: seq<nat>)
    requires |dims| == |shape|
  {
    exists d :: 0 <= d < |dims| && FullAt(dims, shape, d)
  }

  /** The number of dimensions that are not full. */
  function Differing(dims: seq<nat>, shape: seq<nat>): (n: nat)
    requires |dims| == |shape|
    ensures n <= |dims|
    ensures n == |dims| <==> !SomeFull(dims, shape)
  {
    if dims == [] then 0
    else
      assert SomeFull(dims, shape) <==> FullAt(dims, shape, 0) || SomeFull(dims[1..], shape[1..]) by { ConsSome(dims, shape); }
      (if dims[0] == shape[0] then 0 else 1) + Differing(dims[1..], shape[1..])
  }

  lemma ConsSome(dims: seq<nat>, shape: seq<nat>)
    requires |dims| == |shape| > 0
    ensures SomeFull(dims, shape) <==> FullAt(dims, shape, 0) || SomeFull(dims[1..], shape[1..])
  {
    var ds, ss := dims[1..], shape[1..];
    if SomeFull(dims, shape) && !FullAt(dims, shape, 0) {
      var d :| 0 <= d < |dims| && FullAt(dims, shape, d);
      assert FullAt(ds, ss, d - 1);
    }
    if SomeFull(ds, ss) {
      var d :| 0 <= d < |ds| && FullAt(ds, ss, d);
      assert FullAt(dims, shape, d + 1);
    }
  }

  lemma ConsZero(dims: seq<nat>, shape: seq<nat>)
    requires |dims| == |shape| > 0
    ensures FullZero(dims, shape) <==> (FullAt(dims, shape, 0) && dims[0] == 0) || FullZero(dims[1..], shape[1..])
    ensures ZeroBehind(dims, shape) <==>
      (!FullAt(dims, shape, 0) && FullZero(dims[1..], shape[1..])) || ZeroBehind(dims[1..], shape[1..])
  {
    var ds, ss := dims[1..], shape[1..];
    if z :| 0 < z < |dims| && FullAt(dims, shape, z) && dims[z] == 0 { assert FullAt(ds, ss, z - 1) && ds[z - 1] == 0; }
    if z :| 0 <= z < |ds| && FullAt(ds, ss, z) && ds[z] == 0 { assert FullAt(dims, shape, z + 1) && dims[z + 1] == 0; }
    if d, z :| 0 < d < z < |dims| && !FullAt(dims, shape, d) && FullAt(dims, shape, z) && dims[z] == 0 {
      assert !FullAt(ds, ss, d - 1) && FullAt(ds, ss, z - 1) && ds[z - 1] == 0;
    }
    if d, z :| 0 <= d < z < |ds| && !FullAt(ds, ss, d) && FullAt(ds, ss, z) && ds[z] == 0 {
      assert !FullAt(dims, shape, d + 1) && FullAt(dims, shape, z + 1) && dims[z + 1] == 0;
    }
  }

  /** What the sweep emits: dimensions in bounds, full only at size zero. */
  ghost predicate Formed(s: Sweep) {
    InBounds(HyperRectangle(s.offset, s.dims), s.shape) &&
    forall d :: 0 <= d < |s.dims| && FullAt(s.dims, s.shape, d) ==> s.dims[d] == 0
  }

  lemma StepForm(s: Sweep, o: nat, r: nat, ref: nat)
    requires Formed(s) && o + r <= ref
    ensures var t := Step(s, o, r, ref);
      && Formed(t)
      && (SomeFull(t.dims, t.shape) <==> SomeFull(s.dims, s.shape) || (r != ref && s.pending == 0))
      && (t.pending == 0 <==> r == ref && (s.pending == 0 || r == 0))
  {
    hide SomeFull;
    var t := Step(s, o, r, ref);
    ScaleBounds(s.pending, o, r, ref);
    ZeroProduct(s.pending, r);
    if r != ref {
      ConsSome(t.dims, t.shape);
      assert t.dims[1..] == s.dims && t.shape[1..] == s.shape;
      forall d | 0 <= d < |t.dims| ensures t.offset[d] + t.dims[d] <= t.shape[d] && (FullAt(t.dims, t.shape, d) ==> t.dims[d] == 0) {
        if d > 0 { assert FullAt(t.dims, t.shape, d) <==> FullAt(s.dims, s.shape, d - 1); }
      }
    }
  }

  /** A dimension is emitted as a full one exactly when a full one of size zero stands behind it. */
  lemma {:induction false} SweepForm(rect: HyperRectangle, shape: seq<nat>)
    requires InBounds(rect, shape)
    ensures var s := SweepFrom(rect, shape);
      && Formed(s)
      && |s.dims| == Differing(rect.dims, shape)
      && (SomeFull(s.dims, s.shape) <==> ZeroBehind(rect.dims, shape))
      && (s.pending == 0 || SomeFull(s.dims, s.shape) <==> FullZero(rect.dims, shape))
    decreases |shape|
  {
    hide Formed, SomeFull, ZeroBehind, FullZero;
    if shape == [] {
      NoDimensions();
    } else {
      SweepForm(Tail(rect), shape[1..]);
      ConsZero(rect.dims, shape);
      StepForm(SweepFrom(Tail(rect), shape[1..]), rect.offset[0], rect.dims[0], shape[0]);
    }
  }

  lemma NoDimensions()
    ensures Formed(Sweep([], [], [], 1)) && !SomeFull([], []) && !ZeroBehind([], []) && !FullZero([], [])
  {
  }

  lemma ZeroProduct(a: nat, b: nat)
    ensures a * b == 0 <==> a == 0 || b == 0
  {
  }

  lemma ScaleBounds(c: nat, o: nat, r: nat, ref: nat)
    requires o + r <= ref
    ensures c * o + c * r <= c * ref && (r != ref ==> (c * r == c * ref <==> c == 0))
  {
    assert c * o + c * r == c * (o + r);
    assert c * ref - c * (o + r) == c * (ref - (o + r));
    assert c * ref - c * r == c * (ref - r);
    ZeroProduct(c, ref - r);
  }

  lemma CollapsedInBounds(rect: HyperRectangle, shape: seq<nat>)
    requires InBounds(rect, shape) && shape != []
    ensures InBounds(Minimized(rect, shape).0, Minimized(rect, shape).1)
  {
    SweepForm(rect, shape);
    InBoundsPlaced(rect, shape);
    SweepVolumes(rect, shape);
    var s := SweepFrom(rect, shape);
    if s.pending > 1 || s.dims == [] { LeadingOffsetZero(rect, shape); }
  }

  /** Behind the first dimension that is not full, the sweep emits what it emits for the rest alone. */
  lemma {:induction false} SweepBehind(rect: HyperRectangle, shape: seq<nat>)
    requires rect.Valid() && |rect.dims| == |shape| && LeadingFull(rect.dims, shape) < |shape|
    ensures var s, l := SweepFrom(rect, shape), LeadingFull(rect.dims, shape) + 1;
      var rest := SweepFrom(HyperRectangle(rect.offset[l..], rect.dims[l..]), shape[l..]);
      s.dims != [] && s.dims[1..] == rest.dims && s.shape[1..] == rest.shape
    decreases |shape|
  {
    if rect.dims[0] == shape[0] {
      var l := LeadingFull(rect.dims, shape);
      SweepBehind(Tail(rect), shape[1..]);
      assert rect.offset[1..][l..] == rect.offset[l + 1..] && rect.dims[1..][l..] == rect.dims[l + 1..] && shape[1..][l..] == shape[l + 1..];
    }
  }

  /** Does a full dimension remain behind the leading one of the result? */
  predicate LeavesFull(dims: seq<nat>, shape: seq<nat>)
    requires |dims| == |shape|
  {
    var l := LeadingFull(dims, shape);
    if l == |dims| || Product(dims[..l]) > 1 then ZeroBehind(dims, shape) else ZeroBehind(dims[l + 1..], shape[l + 1..])
  }

  /** The result is in bounds, so that a full dimension starts at 0; only its leading dimension is
      full, exactly when no full dimension of size zero stands behind one that is not full (the
      first of these does not matter when it becomes the leading one). */
  lemma OnlyLeadingFullIff(rect: HyperRectangle, shape: seq<nat>)
    requires InBounds(rect, shape) && shape != []
    ensures var (m, mShape) := Minimized(rect, shape);
      && InBounds(m, mShape)
      && ((forall d :: 0 < d < |mShape| ==> m.dims[d] < mShape[d]) <==> !LeavesFull(rect.dims, shape))
  {
    hide ZeroBehind, FullZero, SweepFrom, Formed;
    CollapsedInBounds(rect, shape);
    SweepForm(rect, shape);
    SweepVolumes(rect, shape);
    var s, l := SweepFrom(rect, shape), LeadingFull(rect.dims, shape);
    var (m, mShape) := Minimized(rect, shape);
    ConsSome(m.dims, mShape);
    assert SomeFull(m.dims[1..], mShape[1..]) <==> LeavesFull(rect.dims, shape) by {
      if s.pending > 1 || s.dims == [] {
        assert m.dims[1..] == s.dims && mShape[1..] == s.shape;
      } else {
        SweepBehind(rect, shape);
        SweepForm(HyperRectangle(rect.offset[l + 1..], rect.dims[l + 1..]), shape[l + 1..]);
      }
    }
    if d :| 0 < d < |mShape| && m.dims[d] == mShape[d] { assert FullAt(m.dims[1..], mShape[1..], d - 1); }
    if d :| 0 <= d < |mShape| - 1 && FullAt(m.dims[1..], mShape[1..], d) { assert m.dims[d + 1] == mShape[d + 1]; }
  }

  lemma {:induction false} SweepOfDiffering(s: Sweep)
    requires s.Valid() && !SomeFull(s.dims, s.shape)
    ensures SweepFrom(HyperRectangle(s.offset, s.dims), s.shape) == s.(pending := 1)
    decreases |s.shape|
  {
    if s.shape != [] {
      ConsSome(s.dims, s.shape);
      SweepOfDiffering(Sweep(s.offset[1..], s.dims[1..], s.shape[1..], s.pending));
      assert !FullAt(s.dims, s.shape, 0);
    }
  }

  /** Sweeping dimensions that are full only at size zero leaves a product of at most one. */
  lemma {:induction false} SweepOfZeros(rect: HyperRectangle, shape: seq<nat>)
    requires rect.Valid() && |rect.dims| == |shape|
    requires forall d :: 0 <= d < |shape| && FullAt(rect.dims, shape, d) ==> rect.dims[d] == 0
    ensures SweepFrom(rect, shape).pending <= 1
    decreases |shape|
  {
    if shape != [] {
      forall d | 0 <= d < |shape| - 1 && FullAt(rect.dims[1..], shape[1..], d) ensures rect.dims[1..][d] == 0 {
        assert FullAt(rect.dims, shape, d + 1);
      }
      SweepOfZeros(Tail(rect), shape[1..]);
      assert FullAt(rect.dims, shape, 0) ==> rect.dims[0] == 0;
    }
  }

  /** Does collapsing the result once more change it? */
  predicate CollapsesAgain(dims: seq<nat>, shape: seq<nat>)
    requires |dims| == |shape|
  {
    ZeroBehind(dims, shape) && (Differing(dims, shape) > 1 || Product(dims[..LeadingFull(dims, shape)]) > 1)
  }

  /** Collapsing twice is collapsing once, exactly when no full dimension of size zero stands behind
      one that is not full, unless everything collapses to one dimension. */
  lemma CollapseIdempotentIff(rect: HyperRectangle, shape: seq<nat>)
    requires InBounds(rect, shape) && shape != []
    ensures var (m, mShape) := Minimized(rect, shape);
      && m.Valid() && |m.dims| == |mShape| > 0
      && (Minimized(m, mShape) == (m, mShape) <==> !CollapsesAgain(rect.dims, shape))
  {
    hide ZeroBehind, FullZero, SomeFull;
    var s := SweepFrom(rect, shape);
    SweepForm(rect, shape);
    SweepVolumes(rect, shape);
    CollapsedInBounds(rect, shape);
    var (m, mShape) := Minimized(rect, shape);
    SweepForm(m, mShape);
    if ZeroBehind(rect.dims, shape) {
      if s.pending > 1 {
        assert m.dims[1..] == s.dims && mShape[1..] == s.shape;
        assert Differing(m.dims, mShape) == Differing(s.dims, s.shape) < |s.dims|;
      } else {
        DifferingNonempty(rect.dims, shape);
        SweepOfZeros(m, mShape);
        if |s.dims| == 1 { OneZero(m, mShape); }
      }
    } else {
      SweepOfDiffering(s);
      if s.pending > 1 || s.dims == [] {
        InBoundsPlaced(rect, shape);
        LeadingOffsetZero(rect, shape);
        assert Tail(m) == HyperRectangle(s.offset, s.dims) && mShape[1..] == s.shape;
      }
    }
  }

  lemma {:induction false} DifferingNonempty(dims: seq<nat>, shape: seq<nat>)
    requires |dims| == |shape|
    ensures ZeroBehind(dims, shape) ==> Differing(dims, shape) > 0
  {
    if dims != [] {
      ConsZero(dims, shape);
      DifferingNonempty(dims[1..], shape[1..]);
    }
  }

  lemma OneZero(rect: HyperRectangle, shape: seq<nat>)
    requires InBounds(rect, shape) && |shape| == 1 && SomeFull(rect.dims, shape) && rect.dims[0] == 0
    ensures Minimized(rect, shape) == (rect, shape)
  {
    assert FullAt(rect.dims, shape, 0) && rect.offset == [0] && rect.dims == [0] && shape == [0] && shape[1..] == [];
    assert SweepFrom(rect, shape) == Sweep([], [], [], 0);
    assert [0] + [] == [0];
  }

  /** Two dimensions that are not full in front of an empty one collapse in two stages. */
  lemma CollapsesTwice()
    ensures var rect, shape := HyperRectangle([0, 0, 0], [1, 1, 0]), [2, 2, 0];
      && InBounds(rect, shape)
      && Minimized(rect, shape) == (HyperRectangle([0, 0], [1, 0]), [2, 0])
      && Minimized(HyperRectangle([0, 0], [1, 0]), [2, 0]) == (HyperRectangle([0], [0]), [0])
  {
    var o, d, s := [0, 0, 0], [1, 1, 0], [2, 2, 0];
    assert o[1..] == [0, 0] && d[1..] == [1, 0] && s[1..] == [2, 0];
    assert [0, 0][1..] == [0] && [1, 0][1..] == [0] && [2, 0][1..] == [0] && [0][1..] == [];
    assert SweepFrom(HyperRectangle([0], [0]), [0]) == Sweep([], [], [], 0);
    assert SweepFrom(HyperRectangle([0, 0], [1, 0]), [2, 0]) == Sweep([0], [0], [0], 1);
    assert [0] + [0] == [0, 0] && [1] + [0] == [1, 0] && [2] + [0] == [2, 0] && [0] + [] == [0];
  }
}
