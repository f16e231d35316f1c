/** Row-major tensors of any rank: shapes, strides, flat offsets, and the order in which a
    rectangular transfer visits flat addresses. */
module Tensors {
  import opened Options


  function Product(dims: seq<nat>): nat {
    if dims == [] then 1 else dims[0] * Product(dims[1..])
  }

  /** Row-major strides: the stride of a dimension is the volume of everything behind it. */
  function Strides(shape: seq<nat>): (s: seq<nat>)
    ensures |s| == |shape|
  {
    if shape == [] then [] else [Product(shape[1..])] + Strides(shape[1..])
  }

  function Dot(a: seq<int>, b: seq<int>): int
    requires |a| == |b|
  {
    if a == [] then 0 else a[0] * b[0] + Dot(a[1..], b[1..])
  }

  ghost predicate InBox(v: seq<nat>, dims: seq<nat>) {
    |v| == |dims| && forall d :: 0 <= d < |v| ==> v[d] < dims[d]
  }

  function Add(a: seq<nat>, b: seq<nat>): (c: seq<nat>)
    requires |a| == |b|
    ensures |c| == |a|
  {
    seq(|a|, d requires 0 <= d < |a| => a[d] + b[d])
  }

  function Zeros(n: nat): seq<nat> { seq(n, _ => 0) }

  /** The bodies of an n-fold loop, one after the other. */
  function Rows<T>(n: nat, row: nat -> seq<T>): seq<T> {
    if n == 0 then [] else Rows(n - 1, row) + row(n - 1)
  }

  /** The flat addresses of a strided transfer, in the order its nested loops visit them. */
  function Walk(dims: seq<nat>, strides: seq<int>, base: int): seq<int>
    requires |dims| == |strides|
    decreases |dims|, 0
  {
    if dims == [] then [base]
    else Rows(dims[0], WalkRow(dims[1..], strides[1..], strides[0], base))
  }

  /** The body of a loop with the given stride around a smaller walk. */
  function WalkRow(dims: seq<nat>, strides: seq<int>, stride: int, base: int): nat -> seq<int>
    requires |dims| == |strides|
    decreases |dims|, 1
  {
    i => Walk(dims, strides, base + i * stride)
  }

  method StridesFromShape(shape: seq<nat>) returns (r: seq<nat>)
    ensures r == Strides(shape)
  {
    var n := |shape|;
    var strides: seq<nat> := seq(n, _ => 1);
    var idx := 0;
    // strides is built back to front and reversed on return
    while idx + 1 < n
      invariant n > 0 ==> 0 <= idx < n
      invariant |strides| == n
      invariant forall k :: 0 <= k < n && (k <= idx) ==> strides[k] == Product(shape[n - k..])
    {
      var dim := shape[n - 1 - idx];
      assert shape[n - (idx + 1)..] == [dim] + shape[n - idx..];
      strides := strides[idx + 1 := strides[idx] * dim];
      idx := idx + 1;
    }
    r := seq(n, k requires 0 <= k < n => strides[n - 1 - k]);
    forall k | 0 <= k < n ensures r[k] == Strides(shape)[k] {
      StridesAt(shape, k);
    }
  }

  lemma {:induction false} StridesAt(shape: seq<nat>, k: nat)
    requires k < |shape|
    ensures Strides(shape)[k] == Product(shape[k + 1..])
  {
    if k > 0 {
      StridesAt(shape[1..], k - 1);
      assert shape[1..][k..] == shape[k + 1..];
    }
  }

  /** sum(offset * stride ...); None for the failed length assertion. */
  method CalculateFlatOffset(offsets: seq<int>, strides: seq<int>) returns (r: Option<int>)
    ensures r.None? <==> |offsets| != |strides|
    ensures r.Some? ==> r.value == Dot(offsets, strides)
  {
    if |offsets| != |strides| { return None; }
    var sum := 0;
    for k := 0 to |offsets|
      invariant sum + Dot(offsets[k..], strides[k..]) == Dot(offsets, strides)
    {
      assert offsets[k..][1..] == offsets[k + 1..] && strides[k..][1..] == strides[k + 1..];
      sum := sum + offsets[k] * strides[k];
    }
    r := Some(sum);
  }

  // ----- Rows -----

  lemma {:induction false} RowsCong<T>(n: nat, f: nat -> seq<T>, g: nat -> seq<T>)
    requires forall i :: 0 <= i < n ==> f(i) == g(i)
    ensures Rows(n, f) == Rows(n, g)
  {
    if n > 0 { RowsCong(n - 1, f, g); }
  }

  /** The loop body f, starting m turns later. */
  function Late<T>(f: nat -> seq<T>, m: nat): nat -> seq<T> {
    (j: nat) => f(m + j)
  }

  lemma {:induction false} RowsSplit<T>(m: nat, n: nat, f: nat -> seq<T>)
    ensures Rows(m + n, f) == Rows(m, f) + Rows(n, Late(f, m))
  {
    if n > 0 { RowsSplit(m, n - 1, f); }
  }

  /** A two-deep loop whose body only depends on i * b + j is one loop of a * b turns. */
  lemma {:induction false} RowsMerge<T>(a: nat, b: nat, f: nat -> seq<T>, g: nat -> seq<T>)
    requires forall i :: 0 <= i < a ==> g(i) == Rows(b, Late(f, i * b))
    ensures Rows(a, g) == Rows(a * b, f)
  {
    if a > 0 {
      RowsMerge(a - 1, b, f, g);
      RowsSplit((a - 1) * b, b, f);
      assert (a - 1) * b + b == a * b;
    }
  }

  lemma {:induction false} RowsLength<T>(n: nat, row: nat -> seq<T>, w: nat)
    requires forall i :: 0 <= i < n ==> |row(i)| == w
    ensures |Rows(n, row)| == n * w
  {
    if n > 0 { RowsLength(n - 1, row, w); }
  }

  lemma {:induction false} RowsAt<T>(n: nat, row: nat -> seq<T>, w: nat, i: nat, j: nat)
    requires forall k :: 0 <= k < n ==> |row(k)| == w
    requires i < n && j < w
    ensures i * w + j < n * w == |Rows(n, row)|
    ensures Rows(n, row)[i * w + j] == row(i)[j]
  {
    RowsLength(n, row, w);
    RowsLength(n - 1, row, w);
    if i < n - 1 {
      RowsAt(n - 1, row, w, i, j);
    }
  }

  // ----- what Walk visits -----

  /** The walk has one address per index vector of the box. */
  lemma {:induction false} WalkLength(dims: seq<nat>, strides: seq<int>, base: int)
    requires |dims| == |strides|
    ensures |Walk(dims, strides, base)| == Product(dims)
    decreases |dims|
  {
    if dims != [] {
      var row := WalkRow(dims[1..], strides[1..], strides[0], base);
      forall i: nat ensures |row(i)| == Product(dims[1..]) {
        WalkLength(dims[1..], strides[1..], base + i * strides[0]);
      }
      RowsLength(dims[0], row, Product(dims[1..]));
    }
  }

  lemma FlatHead(v: seq<nat>, dims: seq<nat>)
    requires |v| == |dims| > 0
    ensures Dot(v, Strides(dims)) == v[0] * Product(dims[1..]) + Dot(v[1..], Strides(dims[1..]))
  {
    assert Strides(dims)[1..] == Strides(dims[1..]);
  }

  lemma RowBound(i: nat, d: nat, j: nat, w: nat)
    requires i < d && j < w
    ensures 0 <= i * w + j < d * w
  {
    assert i * w + w == (i + 1) * w <= d * w;
  }

  /** At the row-major position of v, the walk is at v's strided address: the walk is the
      lexicographic enumeration of the box. */
  lemma {:induction false} WalkAt(dims: seq<nat>, strides: seq<int>, base: int, v: seq<nat>)
    requires |dims| == |strides| && InBox(v, dims)
    ensures 0 <= Dot(v, Strides(dims)) < |Walk(dims, strides, base)| == Product(dims)
    ensures Walk(dims, strides, base)[Dot(v, Strides(dims))] == base + Dot(v, strides)
    decreases |dims|
  {
    WalkLength(dims, strides, base);
    if dims != [] {
      var w := Product(dims[1..]);
      var row := WalkRow(dims[1..], strides[1..], strides[0], base);
      forall i: nat ensures |row(i)| == w {
        WalkLength(dims[1..], strides[1..], base + i * strides[0]);
      }
      WalkAt(dims[1..], strides[1..], base + v[0] * strides[0], v[1..]);
      var j := Dot(v[1..], Strides(dims[1..]));
      FlatHead(v, dims);
      RowBound(v[0], dims[0], j, w);
      RowsAt(dims[0], row, w, v[0], j);
    }
  }

  /** The index vector at row-major position k. */
  function Unflatten(k: nat, dims: seq<nat>): (v: seq<nat>)
    requires k < Product(dims)
    decreases |dims|
  {
    if dims == [] then []
    else
      DivSmall(k, dims[0], Product(dims[1..]));
      [k / Product(dims[1..])] + Unflatten(k % Product(dims[1..]), dims[1..])
  }

  lemma {:induction false} UnflattenAt(k: nat, dims: seq<nat>)
    requires k < Product(dims)
    ensures InBox(Unflatten(k, dims), dims) && Dot(Unflatten(k, dims), Strides(dims)) == k
    decreases |dims|
  {
    if dims != [] {
      var w, v := Product(dims[1..]), Unflatten(k, dims);
      DivSmall(k, dims[0], w);
      assert v[0] == k / w && v[1..] == Unflatten(k % w, dims[1..]);
      UnflattenAt(k % w, dims[1..]);
      FlatHead(v, dims);
    }
  }

  lemma MulCancel(q: int, d: int, w: nat)
    requires q * w < d * w
    ensures q < d
  {
  }

  lemma DivSmall(k: nat, d: nat, w: nat)
    requires k < d * w
    ensures 0 < w && k % w < w && k / w < d && (k / w) * w + k % w == k
  {
    assert 0 < w;
    assert (k / w) * w + k % w == k;
    MulCancel(k / w, d, w);
  }

  lemma {:induction false} DotAdd(a: seq<nat>, b: seq<nat>, s: seq<int>)
    requires |a| == |b| == |s|
    ensures Dot(Add(a, b), s) == Dot(a, s) + Dot(b, s)
  {
    if a != [] {
      assert Add(a, b)[1..] == Add(a[1..], b[1..]);
      DotAdd(a[1..], b[1..], s[1..]);
    }
  }

  lemma {:induction false} DotZeros(s: seq<int>)
    ensures Dot(Zeros(|s|), s) == 0
  {
    if s != [] {
      assert Zeros(|s|)[1..] == Zeros(|s| - 1);
      DotZeros(s[1..]);
    }
  }

  /** A contiguous buffer is walked byte after byte. */
  lemma ContiguousWalk(dims: seq<nat>, base: int)
    ensures Walk(dims, Strides(dims), base) == seq(Product(dims), k => base + k)
  {
    WalkLength(dims, Strides(dims), base);
    forall k | 0 <= k < Product(dims) ensures Walk(dims, Strides(dims), base)[k] == base + k {
      UnflattenAt(k, dims);
      WalkAt(dims, Strides(dims), base, Unflatten(k, dims));
    }
  }

  // ----- one dimension in front -----

  lemma ConsStrides(d: nat, shape: seq<nat>)
    ensures Strides([d] + shape) == [Product(shape)] + Strides(shape)
    ensures Product([d] + shape) == d * Product(shape)
  {
    assert ([d] + shape)[1..] == shape;
  }

  lemma ConsDot(x: int, a: seq<int>, y: int, b: seq<int>)
    requires |a| == |b|
    ensures Dot([x] + a, [y] + b) == x * y + Dot(a, b)
  {
    assert ([x] + a)[1..] == a && ([y] + b)[1..] == b;
  }

  lemma ConsWalk(d: nat, dims: seq<nat>, s: int, strides: seq<int>, base: int)
    requires |dims| == |strides|
    ensures Walk([d] + dims, [s] + strides, base) == Rows(d, WalkRow(dims, strides, s, base))
  {
    assert ([d] + dims)[1..] == dims && ([s] + strides)[1..] == strides;
  }

  /** Two walks that agree from one start agree, shifted, from any other. */
  lemma SameWalksShift(dimsA: seq<nat>, stridesA: seq<int>, a: int, dimsB: seq<nat>, stridesB: seq<int>, b: int, x: int)
    requires |dimsA| == |stridesA| && |dimsB| == |stridesB|
    requires Walk(dimsA, stridesA, a) == Walk(dimsB, stridesB, b)
    ensures Walk(dimsA, stridesA, a + x) == Walk(dimsB, stridesB, b + x)
  {
    WalkShift(dimsA, stridesA, a, x);
    WalkShift(dimsB, stridesB, b, x);
    var wa, wb := Walk(dimsA, stridesA, a + x), Walk(dimsB, stridesB, b + x);
    forall k | 0 <= k < |wa| ensures wa[k] == wb[k] {
      assert wa[k] == Walk(dimsA, stridesA, a)[k] + x == Walk(dimsB, stridesB, b)[k] + x;
    }
  }

  /** Moving the start moves every address. */
  lemma WalkShift(dims: seq<nat>, strides: seq<int>, base: int, x: int)
    requires |dims| == |strides|
    ensures |Walk(dims, strides, base + x)| == |Walk(dims, strides, base)|
    ensures forall k :: 0 <= k < |Walk(dims, strides, base)| ==>
              Walk(dims, strides, base + x)[k] == Walk(dims, strides, base)[k] + x
  {
    WalkLength(dims, strides, base);
    WalkLength(dims, strides, base + x);
    forall k | 0 <= k < Product(dims)
      ensures Walk(dims, strides, base + x)[k] == Walk(dims, strides, base)[k] + x
    {
      UnflattenAt(k, dims);
      WalkAt(dims, strides, base, Unflatten(k, dims));
      WalkAt(dims, strides, base + x, Unflatten(k, dims));
    }
  }
}
