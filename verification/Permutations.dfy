/** 0/1 matrices whose rows and columns add up to one, and what multiplying by them does. */
module Permutations {
  import opened Options

  type Matrix = seq<seq<int>>

  predicate Square(m: Matrix, n: nat) {
    |m| == n && forall i :: 0 <= i < n ==> |m[i]| == n
  }

  /** f(0) + ... + f(n - 1). */
  function SumTo(n: nat, f: nat -> int): int {
    if n == 0 then 0 else SumTo(n - 1, f) + f(n - 1)
  }

  function Entry(m: Matrix, i: nat, j: nat): int {
    if i < |m| && j < |m[i]| then m[i][j] else 0
  }

  function RowOf(m: Matrix, i: nat): nat -> int { (j: nat) => Entry(m, i, j) }

  function ColumnOf(m: Matrix, j: nat): nat -> int { (i: nat) => Entry(m, i, j) }

  /** The constraints posted on the permutation matrix. */
  ghost predicate PermutationMatrix(m: Matrix, n: nat) {
    && Square(m, n)
    && (forall i, j :: 0 <= i < n && 0 <= j < n ==> 0 <= m[i][j] <= 1)
    && (forall i :: 0 <= i < n ==> SumTo(n, RowOf(m, i)) == 1)
    && (forall j :: 0 <= j < n ==> SumTo(n, ColumnOf(m, j)) == 1)
  }

  /** A list that holds every index below n exactly once. */
  ghost predicate Permutation(p: seq<nat>, n: nat) {
    && |p| == n
    && (forall i :: 0 <= i < n ==> p[i] < n)
    && (forall i, j :: 0 <= i < j < n ==> p[i] != p[j])
  }

  /** row.index(1). */
  function IndexOfOne(row: seq<int>): (i: nat)
    ensures i <= |row| && (i < |row| ==> row[i] == 1) && forall j :: 0 <= j < i ==> row[j] != 1
  {
    if row == [] || row[0] == 1 then 0 else 1 + IndexOfOne(row[1..])
  }

  function PermList(m: Matrix): (p: seq<nat>)
    ensures |p| == |m|
  {
    seq(|m|, i requires 0 <= i < |m| => IndexOfOne(m[i]))
  }

  /** None for a row without a one. A 1x1 matrix is not looked at. */
  method PermMatrix2PermList(permMatrix: Matrix) returns (r: Option<seq<nat>>)
    ensures |permMatrix| == 1 ==> r == Some([0])
    ensures |permMatrix| != 1 ==> (r.Some? <==> forall i :: 0 <= i < |permMatrix| ==> 1 in permMatrix[i])
    ensures |permMatrix| != 1 && r.Some? ==> r.value == PermList(permMatrix)
  {
    if |permMatrix| == 0 { return Some([]); }
    if |permMatrix| == 1 { return Some([0]); }
    var list: seq<nat> := [];
    for i := 0 to |permMatrix|
      invariant forall k :: 0 <= k < i ==> 1 in permMatrix[k]
      invariant list == PermList(permMatrix)[..i]
    {
      var j := 0;
      while j < |permMatrix[i]| && permMatrix[i][j] != 1
        invariant 0 <= j <= |permMatrix[i]| && forall k :: 0 <= k < j ==> permMatrix[i][k] != 1
      {
        j := j + 1;
      }
      if j == |permMatrix[i]| {
        assert 1 !in permMatrix[i];
        return None;
      }
      assert permMatrix[i][j] == 1;
      list := list + [j];
    }
    r := Some(list);
  }

  // ----- sums -----

  lemma {:induction false} SumZero(n: nat, f: nat -> int)
    requires forall j :: 0 <= j < n ==> f(j) == 0
    ensures SumTo(n, f) == 0
  {
    if n > 0 { SumZero(n - 1, f); }
  }

  /** A sum with a single term. */
  lemma {:induction false} SumOne(n: nat, f: nat -> int, k: nat)
    requires k < n && forall j :: 0 <= j < n && j != k ==> f(j) == 0
    ensures SumTo(n, f) == f(k)
  {
    if k == n - 1 { SumZero(n - 1, f); } else { SumOne(n - 1, f, k); }
  }

  /** 0/1 terms that add up to one: exactly one of them is a one. */
  lemma {:induction false} UnitSum(n: nat, f: nat -> int) returns (k: nat)
    requires (forall j :: 0 <= j < n ==> 0 <= f(j) <= 1) && SumTo(n, f) == 1
    ensures k < n && f(k) == 1 && forall j :: 0 <= j < n && j != k ==> f(j) == 0
  {
    if f(n - 1) == 1 {
      k := n - 1;
      NoneLeft(n - 1, f);
    } else {
      k := UnitSum(n - 1, f);
    }
  }

  lemma {:induction false} NoneLeft(n: nat, f: nat -> int)
    requires (forall j :: 0 <= j < n ==> 0 <= f(j)) && SumTo(n, f) <= 0
    ensures SumTo(n, f) == 0 && forall j :: 0 <= j < n ==> f(j) == 0
  {
    if n > 0 {
      SumNonNegative(n - 1, f);
      NoneLeft(n - 1, f);
    }
  }

  lemma {:induction false} SumNonNegative(n: nat, f: nat -> int)
    requires forall j :: 0 <= j < n ==> 0 <= f(j)
    ensures 0 <= SumTo(n, f)
  {
    if n > 0 { SumNonNegative(n - 1, f); }
  }

  // ----- the permutation of a matrix -----

  /** Row i holds its one at p(i) and zeros elsewhere. */
  lemma RowOfPermutation(m: Matrix, n: nat, i: nat)
    requires PermutationMatrix(m, n) && i < n
    ensures PermList(m)[i] < n
    ensures forall j :: 0 <= j < n ==> m[i][j] == if j == PermList(m)[i] then 1 else 0
  {
    var f := RowOf(m, i);
    var k := UnitSum(n, f);
    assert m[i][k] == 1;
    assert forall j :: 0 <= j < n && j != k ==> m[i][j] == f(j) == 0;
  }

  /** The ones of the matrix spell a permutation, which the decoding recovers. */
  lemma MatrixIsPermutation(m: Matrix, n: nat)
    requires PermutationMatrix(m, n)
    ensures Permutation(PermList(m), n)
  {
    var p := PermList(m);
    forall i | 0 <= i < n ensures p[i] < n { RowOfPermutation(m, n, i); }
    forall i, j | 0 <= i < j < n ensures p[i] != p[j] {
      RowOfPermutation(m, n, i);
      RowOfPermutation(m, n, j);
      var column := ColumnOf(m, p[i]);
      var k := UnitSum(n, column);
      assert column(i) == 1;
      assert column(j) == 0 == m[j][p[i]];
    }
  }

  function ProductTerms(a: Matrix, b: Matrix, r: nat, c: nat, transposeB: bool): nat -> int {
    (j: nat) => Entry(a, r, j) * (if transposeB then Entry(b, c, j) else Entry(b, j, c))
  }

  /** Row r of A times column c of B; of B transposed when transposeB. */
  function ProductEntry(a: Matrix, b: Matrix, n: nat, r: nat, c: nat, transposeB: bool): int {
    SumTo(n, ProductTerms(a, b, r, c, transposeB))
  }

  function VectorTerms(a: Matrix, v: seq<int>, r: nat): nat -> int {
    (j: nat) => Entry(a, r, j) * (if j < |v| then v[j] else 0)
  }

  function VectorEntry(a: Matrix, v: seq<int>, n: nat, r: nat): int {
    SumTo(n, VectorTerms(a, v, r))
  }

  /** Multiplying from the left picks row p(r). */
  lemma LeftProduct(m: Matrix, a: Matrix, n: nat, r: nat, c: nat)
    requires PermutationMatrix(m, n) && Square(a, n) && r < n && c < n
    ensures PermList(m)[r] < n && ProductEntry(m, a, n, r, c, false) == a[PermList(m)[r]][c]
  {
    RowOfPermutation(m, n, r);
    SumOne(n, ProductTerms(m, a, r, c, false), PermList(m)[r]);
  }

  /** Multiplying by the transpose from the right picks column p(c). */
  lemma RightProduct(b: Matrix, m: Matrix, n: nat, r: nat, c: nat)
    requires PermutationMatrix(m, n) && Square(b, n) && r < n && c < n
    ensures PermList(m)[c] < n && ProductEntry(b, m, n, r, c, true) == b[r][PermList(m)[c]]
  {
    RowOfPermutation(m, n, c);
    SumOne(n, ProductTerms(b, m, r, c, true), PermList(m)[c]);
  }

  lemma VectorProduct(m: Matrix, v: seq<int>, n: nat, r: nat)
    requires PermutationMatrix(m, n) && |v| == n && r < n
    ensures PermList(m)[r] < n && VectorEntry(m, v, n, r) == v[PermList(m)[r]]
  {
    RowOfPermutation(m, n, r);
    SumOne(n, VectorTerms(m, v, r), PermList(m)[r]);
  }

  // ----- a fixed permutation -----

  /** The matrix with a one at (i, p(i)). */
  function MatrixOf(p: seq<nat>): (m: Matrix)
    requires forall i :: 0 <= i < |p| ==> p[i] < |p|
    ensures Square(m, |p|)
  {
    seq(|p|, i requires 0 <= i < |p| => seq(|p|, j requires 0 <= j < |p| => if j == p[i] then 1 else 0))
  }

  /** A permutation's matrix satisfies the posted constraints, and decodes to the permutation. */
  lemma PermutationHasMatrix(p: seq<nat>)
    requires Permutation(p, |p|)
    ensures PermutationMatrix(MatrixOf(p), |p|) && PermList(MatrixOf(p)) == p
  {
    var m, n := MatrixOf(p), |p|;
    forall i | 0 <= i < n ensures SumTo(n, RowOf(m, i)) == 1 {
      SumOne(n, RowOf(m, i), p[i]);
    }
    forall j | 0 <= j < n ensures SumTo(n, ColumnOf(m, j)) == 1 {
      var i := InverseAt(p, j);
      SumOne(n, ColumnOf(m, j), i);
    }
    forall i | 0 <= i < n ensures PermList(m)[i] == p[i] {
      assert m[i][p[i]] == 1;
    }
  }

  /** Every index is hit: n distinct indices below n leave none out. */
  lemma InverseAt(p: seq<nat>, j: nat) returns (i: nat)
    requires Permutation(p, |p|) && j < |p|
    ensures i < |p| && p[i] == j
  {
    if j in p {
      i :| 0 <= i < |p| && p[i] == j;
    } else {
      var values := set k | 0 <= k < |p| :: p[k];
      DistinctCount(p);
      IndicesCount(|p|, j);
      SubsetCount(values, Indices(|p|) - {j});
      assert false;
    }
  }

  function Indices(n: nat): (s: set<nat>)
    ensures forall i: nat :: i in s <==> i < n
  {
    if n == 0 then {} else Indices(n - 1) + {n - 1}
  }

  lemma {:induction false} IndicesCount(n: nat, j: nat)
    requires j <= n
    ensures |Indices(n)| == n && (j < n ==> |Indices(n) - {j}| == n - 1)
  {
    if n > 0 { IndicesCount(n - 1, 0); }
  }

  lemma {:induction false} DistinctCount(p: seq<nat>)
    requires forall i, j :: 0 <= i < j < |p| ==> p[i] != p[j]
    ensures |set k | 0 <= k < |p| :: p[k]| == |p|
  {
    if p != [] {
      var l := |p| - 1;
      DistinctCount(p[..l]);
      assert (set k | 0 <= k < |p| :: p[k]) == (set k | 0 <= k < |p[..l]| :: p[..l][k]) + {p[l]};
      assert p[l] !in (set k | 0 <= k < |p[..l]| :: p[..l][k]);
    }
  }

  lemma {:induction false} SubsetCount(a: set<nat>, b: set<nat>)
    requires a <= b
    ensures |a| <= |b|
  {
    if a != {} {
      var x :| x in a;
      SubsetCount(a - {x}, b - {x});
    }
  }
}
