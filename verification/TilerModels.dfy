/** The constraints the Tetris allocator posts on the solver's model, and what they mean for any
    assignment that satisfies them. The solver itself is not part of this model. */
module TilerModels {
  import opened Permutations

  /** The variables the scheduler declares for a pattern, and all others of the tiler's model. */
  datatype VarName =
    | TilerVar(name: string)
    | RowSumOf(i: nat) | ColSumOf(i: nat) | PermutationIdx(i: nat, j: nat)
    | IntermediateAdj(i: nat, j: nat) | FinalAdj(i: nat, j: nat) | CostProduct(i: nat)
    | H(i: nat) | MaxEntry(i: nat, j: nat) | TotalCost

  type Assignment = VarName -> int

  const BYTE_ALIGNMENT: nat := 4

  /** Bytes rounded up to whole words. */
  function WordCost(size: int, typeWidth: nat): (c: int)
    ensures c % BYTE_ALIGNMENT == 0 && size * typeWidth <= c < size * typeWidth + BYTE_ALIGNMENT
  {
    var bytes := size * typeWidth;
    assert (bytes + 3) / 4 * 4 + (bytes + 3) % 4 == bytes + 3;
    (bytes + BYTE_ALIGNMENT - 1) / BYTE_ALIGNMENT * BYTE_ALIGNMENT
  }

  /** A number, a variable with its declared upper bound, or the words of some buffers whose size is one. */
  datatype Term = Const(value: int) | Var(name: VarName, hi: int) | Words(name: VarName, hi: int, typeWidth: nat, buffers: nat)

  datatype Expr = Leaf(t: Term) | Plus(l: Expr, r: Expr) | Times(l: Expr, r: Expr)

  datatype Constraint =
    | Within(name: VarName, lo: int, hi: int)
    | SumIs(terms: seq<Term>, sum: Term)
    | MaxIs(terms: seq<Term>, max: Term)
    | Is(t: Term, e: Expr)
    | Below(t: Term, offset: int, size: int, reserved: Term)

  function Value(a: Assignment, t: Term): int {
    match t
    case Const(v) => v
    case Var(name, _) => a(name)
    case Words(name, _, typeWidth, buffers) => WordCost(a(name), typeWidth) * buffers
  }

  /** maxVal. */
  function MaxVal(t: Term): int {
    match t
    case Const(v) => v
    case Var(_, hi) => hi
    case Words(_, hi, typeWidth, buffers) => WordCost(hi, typeWidth) * buffers
  }

  function Eval(a: Assignment, e: Expr): int {
    match e
    case Leaf(t) => Value(a, t)
    case Plus(l, r) => Eval(a, l) + Eval(a, r)
    case Times(l, r) => Eval(a, l) * Eval(a, r)
  }

  function TermsAt(a: Assignment, terms: seq<Term>): nat -> int {
    (j: nat) => if j < |terms| then Value(a, terms[j]) else 0
  }

  ghost predicate IsMaximum(m: int, n: nat, f: nat -> int) {
    (exists j :: 0 <= j < n && f(j) == m) && forall j :: 0 <= j < n ==> f(j) <= m
  }

  ghost predicate Holds(a: Assignment, c: Constraint) {
    match c
    case Within(name, lo, hi) => lo <= a(name) <= hi
    case SumIs(terms, sum) => SumTo(|terms|, TermsAt(a, terms)) == Value(a, sum)
    case MaxIs(terms, max) => IsMaximum(Value(a, max), |terms|, TermsAt(a, terms))
    case Is(t, e) => Value(a, t) == Eval(a, e)
    case Below(t, offset, size, reserved) => Value(a, t) + offset < size - Value(a, reserved)
  }

  ghost predicate AllHold(a: Assignment, constraints: seq<Constraint>) {
    forall c :: c in constraints ==> Holds(a, c)
  }

  class TilerModel {
    var constraints: seq<Constraint>

    constructor ()
      ensures constraints == []
    {
      constraints := [];
    }

    method AddConstraint(c: Constraint)
      modifies this
      ensures constraints == old(constraints) + [c]
      ensures forall a :: AllHold(a, constraints) <==> AllHold(a, old(constraints)) && Holds(a, c)
    {
      constraints := constraints + [c];
      forall a ensures AllHold(a, constraints) <==> AllHold(a, old(constraints)) && Holds(a, c) {
        assert forall d :: d in constraints <==> d in old(constraints) || d == c;
      }
    }

    method AddVariable(name: VarName, lo: int, hi: int) returns (t: Term)
      modifies this
      ensures t == Var(name, hi)
      ensures forall a :: AllHold(a, constraints) <==> AllHold(a, old(constraints)) && lo <= a(name) <= hi
    {
      AddConstraint(Within(name, lo, hi));
      t := Var(name, hi);
    }
  }

  // ----- the permutation matrix -----

  function PermRow(n: nat, i: nat): seq<Term> { seq(n, j requires 0 <= j => Var(PermutationIdx(i, j), 1)) }

  function PermTerms(n: nat): seq<seq<Term>> { seq(n, i requires 0 <= i => PermRow(n, i)) }

  function Values(a: Assignment, terms: seq<Term>): (s: seq<int>)
    ensures |s| == |terms|
  {
    seq(|terms|, j requires 0 <= j < |terms| => Value(a, terms[j]))
  }

  function MatrixAt(a: Assignment, m: seq<seq<Term>>): (r: Matrix)
    ensures |r| == |m|
  {
    seq(|m|, i requires 0 <= i < |m| => Values(a, m[i]))
  }

  ghost predicate RowPosted(a: Assignment, n: nat, i: nat) {
    && a(RowSumOf(i)) == 1
    && (forall j :: 0 <= j < n ==> 0 <= a(PermutationIdx(i, j)) <= 1)
    && SumTo(n, RowOf(MatrixAt(a, PermTerms(n)), i)) == 1
  }

  ghost predicate ColumnPosted(a: Assignment, n: nat, j: nat) {
    a(ColSumOf(j)) == 1 && SumTo(n, ColumnOf(MatrixAt(a, PermTerms(n)), j)) == 1
  }

  lemma {:induction false} SumSame(n: nat, f: nat -> int, g: nat -> int)
    requires forall j :: 0 <= j < n ==> f(j) == g(j)
    ensures SumTo(n, f) == SumTo(n, g)
  {
    if n > 0 { SumSame(n - 1, f, g); }
  }

  method PostRow(model: TilerModel, n: nat, i: nat) returns (row: seq<Term>)
    requires i < n
    modifies model
    ensures row == PermRow(n, i)
    ensures forall a :: AllHold(a, model.constraints) <==> AllHold(a, old(model.constraints)) && RowPosted(a, n, i)
  {
    var jSum := model.AddVariable(RowSumOf(i), 0, 1);
    row := [];
    for j := 0 to n
      invariant row == PermRow(n, i)[..j]
      invariant forall a :: AllHold(a, model.constraints) <==>
        AllHold(a, old(model.constraints)) && 0 <= a(RowSumOf(i)) <= 1 && forall k :: 0 <= k < j ==> 0 <= a(PermutationIdx(i, k)) <= 1
    {
      var jVar := model.AddVariable(PermutationIdx(i, j), 0, 1);
      row := row + [jVar];
    }
    model.AddConstraint(SumIs(row, jSum));
    model.AddConstraint(Is(jSum, Leaf(Const(1))));
    forall a ensures SumTo(n, TermsAt(a, row)) == SumTo(n, RowOf(MatrixAt(a, PermTerms(n)), i)) {
      SumSame(n, TermsAt(a, row), RowOf(MatrixAt(a, PermTerms(n)), i));
    }
  }

  method PostColumn(model: TilerModel, n: nat, i: nat)
    requires i < n
    modifies model
    ensures forall a :: AllHold(a, model.constraints) <==> AllHold(a, old(model.constraints)) && ColumnPosted(a, n, i)
  {
    var jSum := model.AddVariable(ColSumOf(i), 0, 1);
    var constraintVec: seq<Term> := [];
    for j := 0 to n
      invariant |constraintVec| == j && forall k :: 0 <= k < j ==> constraintVec[k] == Var(PermutationIdx(k, i), 1)
    {
      constraintVec := constraintVec + [Var(PermutationIdx(j, i), 1)];
    }
    model.AddConstraint(SumIs(constraintVec, jSum));
    model.AddConstraint(Is(jSum, Leaf(Const(1))));
    forall a ensures SumTo(n, TermsAt(a, constraintVec)) == SumTo(n, ColumnOf(MatrixAt(a, PermTerms(n)), i)) {
      SumSame(n, TermsAt(a, constraintVec), ColumnOf(MatrixAt(a, PermTerms(n)), i));
    }
  }

  /** The solutions left are those whose matrix variables form a permutation matrix. */
  method AddPermutationMatrix(model: TilerModel, numVars: nat) returns (permMat: seq<seq<Term>>)
    modifies model
    ensures permMat == PermTerms(numVars)
    ensures forall a :: AllHold(a, model.constraints) <==>
      && AllHold(a, old(model.constraints))
      && PermutationMatrix(MatrixAt(a, permMat), numVars)
      && (forall i :: 0 <= i < numVars ==> a(RowSumOf(i)) == 1 && a(ColSumOf(i)) == 1)
  {
    permMat := [];
    for i := 0 to numVars
      invariant permMat == PermTerms(numVars)[..i]
      invariant forall a :: AllHold(a, model.constraints) <==>
        AllHold(a, old(model.constraints)) && forall k :: 0 <= k < i ==> RowPosted(a, numVars, k)
    {
      var row := PostRow(model, numVars, i);
      permMat := permMat + [row];
    }
    for i := 0 to numVars
      invariant forall a :: AllHold(a, model.constraints) <==>
        && AllHold(a, old(model.constraints))
        && (forall k :: 0 <= k < numVars ==> RowPosted(a, numVars, k))
        && (forall k :: 0 <= k < i ==> ColumnPosted(a, numVars, k))
    {
      PostColumn(model, numVars, i);
    }
    forall a
      ensures (forall k :: 0 <= k < numVars ==> RowPosted(a, numVars, k)) && (forall k :: 0 <= k < numVars ==> ColumnPosted(a, numVars, k))
        <==> PermutationMatrix(MatrixAt(a, PermTerms(numVars)), numVars)
             && (forall i :: 0 <= i < numVars ==> a(RowSumOf(i)) == 1 && a(ColSumOf(i)) == 1)
    {
      MatrixPostedIff(a, numVars);
    }
  }

  lemma MatrixPostedIff(a: Assignment, n: nat)
    ensures (forall k :: 0 <= k < n ==> RowPosted(a, n, k)) && (forall k :: 0 <= k < n ==> ColumnPosted(a, n, k))
      <==> PermutationMatrix(MatrixAt(a, PermTerms(n)), n)
           && (forall i :: 0 <= i < n ==> a(RowSumOf(i)) == 1 && a(ColSumOf(i)) == 1)
  {
    var m := MatrixAt(a, PermTerms(n));
    assert Square(m, n);
    forall i, j | 0 <= i < n && 0 <= j < n ensures m[i][j] == a(PermutationIdx(i, j)) {}
    if (forall k :: 0 <= k < n ==> RowPosted(a, n, k)) && (forall k :: 0 <= k < n ==> ColumnPosted(a, n, k)) {
      forall i | 0 <= i < n
        ensures (forall j :: 0 <= j < n ==> 0 <= m[i][j] <= 1) && SumTo(n, RowOf(m, i)) == 1 && SumTo(n, ColumnOf(m, i)) == 1
        ensures a(RowSumOf(i)) == 1 && a(ColSumOf(i)) == 1
      {
        assert RowPosted(a, n, i) && ColumnPosted(a, n, i);
      }
    }
    if PermutationMatrix(m, n) && (forall i :: 0 <= i < n ==> a(RowSumOf(i)) == 1 && a(ColSumOf(i)) == 1) {
      forall i | 0 <= i < n ensures RowPosted(a, n, i) && ColumnPosted(a, n, i) {
        forall j | 0 <= j < n ensures 0 <= a(PermutationIdx(i, j)) <= 1 {
          assert m[i][j] == a(PermutationIdx(i, j));
        }
      }
    }
  }

  // ----- the permuted adjacency matrix and costs -----

  predicate SquareTerms(m: seq<seq<Term>>, n: nat) {
    |m| == n && forall i :: 0 <= i < n ==> |m[i]| == n
  }

  lemma EvalStep(s: Assignment, e: Expr, x: Term, y: Term)
    ensures Eval(s, Plus(e, Times(Leaf(x), Leaf(y)))) == Eval(s, e) + Value(s, x) * Value(s, y)
  {
    assert Eval(s, Times(Leaf(x), Leaf(y))) == Value(s, x) * Value(s, y);
  }

  method BoolMatMulSingle(a: seq<seq<Term>>, b: seq<seq<Term>>, n: nat, row: nat, col: nat, transposeB: bool) returns (constr: Expr)
    requires SquareTerms(a, n) && SquareTerms(b, n) && row < n && col < n
    ensures forall s :: Eval(s, constr) == ProductEntry(MatrixAt(s, a), MatrixAt(s, b), n, row, col, transposeB)
  {
    constr := Leaf(Const(0));
    for j := 0 to n
      invariant forall s :: Eval(s, constr) == SumTo(j, ProductTerms(MatrixAt(s, a), MatrixAt(s, b), row, col, transposeB))
    {
      ghost var before := constr;
      var other := if transposeB then b[col][j] else b[j][col];
      constr := Plus(constr, Times(Leaf(a[row][j]), Leaf(other)));
      forall s ensures Eval(s, constr) == SumTo(j + 1, ProductTerms(MatrixAt(s, a), MatrixAt(s, b), row, col, transposeB)) {
        assert Eval(s, before) == SumTo(j, ProductTerms(MatrixAt(s, a), MatrixAt(s, b), row, col, transposeB));
        EvalStep(s, before, a[row][j], other);
        assert Entry(MatrixAt(s, a), row, j) == Value(s, a[row][j]);
      }
    }
  }

  method BoolMatVecMulSingle(a: seq<seq<Term>>, v: seq<Term>, row: nat) returns (constr: Expr)
    requires SquareTerms(a, |v|) && row < |v|
    ensures forall s :: Eval(s, constr) == VectorEntry(MatrixAt(s, a), Values(s, v), |v|, row)
  {
    constr := Leaf(Const(0));
    for j := 0 to |v|
      invariant forall s :: Eval(s, constr) == SumTo(j, VectorTerms(MatrixAt(s, a), Values(s, v), row))
    {
      ghost var before := constr;
      constr := Plus(constr, Times(Leaf(a[row][j]), Leaf(v[j])));
      forall s ensures Eval(s, constr) == SumTo(j + 1, VectorTerms(MatrixAt(s, a), Values(s, v), row)) {
        assert Eval(s, before) == SumTo(j, VectorTerms(MatrixAt(s, a), Values(s, v), row));
        EvalStep(s, before, a[row][j], v[j]);
        assert Entry(MatrixAt(s, a), row, j) == Value(s, a[row][j]);
      }
    }
  }

  /** The variables of a matrix of products. */
  function Grid(final: bool, n: nat): seq<seq<Term>> {
    seq(n, i requires 0 <= i => seq(n, j requires 0 <= j => Var(if final then FinalAdj(i, j) else IntermediateAdj(i, j), 1)))
  }

  /** Entry (i, j) of a product is within 0..1 and equals the product's. */
  ghost predicate ProductPosted(s: Assignment, final: bool, a: seq<seq<Term>>, b: seq<seq<Term>>, n: nat, i: nat, j: nat) {
    var x := s(if final then FinalAdj(i, j) else IntermediateAdj(i, j));
    0 <= x <= 1 && x == ProductEntry(MatrixAt(s, a), MatrixAt(s, b), n, i, j, final)
  }

  method PostProduct(model: TilerModel, final: bool, a: seq<seq<Term>>, b: seq<seq<Term>>, n: nat) returns (product: seq<seq<Term>>)
    requires SquareTerms(a, n) && SquareTerms(b, n)
    modifies model
    ensures product == Grid(final, n) && SquareTerms(product, n)
    ensures forall s :: AllHold(s, model.constraints) <==>
      AllHold(s, old(model.constraints)) && forall i, j :: 0 <= i < n && 0 <= j < n ==> ProductPosted(s, final, a, b, n, i, j)
  {
    product := [];
    for i := 0 to n
      invariant product == Grid(final, n)[..i]
      invariant forall s :: AllHold(s, model.constraints) <==>
        AllHold(s, old(model.constraints)) && forall k, j :: 0 <= k < i && 0 <= j < n ==> ProductPosted(s, final, a, b, n, k, j)
    {
      var row := PostProductRow(model, final, a, b, n, i);
      product := product + [row];
    }
  }

  method PostProductRow(model: TilerModel, final: bool, a: seq<seq<Term>>, b: seq<seq<Term>>, n: nat, i: nat) returns (row: seq<Term>)
    requires SquareTerms(a, n) && SquareTerms(b, n) && i < n
    modifies model
    ensures row == Grid(final, n)[i]
    ensures forall s :: AllHold(s, model.constraints) <==>
      AllHold(s, old(model.constraints)) && forall j :: 0 <= j < n ==> ProductPosted(s, final, a, b, n, i, j)
  {
    row := [];
    for j := 0 to n
      invariant row == Grid(final, n)[i][..j]
      invariant forall s :: AllHold(s, model.constraints) <==>
        AllHold(s, old(model.constraints)) && forall k :: 0 <= k < j ==> ProductPosted(s, final, a, b, n, i, k)
    {
      var jVar := model.AddVariable(if final then FinalAdj(i, j) else IntermediateAdj(i, j), 0, 1);
      var constr := BoolMatMulSingle(a, b, n, i, j, final);
      model.AddConstraint(Is(jVar, constr));
      forall s ensures ProductPosted(s, final, a, b, n, i, j) <==> 0 <= Value(s, jVar) <= 1 && Holds(s, Is(jVar, constr)) {
        assert Eval(s, constr) == ProductEntry(MatrixAt(s, a), MatrixAt(s, b), n, i, j, final);
      }
      row := row + [jVar];
    }
  }

  function CostMax(costs: seq<Term>): (m: int)
    ensures m >= 0 && forall k :: 0 <= k < |costs| ==> MaxVal(costs[k]) <= m
  {
    if costs == [] then 0
    else var rest, last := CostMax(costs[..|costs| - 1]), MaxVal(costs[|costs| - 1]); if last > rest then last else rest
  }

  function CostRow(n: nat, max: int): seq<Term> { seq(n, j requires 0 <= j => Var(CostProduct(j), max)) }

  ghost predicate CostPosted(s: Assignment, p: seq<seq<Term>>, costs: seq<Term>, j: nat) {
    0 <= s(CostProduct(j)) <= CostMax(costs) && s(CostProduct(j)) == VectorEntry(MatrixAt(s, p), Values(s, costs), |costs|, j)
  }

  /** The solutions left are those whose product variables hold the two products. */
  method PermuteMatrices(model: TilerModel, permutationMatrix: seq<seq<Term>>, adjacencyMatrix: seq<seq<Term>>, costVector: seq<Term>)
    returns (permAdj: seq<seq<Term>>, permCost: seq<Term>)
    requires SquareTerms(permutationMatrix, |costVector|) && SquareTerms(adjacencyMatrix, |costVector|)
    modifies model
    ensures permAdj == Grid(true, |costVector|) && permCost == CostRow(|costVector|, CostMax(costVector))
    ensures forall s :: AllHold(s, model.constraints) <==>
      AllHold(s, old(model.constraints)) && PermutedPosted(s, permutationMatrix, adjacencyMatrix, costVector)
  {
    var numVars := |costVector|;
    var intermediate := PostProduct(model, false, permutationMatrix, adjacencyMatrix, numVars);
    permAdj := PostProduct(model, true, intermediate, permutationMatrix, numVars);
    var costMax := 0;
    for k := 0 to |costVector|
      invariant costMax == CostMax(costVector[..k])
    {
      assert costVector[..k + 1][..k] == costVector[..k];
      var newCost := MaxVal(costVector[k]);
      costMax := if costMax > newCost then costMax else newCost;
    }
    assert costVector[..numVars] == costVector;
    permCost := PostCosts(model, permutationMatrix, costVector, costMax);
  }

  ghost predicate CostsPosted(s: Assignment, p: seq<seq<Term>>, costs: seq<Term>, k: nat) {
    forall j :: 0 <= j < k ==> CostPosted(s, p, costs, j)
  }

  method PostCosts(model: TilerModel, permutationMatrix: seq<seq<Term>>, costVector: seq<Term>, costMax: int) returns (permCost: seq<Term>)
    requires SquareTerms(permutationMatrix, |costVector|) && costMax == CostMax(costVector)
    modifies model
    ensures permCost == CostRow(|costVector|, costMax)
    ensures forall s :: AllHold(s, model.constraints) <==>
      AllHold(s, old(model.constraints)) && CostsPosted(s, permutationMatrix, costVector, |costVector|)
  {
    permCost := [];
    for j := 0 to |costVector|
      invariant permCost == CostRow(|costVector|, costMax)[..j]
      invariant forall s :: AllHold(s, model.constraints) <==>
        AllHold(s, old(model.constraints)) && CostsPosted(s, permutationMatrix, costVector, j)
    {
      var jVar := model.AddVariable(CostProduct(j), 0, costMax);
      var constr := BoolMatVecMulSingle(permutationMatrix, costVector, j);
      model.AddConstraint(Is(jVar, constr));
      forall s ensures CostsPosted(s, permutationMatrix, costVector, j + 1) <==>
        CostsPosted(s, permutationMatrix, costVector, j) && 0 <= Value(s, jVar) <= costMax && Holds(s, Is(jVar, constr))
      {
        assert Eval(s, constr) == VectorEntry(MatrixAt(s, permutationMatrix), Values(s, costVector), |costVector|, j);
        assert CostPosted(s, permutationMatrix, costVector, j) <==> 0 <= Value(s, jVar) <= costMax && Holds(s, Is(jVar, constr));
      }
      permCost := permCost + [jVar];
    }
  }

  ghost predicate PermutedPosted(s: Assignment, p: seq<seq<Term>>, adj: seq<seq<Term>>, costs: seq<Term>) {
    var n := |costs|;
    && (forall i, j :: 0 <= i < n && 0 <= j < n ==> ProductPosted(s, false, p, adj, n, i, j))
    && (forall i, j :: 0 <= i < n && 0 <= j < n ==> ProductPosted(s, true, Grid(false, n), p, n, i, j))
    && (forall j :: 0 <= j < n ==> CostPosted(s, p, costs, j))
  }

  /** Costs are never negative and never above their declared maximum. */
  ghost predicate CostsInRange(s: Assignment, costs: seq<Term>) {
    forall k :: 0 <= k < |costs| ==> 0 <= Value(s, costs[k]) <= MaxVal(costs[k])
  }

  ghost predicate ZeroOne(m: Matrix, n: nat) {
    Square(m, n) && forall i, j :: 0 <= i < n && 0 <= j < n ==> 0 <= m[i][j] <= 1
  }

  /** With a permutation matrix, the product constraints hold exactly when the variables are the
      permuted adjacency matrix and the permuted costs: the declared ranges exclude nothing. */
  lemma PermutedPostedIff(s: Assignment, p: seq<seq<Term>>, adj: seq<seq<Term>>, costs: seq<Term>)
    requires SquareTerms(p, |costs|) && SquareTerms(adj, |costs|)
    requires PermutationMatrix(MatrixAt(s, p), |costs|) && ZeroOne(MatrixAt(s, adj), |costs|) && CostsInRange(s, costs)
    ensures var n, pl, am := |costs|, PermList(MatrixAt(s, p)), MatrixAt(s, adj);
      && Permutation(pl, n)
      && (PermutedPosted(s, p, adj, costs) <==>
          && (forall i, j :: 0 <= i < n && 0 <= j < n ==> s(IntermediateAdj(i, j)) == am[pl[i]][j])
          && (forall i, j :: 0 <= i < n && 0 <= j < n ==> s(FinalAdj(i, j)) == am[pl[i]][pl[j]])
          && (forall j :: 0 <= j < n ==> s(CostProduct(j)) == Value(s, costs[pl[j]])))
  {
    var n, pm, am := |costs|, MatrixAt(s, p), MatrixAt(s, adj);
    var pl := PermList(pm);
    MatrixIsPermutation(pm, n);
    forall i, j | 0 <= i < n && 0 <= j < n
      ensures ProductPosted(s, false, p, adj, n, i, j) <==> s(IntermediateAdj(i, j)) == am[pl[i]][j]
    {
      LeftProduct(pm, am, n, i, j);
    }
    var inter := MatrixAt(s, Grid(false, n));
    assert Square(inter, n) && forall i, j :: 0 <= i < n && 0 <= j < n ==> inter[i][j] == s(IntermediateAdj(i, j));
    forall i, j | 0 <= i < n && 0 <= j < n
      ensures (forall k :: 0 <= k < n ==> s(IntermediateAdj(i, k)) == am[pl[i]][k]) ==>
        (ProductPosted(s, true, Grid(false, n), p, n, i, j) <==> s(FinalAdj(i, j)) == am[pl[i]][pl[j]])
    {
      RightProduct(inter, pm, n, i, j);
      assert s(IntermediateAdj(i, pl[j])) == inter[i][pl[j]];
    }
    forall j | 0 <= j < n ensures CostPosted(s, p, costs, j) <==> s(CostProduct(j)) == Value(s, costs[pl[j]]) {
      VectorProduct(pm, Values(s, costs), n, j);
    }
  }
}
