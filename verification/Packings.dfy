/** When the Tetris constraints have a solution at all: exactly when some permitted order of the
    blocks, each dropped onto those before it, stays below the level's size. */
module Packings {
  import opened Permutations
  import opened TilerModels
  import opened Heights
  import opened Allocator

  /** The heights of the first k blocks, one after the other. */
  function Stack(adj: Matrix, costs: seq<int>, k: nat): (h: seq<int>)
    requires k <= |costs|
    ensures |h| == k
  {
    if k == 0 then []
    else
      var below := Stack(adj, costs, k - 1);
      below + [if k == 1 then costs[0] else MaxOf(Entries(below, adj, costs[k - 1], k - 1))]
  }

  /** The recurrence is solved by the stack. */
  lemma {:induction false} StackHeights(adj: Matrix, costs: seq<int>, k: nat, i: nat)
    requires i < k <= |costs|
    ensures Stack(adj, costs, k)[i] == if i == 0 then costs[0] else MaxOf(Entries(Stack(adj, costs, k), adj, costs[i], i))
  {
    var h, below := Stack(adj, costs, k), Stack(adj, costs, k - 1);
    if i < k - 1 {
      StackHeights(adj, costs, k - 1, i);
      if i > 0 { assert Entries(h, adj, costs[i], i) == Entries(below, adj, costs[i], i); }
    } else if i > 0 {
      assert Entries(h, adj, costs[i], i) == Entries(below, adj, costs[i], i);
    }
  }

  lemma StackIsHeights(adj: Matrix, costs: seq<int>)
    ensures IsHeights(Stack(adj, costs, |costs|), adj, costs)
  {
    forall i | 0 <= i < |costs| ensures IsHeight(Stack(adj, costs, |costs|), adj, costs, i) {
      StackHeights(adj, costs, |costs|, i);
    }
  }

  /** The height of a pattern stacked in the order p. */
  function Peak(adjacency: Matrix, costs: seq<int>, p: seq<nat>): int
    requires costs != [] && Square(adjacency, |costs|) && Permutation(p, |costs|)
  {
    MaxOf(Stack(PermutedMatrix(adjacency, p), Permuted(costs, p), |costs|))
  }

  /** The orders a strategy may choose. */
  ghost predicate Permitted(strategy: Strategy, p: seq<nat>, n: nat) {
    Permutation(p, n) && (strategy.TetrisRandom? ==> p == strategy.permutation)
  }

  /** The assignment that stacks the blocks in the order p. */
  function Stacking(base: Assignment, adjacency: Matrix, costs: seq<int>, p: seq<nat>): Assignment
    requires costs != [] && Square(adjacency, |costs|) && Permutation(p, |costs|)
  {
    var n, adj, cs := |costs|, PermutedMatrix(adjacency, p), Permuted(costs, p);
    var h := Stack(adj, cs, n);
    (v: VarName) =>
      match v
      case TilerVar(_) => base(v)
      case RowSumOf(_) => 1
      case ColSumOf(_) => 1
      case PermutationIdx(i, j) => if i < n && j < n then MatrixOf(p)[i][j] else 0
      case IntermediateAdj(i, j) => if i < n && j < n then adjacency[p[i]][j] else 0
      case FinalAdj(i, j) => if i < n && j < n then adj[i][j] else 0
      case CostProduct(i) => if i < n then cs[i] else 0
      case H(i) => if i < n then h[i] else 0
      case MaxEntry(i, j) => if j < i < n then Entries(h, adj, cs[i], i)[j] else 0
      case TotalCost => MaxOf(h)
  }

  predicate TilerTerms(costs: seq<Term>) {
    forall k :: 0 <= k < |costs| ==> TilerTerm(costs[k])
  }

  /** Two assignments agree on all of the tiler's model but this pattern's variables. */
  ghost predicate SameTiler(s: Assignment, base: Assignment) {
    forall name :: s(TilerVar(name)) == base(TilerVar(name))
  }

  lemma SameTerm(s: Assignment, base: Assignment, t: Term)
    requires TilerTerm(t) && SameTiler(s, base)
    ensures Value(s, t) == Value(base, t)
  {
    if !t.Const? { assert s(TilerVar(t.name.name)) == base(TilerVar(t.name.name)); }
  }

  lemma SameCosts(s: Assignment, base: Assignment, costs: seq<Term>)
    requires TilerTerms(costs) && SameTiler(s, base)
    ensures Values(s, costs) == Values(base, costs) && (CostsInRange(base, costs) ==> CostsInRange(s, costs))
  {
    forall k | 0 <= k < |costs| ensures Value(s, costs[k]) == Value(base, costs[k]) { SameTerm(s, base, costs[k]); }
  }

  /** Heights that solve the recurrence satisfy all that is posted for them. */
  lemma HeightsArePosted(s: Assignment, adj: seq<seq<Term>>, costs: seq<Term>, offset: int, size: int)
    requires costs != [] && SquareTerms(adj, |costs|) && ZeroOne(MatrixAt(s, adj), |costs|) && CostsInRange(s, costs)
    requires IsHeights(HeightsAt(s, |costs|), MatrixAt(s, adj), Values(s, costs))
    requires forall i :: 0 <= i < |costs| ==> EntriesAt(s, MatrixAt(s, adj), Values(s, costs), i)
    requires s(TotalCost) == MaxOf(HeightsAt(s, |costs|)) && s(TotalCost) + offset < size
    ensures StackPosted(s, adj, costs, offset, size)
  {
    var n, h := |costs|, HeightsAt(s, |costs|);
    HeightsPostedIff(s, adj, costs);
    var caps := seq(n, i requires 0 <= i < n => HeightCap(costs, i));
    forall i | 0 <= i < n ensures 0 <= h[i] <= MaxOf(caps) {
      HeightBounds(h, MatrixAt(s, adj), s, costs, i);
      assert caps[i] <= MaxOf(caps);
    }
    var f := TermsAt(s, HeightTerms(costs, n));
    forall i | 0 <= i < n ensures f(i) == h[i] {}
    MaximumIsMaxOf(s(TotalCost), n, f, h);
  }

  /** Terms that have the permuted values under the stacking are posted with its heights. */
  lemma StackingVariables(base: Assignment, adjacency: Matrix, costs: seq<int>, p: seq<nat>)
    requires costs != [] && Square(adjacency, |costs|) && Permutation(p, |costs|)
    ensures var s, adj, cs := Stacking(base, adjacency, costs, p), PermutedMatrix(adjacency, p), Permuted(costs, p);
      && HeightsAt(s, |costs|) == Stack(adj, cs, |costs|) && s(TotalCost) == Peak(adjacency, costs, p)
      && forall i :: 0 <= i < |costs| ==> EntriesAt(s, adj, cs, i)
  {
    hide PermutedMatrix, Permuted, Stack, MatrixOf, MaxOf;
    var s, adj, cs, n := Stacking(base, adjacency, costs, p), PermutedMatrix(adjacency, p), Permuted(costs, p), |costs|;
    assert HeightsAt(s, n) == Stack(adj, cs, n);
    forall i | 0 <= i < n ensures EntriesAt(s, adj, cs, i) {}
  }

  lemma StackingHeights(base: Assignment, adjacency: Matrix, costs: seq<int>, p: seq<nat>, adj: seq<seq<Term>>, terms: seq<Term>,
                        offset: int, size: int)
    requires costs != [] && ZeroOne(adjacency, |costs|) && Permutation(p, |costs|)
    requires Peak(adjacency, costs, p) + offset < size
    requires |terms| == |costs| && SquareTerms(adj, |costs|)
    requires var s := Stacking(base, adjacency, costs, p);
      && MatrixAt(s, adj) == PermutedMatrix(adjacency, p) && Values(s, terms) == Permuted(costs, p) && CostsInRange(s, terms)
    ensures StackPosted(Stacking(base, adjacency, costs, p), adj, terms, offset, size)
  {
    hide Stacking, StackPosted, IsHeights, EntriesAt, Permuted, Stack, MatrixAt, Values, CostsInRange, HeightsAt;
    var s, n := Stacking(base, adjacency, costs, p), |costs|;
    StackIsHeights(PermutedMatrix(adjacency, p), Permuted(costs, p));
    StackingVariables(base, adjacency, costs, p);
    HeightsArePosted(s, adj, terms, offset, size);
  }

  lemma MatrixVariables(base: Assignment, adjacency: Matrix, costs: seq<int>, p: seq<nat>)
    requires costs != [] && Square(adjacency, |costs|) && Permutation(p, |costs|)
    ensures MatrixAt(Stacking(base, adjacency, costs, p), PermTerms(|costs|)) == MatrixOf(p)
  {
    var n, s := |costs|, Stacking(base, adjacency, costs, p);
    var m := MatrixAt(s, PermTerms(n));
    assert |MatrixOf(p)| == n;
    forall i | 0 <= i < n ensures m[i] == MatrixOf(p)[i] {
      forall j | 0 <= j < n ensures m[i][j] == MatrixOf(p)[i][j] {
        assert m[i][j] == s(PermutationIdx(i, j));
      }
    }
  }

  lemma PermutedTerms(s: Assignment, costs: seq<Term>, p: seq<nat>)
    requires |p| == |costs| && Permutation(p, |p|) && CostsInRange(s, costs)
    ensures Values(s, Permuted(costs, p)) == Permuted(Values(s, costs), p) && CostsInRange(s, Permuted(costs, p))
  {
    forall i | 0 <= i < |p| ensures 0 <= Value(s, Permuted(costs, p)[i]) <= MaxVal(Permuted(costs, p)[i]) {
      assert Permuted(costs, p)[i] == costs[p[i]];
    }
  }

  lemma KeepsTiles(base: Assignment, adjacency: Matrix, costs: seq<Term>, p: seq<nat>)
    requires costs != [] && Square(adjacency, |costs|) && TilerTerms(costs) && Permutation(p, |costs|)
    ensures var s := Stacking(base, adjacency, Values(base, costs), p);
      SameTiler(s, base) && Values(s, costs) == Values(base, costs) && (CostsInRange(base, costs) ==> CostsInRange(s, costs))
      && forall i :: 0 <= i < |costs| ==> s(RowSumOf(i)) == 1 && s(ColSumOf(i)) == 1
  {
    var s := Stacking(base, adjacency, Values(base, costs), p);
    assert SameTiler(s, base);
    SameCosts(s, base, costs);
  }

  lemma StackingSymbolic(base: Assignment, adjacency: Matrix, costs: seq<Term>, p: seq<nat>, offset: int, size: int)
    requires costs != [] && ZeroOne(adjacency, |costs|) && TilerTerms(costs) && CostsInRange(base, costs)
    requires Permutation(p, |costs|) && Peak(adjacency, Values(base, costs), p) + offset < size
    ensures Posted(Stacking(base, adjacency, Values(base, costs), p), Symbolic(|costs|), adjacency, costs, offset, size)
  {
    hide StackPosted, PermutedPosted, PermutationMatrix, PermList, Peak, PermutedMatrix, Stacking, MatrixOf;
    var n, values := |costs|, Values(base, costs);
    var s := Stacking(base, adjacency, values, p);
    KeepsTiles(base, adjacency, costs, p);
    PermutationHasMatrix(p);
    MatrixVariables(base, adjacency, values, p);
    ConstValues(s, adjacency, n);
    ProductsHold(base, adjacency, values, p, costs);
    PermutedPostedIff(s, PermTerms(n), ConstTerms(adjacency), costs);
    GridValues(s, adjacency, p);
    RowValues(s, costs, p);
    StackingHeights(base, adjacency, values, p, Grid(true, n), CostRow(n, CostMax(costs)), offset, size);
  }

  lemma StackingFixed(base: Assignment, adjacency: Matrix, costs: seq<Term>, p: seq<nat>, m: Matrix, offset: int, size: int)
    requires costs != [] && ZeroOne(adjacency, |costs|) && TilerTerms(costs) && CostsInRange(base, costs)
    requires Permutation(p, |costs|) && Peak(adjacency, Values(base, costs), p) + offset < size
    requires PermutationMatrix(m, |costs|) && PermList(m) == p
    ensures Posted(Stacking(base, adjacency, Values(base, costs), p), Fixed(m), adjacency, costs, offset, size)
  {
    hide StackPosted, PermutationMatrix, PermList, Peak, PermutedMatrix, Stacking;
    var values := Values(base, costs);
    var s := Stacking(base, adjacency, values, p);
    KeepsTiles(base, adjacency, costs, p);
    ConstValues(s, PermutedMatrix(adjacency, p), |costs|);
    PermutedTerms(s, costs, p);
    StackingHeights(base, adjacency, values, p, ConstTerms(PermutedMatrix(adjacency, p)), Permuted(costs, p), offset, size);
  }

  /** Stacking the blocks in a permitted order satisfies all constraints of the pattern. */
  lemma StackingPosted(base: Assignment, strategy: Strategy, adjacency: Matrix, costs: seq<Term>, p: seq<nat>, offset: int, size: int)
    requires costs != [] && ZeroOne(adjacency, |costs|) && TilerTerms(costs) && CostsInRange(base, costs)
    requires Permitted(strategy, p, |costs|) && Peak(adjacency, Values(base, costs), p) + offset < size
    ensures Posted(Stacking(base, adjacency, Values(base, costs), p), StateOf(strategy, |costs|), adjacency, costs, offset, size)
  {
    hide Posted, PermutationMatrix, PermList, Peak, Stacking, MatrixOf;
    var n := |costs|;
    if strategy.TetrisCoOpt? && n > 1 {
      StackingSymbolic(base, adjacency, costs, p, offset, size);
    } else if strategy.TetrisCoOpt? {
      OneByOne(adjacency, costs);
      assert p == [0];
      StackingFixed(base, adjacency, costs, p, [[1]], offset, size);
    } else {
      PermutationHasMatrix(p);
      StackingFixed(base, adjacency, costs, p, MatrixOf(p), offset, size);
    }
  }

  lemma ProductsHold(base: Assignment, adjacency: Matrix, values: seq<int>, p: seq<nat>, costs: seq<Term>)
    requires values != [] && Square(adjacency, |values|) && Permutation(p, |values|) && TilerTerms(costs) && Values(base, costs) == values
    ensures var s, n := Stacking(base, adjacency, values, p), |values|;
      && (forall i, j :: 0 <= i < n && 0 <= j < n ==> s(IntermediateAdj(i, j)) == adjacency[p[i]][j])
      && (forall i, j :: 0 <= i < n && 0 <= j < n ==> s(FinalAdj(i, j)) == adjacency[p[i]][p[j]])
      && (forall j :: 0 <= j < n ==> s(CostProduct(j)) == Value(s, costs[p[j]]))
  {
    hide Stack, MatrixOf, Value, MaxOf, Entries;
    var s := Stacking(base, adjacency, values, p);
    SameCosts(s, base, costs);
    forall j | 0 <= j < |values| ensures s(CostProduct(j)) == Value(s, costs[p[j]]) {
      assert Value(s, costs[p[j]]) == Values(s, costs)[p[j]];
    }
  }

  /** A solution stacks the blocks in a permitted order, below the level's size. */
  lemma PostedFits(s: Assignment, strategy: Strategy, adjacency: Matrix, costs: seq<Term>, offset: int, size: int) returns (p: seq<nat>)
    requires costs != [] && ZeroOne(adjacency, |costs|) && CostsInRange(s, costs)
    requires strategy.TetrisRandom? ==> Permutation(strategy.permutation, |costs|)
    requires Posted(s, StateOf(strategy, |costs|), adjacency, costs, offset, size)
    ensures Permitted(strategy, p, |costs|) && Peak(adjacency, Values(s, costs), p) + offset < size
  {
    hide Posted, IsHeights, PermList;
    var n, state := |costs|, StateOf(strategy, |costs|);
    PostedStacks(s, state, adjacency, costs, offset, size);
    p := PermList(MatrixIn(s, state));
    if strategy.TetrisRandom? { PermutationHasMatrix(strategy.permutation); }
    var adj, cs := PermutedMatrix(adjacency, p), Permuted(Values(s, costs), p);
    StackIsHeights(adj, cs);
    var h := HeightsAt(s, n);
    HeightsUnique(h, Stack(adj, cs, n), adj, cs, n);
    assert h[..n] == h && Stack(adj, cs, n)[..n] == Stack(adj, cs, n);
    var k :| 0 <= k < n && h[k] == MaxOf(h);
    assert h[k] == s(H(k));
  }

  /** For given tile sizes the constraints of a pattern can be satisfied exactly when some permitted
      order of its blocks stacks below the level's size. */
  lemma SatisfiableIff(base: Assignment, strategy: Strategy, adjacency: Matrix, costs: seq<Term>, offset: int, size: int)
    requires costs != [] && ZeroOne(adjacency, |costs|) && TilerTerms(costs) && CostsInRange(base, costs)
    requires strategy.TetrisRandom? ==> Permutation(strategy.permutation, |costs|)
    ensures (exists s :: SameTiler(s, base) && Posted(s, StateOf(strategy, |costs|), adjacency, costs, offset, size)) <==>
      (exists p :: Permitted(strategy, p, |costs|) && Peak(adjacency, Values(base, costs), p) + offset < size)
  {
    hide Posted, Peak;
    if s :| SameTiler(s, base) && Posted(s, StateOf(strategy, |costs|), adjacency, costs, offset, size) {
      SameCosts(s, base, costs);
      var p := PostedFits(s, strategy, adjacency, costs, offset, size);
    }
    if p :| Permitted(strategy, p, |costs|) && Peak(adjacency, Values(base, costs), p) + offset < size {
      StackingPosted(base, strategy, adjacency, costs, p, offset, size);
      assert SameTiler(Stacking(base, adjacency, Values(base, costs), p), base);
    }
  }
}
