/** The Tetris allocator: interference, symbolic costs, and the posted schedule of one pattern and
    memory level. */
module Allocator {
  import opened Options
  import opened Lifetimes
  import opened Permutations
  import opened TilerModels
  import opened Heights

  // ----- interference -----

  predicate Overlap(a: Interval, b: Interval) {
    (a.0 >= b.0 && a.0 <= b.1) || (b.0 >= a.0 && b.0 <= a.1)
  }

  predicate AliveAt(s: nat, a: Interval) { a.0 <= s <= a.1 }

  /** Two intervals overlap exactly when some step lies in both. */
  lemma OverlapIff(a: Interval, b: Interval)
    requires a.0 <= a.1 && b.0 <= b.1
    ensures Overlap(a, b) <==> exists s :: AliveAt(s, a) && AliveAt(s, b)
  {
    if Overlap(a, b) {
      assert AliveAt(if a.0 >= b.0 then a.0 else b.0, a);
    }
  }

  ghost predicate Distinct<T>(s: seq<T>) {
    forall i, j :: 0 <= i < j < |s| ==> s[i] != s[j]
  }

  /** The tensors of a list that interfere with a tensor, in order. */
  function NeighborsIn(order: seq<string>, life: map<string, Interval>, name: string): seq<string>
    requires name in life && forall t :: t in order ==> t in life
  {
    if order == [] then []
    else
      var before, last := NeighborsIn(order[..|order| - 1], life, name), order[|order| - 1];
      if last != name && Overlap(life[name], life[last]) then before + [last] else before
  }

  lemma {:induction false} NeighborsIff(order: seq<string>, life: map<string, Interval>, name: string, t: string)
    requires name in life && forall u :: u in order ==> u in life
    ensures t in NeighborsIn(order, life, name) <==> t in order && t != name && Overlap(life[name], life[t])
  {
    if order != [] { NeighborsIff(order[..|order| - 1], life, name, t); }
  }

  method BuildInterferenceGraph(order: seq<string>, lifetimes: map<string, Interval>) returns (graph: map<string, seq<string>>)
    requires forall t :: t in order ==> t in lifetimes
    ensures forall t :: t in graph <==> t in order
    ensures forall t :: t in graph ==> graph[t] == NeighborsIn(order, lifetimes, t)
  {
    graph := map[];
    for i := 0 to |order|
      invariant forall t :: t in graph <==> t in order[..i]
      invariant forall t :: t in graph ==> graph[t] == NeighborsIn(order, lifetimes, t)
    {
      var name, neighbors := order[i], [];
      for j := 0 to |order|
        invariant neighbors == NeighborsIn(order[..j], lifetimes, name)
      {
        assert order[..j + 1][..j] == order[..j];
        if order[j] == name { continue; }
        if Overlap(lifetimes[name], lifetimes[order[j]]) { neighbors := neighbors + [order[j]]; }
      }
      assert order[..|order|] == order && order[..i + 1] == order[..i] + [name];
      graph := graph[name := neighbors];
    }
    assert order[..|order|] == order;
  }

  /** 1 for distinct tensors whose lifetimes overlap. */
  function Interference(order: seq<string>, life: map<string, Interval>, i: nat, j: nat): int
    requires i < |order| && j < |order| && forall t :: t in order ==> t in life
  {
    if i != j && Overlap(life[order[i]], life[order[j]]) then 1 else 0
  }

  function AdjacencyOf(order: seq<string>, life: map<string, Interval>): (m: Matrix)
    requires forall t :: t in order ==> t in life
    ensures Square(m, |order|)
  {
    seq(|order|, i requires 0 <= i < |order| => seq(|order|, j requires 0 <= j < |order| => Interference(order, life, i, j)))
  }

  method IndexIn(order: seq<string>, name: string) returns (i: nat)
    requires name in order && Distinct(order)
    ensures i < |order| && order[i] == name
  {
    i := 0;
    assert order[..|order|] == order;
    while i < |order| && order[i] != name
      invariant i <= |order| && name !in order[..i]
    {
      assert order[..i + 1] == order[..i] + [order[i]];
      i := i + 1;
    }
  }

  /** The 0/1 matrix of the interference graph, in the tensors' order. */
  method BuildAdjacencyMatrix(order: seq<string>, ghost lifetimes: map<string, Interval>, graph: map<string, seq<string>>)
    returns (matrix: Matrix)
    requires Distinct(order) && forall t :: t in order ==> t in lifetimes
    requires (forall t :: t in graph <==> t in order) && forall t :: t in graph ==> graph[t] == NeighborsIn(order, lifetimes, t)
    ensures matrix == AdjacencyOf(order, lifetimes)
  {
    var n := |order|;
    var zero: seq<int> := seq(n, _ => 0);
    matrix := seq(n, _ => zero);
    for r := 0 to n
      invariant Square(matrix, n)
      invariant forall i :: 0 <= i < r ==> matrix[i] == AdjacencyOf(order, lifetimes)[i]
      invariant forall i :: r <= i < n ==> matrix[i] == zero
    {
      var node := order[r];
      forall k | 0 <= k < |graph[node]| ensures graph[node][k] in order {
        NeighborsIff(order, lifetimes, node, graph[node][k]);
      }
      var row := FillRow(order, graph[node], zero);
      forall j | 0 <= j < n ensures row[j] == Interference(order, lifetimes, r, j) {
        NeighborsIff(order, lifetimes, node, order[j]);
      }
      matrix := matrix[r := row];
    }
  }

  method FillRow(order: seq<string>, neighbors: seq<string>, zero: seq<int>) returns (row: seq<int>)
    requires Distinct(order) && |zero| == |order| && forall k :: 0 <= k < |neighbors| ==> neighbors[k] in order
    requires forall j :: 0 <= j < |zero| ==> zero[j] == 0
    ensures |row| == |order| && forall j :: 0 <= j < |order| ==> row[j] == if order[j] in neighbors then 1 else 0
  {
    row := zero;
    for k := 0 to |neighbors|
      invariant |row| == |order| && forall j :: 0 <= j < |order| ==> row[j] == if order[j] in neighbors[..k] then 1 else 0
    {
      var idx := IndexIn(order, neighbors[k]);
      assert neighbors[..k + 1] == neighbors[..k] + [neighbors[k]];
      row := row[idx := 1];
    }
    assert neighbors[..|neighbors|] == neighbors;
  }

  // ----- costs -----

  /** A tensor's constraint in the level at hand: its size is a number, or a variable of the tiler. */
  datatype TensorSize = TensorSize(size: Term, typeWidthBits: nat, multiBuffer: nat)

  /** Sizes the tiler may ask for: none negative, the variables its own. */
  predicate Sizeable(t: TensorSize) {
    match t.size
    case Const(n) => n >= 0
    case Var(name, _) => name.TilerVar?
    case Words(_, _, _, _) => false
  }

  function TypeWidth(b: Buffer, t: TensorSize): (w: nat)
    ensures w >= 1
  {
    if b.transient then 1 else if t.typeWidthBits / 8 > 1 then t.typeWidthBits / 8 else 1
  }

  /** What a tensor costs under an assignment; an in-place output whose input interferes with it, nothing. */
  function CostOf(s: Assignment, b: Buffer, neighbors: seq<string>, t: TensorSize): int {
    if b.alias.Some? && b.alias.value in neighbors then 0
    else WordCost(Value(s, t.size), TypeWidth(b, t)) * t.multiBuffer
  }

  /** So many bytes hold n elements of a tensor in each of its buffers: all their bits, or one byte for
      an element of less than eight bits or of a transient buffer. */
  ghost predicate HoldsBits(bytes: int, n: int, b: Buffer, t: TensorSize) {
    && (b.transient || t.typeWidthBits < 8 ==> n * t.multiBuffer <= bytes)
    && (!b.transient && t.typeWidthBits % 8 == 0 && t.typeWidthBits > 0 ==> n * t.typeWidthBits * t.multiBuffer <= 8 * bytes)
  }

  /** They do, with less than a word to spare in each buffer. */
  ghost predicate JustHoldsBits(bytes: int, n: int, b: Buffer, t: TensorSize) {
    && HoldsBits(bytes, n, b, t)
    && (b.transient || t.typeWidthBits < 8 ==> bytes <= (n + 3) * t.multiBuffer)
    && (!b.transient && t.typeWidthBits % 8 == 0 && t.typeWidthBits > 0 ==> 8 * bytes <= (n * t.typeWidthBits + 24) * t.multiBuffer)
  }

  /** A tensor that is not in place of a neighbour costs just its bits. */
  lemma CostHoldsBits(s: Assignment, b: Buffer, neighbors: seq<string>, t: TensorSize)
    requires b.alias.None? || b.alias.value !in neighbors
    ensures JustHoldsBits(CostOf(s, b, neighbors, t), Value(s, t.size), b, t)
  {
    hide Value;
    var n, width, m := Value(s, t.size), t.typeWidthBits, t.multiBuffer;
    var word := WordCost(n, TypeWidth(b, t));
    if b.transient || width < 8 {
      assert n <= word <= n + 3;
      TimesCount(n, word, n + 3, m);
    } else if width % 8 == 0 {
      EightTimes(n, width);
      TimesCount(n * width, 8 * word, n * width + 24, m);
      assert 8 * word * m == 8 * (word * m);
    }
  }

  lemma EightTimes(n: int, width: nat)
    requires width % 8 == 0
    ensures 8 * (n * (width / 8)) == n * width
  {
    assert width == 8 * (width / 8);
  }

  lemma TimesCount(low: int, x: int, high: int, m: nat)
    requires low <= x <= high
    ensures low * m <= x * m <= high * m
  {
  }

  /** Each cost has the tensor's cost as its value, in whole words; an empty graph has the single cost 0. */
  method BuildCostVector(ctxt: Context, order: seq<string>, graph: map<string, seq<string>>, sizes: map<string, TensorSize>)
    returns (costs: seq<Term>)
    requires forall t :: t in order ==> t in ctxt && t in graph && t in sizes && Sizeable(sizes[t])
    ensures order == [] ==> costs == [Const(0)]
    ensures order != [] ==> |costs| == |order|
    ensures forall s, i :: 0 <= i < |order| ==> Value(s, costs[i]) == CostOf(s, ctxt[order[i]], graph[order[i]], sizes[order[i]])
    ensures forall s, i :: 0 <= i < |costs| ==> Value(s, costs[i]) % BYTE_ALIGNMENT == 0
    ensures forall s, i :: 0 <= i < |order| ==>
      if ctxt[order[i]].alias.Some? && ctxt[order[i]].alias.value in graph[order[i]] then Value(s, costs[i]) == 0
      else JustHoldsBits(Value(s, costs[i]), Value(s, sizes[order[i]].size), ctxt[order[i]], sizes[order[i]])
    ensures forall i :: 0 <= i < |costs| ==> TilerTerm(costs[i])
    ensures forall s, i :: 0 <= i < |order| && SizeInRange(s, sizes[order[i]]) ==> 0 <= Value(s, costs[i]) <= MaxVal(costs[i])
  {
    hide WordCost, JustHoldsBits;
    if |order| == 0 { return [Const(0)]; }
    costs := [];
    for i := 0 to |order|
      invariant |costs| == i
      invariant forall s, k :: 0 <= k < i ==> Value(s, costs[k]) == CostOf(s, ctxt[order[k]], graph[order[k]], sizes[order[k]])
      invariant forall s, k :: 0 <= k < i ==> Value(s, costs[k]) % BYTE_ALIGNMENT == 0
      invariant forall k :: 0 <= k < i ==> TilerTerm(costs[k])
      invariant forall s, k :: 0 <= k < i && SizeInRange(s, sizes[order[k]]) ==> 0 <= Value(s, costs[k]) <= MaxVal(costs[k])
    {
      var node := order[i];
      var buffer, t := ctxt[node], sizes[node];
      var typeWidth := TypeWidth(buffer, t);
      var cost: Term;
      match t.size {
        case Const(n) => cost := Const(WordCost(n, typeWidth) * t.multiBuffer);
        case Var(name, hi) => cost := Words(name, hi, typeWidth, t.multiBuffer);
      }
      if buffer.alias.Some? && buffer.alias.value in graph[node] { cost := Const(0); }
      forall s
        ensures Value(s, cost) == CostOf(s, buffer, graph[node], t) && Value(s, cost) % BYTE_ALIGNMENT == 0
        ensures SizeInRange(s, t) ==> 0 <= Value(s, cost) <= MaxVal(cost)
      {
        CostRange(Value(s, t.size), MaxVal(t.size), typeWidth, t.multiBuffer);
      }
      costs := costs + [cost];
    }
    forall s, i | 0 <= i < |order| && !(ctxt[order[i]].alias.Some? && ctxt[order[i]].alias.value in graph[order[i]])
      ensures JustHoldsBits(Value(s, costs[i]), Value(s, sizes[order[i]].size), ctxt[order[i]], sizes[order[i]])
    {
      CostHoldsBits(s, ctxt[order[i]], graph[order[i]], sizes[order[i]]);
    }
  }

  /** A term over the tiler's own variables. */
  predicate TilerTerm(t: Term) { t.Const? || t.name.TilerVar? }

  ghost predicate SizeInRange(s: Assignment, t: TensorSize) {
    0 <= Value(s, t.size) <= MaxVal(t.size)
  }

  lemma CostRange(size: int, max: int, typeWidth: nat, buffers: nat)
    requires typeWidth >= 1
    ensures (WordCost(size, typeWidth) * buffers) % BYTE_ALIGNMENT == 0
    ensures 0 <= size <= max ==> 0 <= WordCost(size, typeWidth) * buffers <= WordCost(max, typeWidth) * buffers
  {
    var a, b := WordCost(size, typeWidth), WordCost(max, typeWidth);
    MultipleOfFour(a, buffers);
    if 0 <= size <= max {
      WordCostMonotone(size, max, typeWidth);
      assert a * buffers <= b * buffers;
    }
  }

  lemma WordCostMonotone(size: int, max: int, typeWidth: nat)
    requires 0 <= size <= max
    ensures 0 <= WordCost(size, typeWidth) <= WordCost(max, typeWidth)
  {
    assert size * typeWidth <= max * typeWidth;
  }

  lemma MultipleOfFour(x: int, m: nat)
    requires x % 4 == 0
    ensures (x * m) % 4 == 0
  {
    var q := x / 4;
    assert x == 4 * q;
    assert x * m == 4 * (q * m);
  }

  // ----- permuting -----

  function PermutedMatrix(m: Matrix, p: seq<nat>): (r: Matrix)
    requires Square(m, |p|) && forall i :: 0 <= i < |p| ==> p[i] < |p|
    ensures Square(r, |p|)
  {
    seq(|p|, i requires 0 <= i < |p| => seq(|p|, j requires 0 <= j < |p| => m[p[i]][p[j]]))
  }

  function Permuted<T>(s: seq<T>, p: seq<nat>): (r: seq<T>)
    requires |s| == |p| && forall i :: 0 <= i < |p| ==> p[i] < |p|
    ensures |r| == |p|
  {
    seq(|p|, i requires 0 <= i < |p| => s[p[i]])
  }

  /** The heuristic's fixed permutation, as matrix products with the permutation's matrix. */
  method StablePermutation(adjacency: Matrix, costs: seq<Term>, permutationList: seq<nat>)
    returns (newAdjacency: Matrix, newCosts: seq<Term>, matrix: Matrix)
    requires |costs| > 0 && Square(adjacency, |costs|) && Permutation(permutationList, |costs|)
    ensures newAdjacency == PermutedMatrix(adjacency, permutationList)
    ensures newCosts == Permuted(costs, permutationList)
    ensures PermutationMatrix(matrix, |costs|) && PermList(matrix) == permutationList && matrix == MatrixOf(permutationList)
  {
    hide PermutationMatrix, PermList;
    var n := |costs|;
    PermutationHasMatrix(permutationList);
    if n == 1 {
      OneByOne(adjacency, costs);
      assert permutationList == [0];
      assert MatrixOf([0])[0] == [1] && MatrixOf([0]) == [[1]];
      return adjacency, costs, [[1]];
    }
    newCosts := [];
    for k := 0 to n
      invariant |newCosts| == k && forall i :: 0 <= i < k ==> newCosts[i] == costs[permutationList[i]]
    {
      newCosts := newCosts + [costs[permutationList[k]]];
    }
    matrix := MatrixOf(permutationList);
    var half := seq(n, i requires 0 <= i => seq(n, j requires 0 <= j => ProductEntry(matrix, adjacency, n, i, j, false)));
    newAdjacency := seq(n, i requires 0 <= i => seq(n, j requires 0 <= j => ProductEntry(half, matrix, n, i, j, true)));
    forall i, j | 0 <= i < n && 0 <= j < n ensures half[i][j] == adjacency[permutationList[i]][j] {
      LeftProduct(matrix, adjacency, n, i, j);
    }
    forall i, j | 0 <= i < n && 0 <= j < n ensures newAdjacency[i][j] == adjacency[permutationList[i]][permutationList[j]] {
      RightProduct(half, matrix, n, i, j);
    }
    forall i | 0 <= i < n ensures newAdjacency[i] == PermutedMatrix(adjacency, permutationList)[i] {}
  }

  // ----- posting the schedule of a pattern -----

  datatype Strategy = TetrisCoOpt | TetrisRandom(permutation: seq<nat>)

  /** What is kept to read the permutation back: a fixed matrix, or the solver's variables. */
  datatype PermutationState = Fixed(matrix: Matrix) | Symbolic(n: nat)

  function MatrixIn(s: Assignment, state: PermutationState): Matrix {
    match state case Fixed(m) => m case Symbolic(n) => MatrixAt(s, PermTerms(n))
  }

  function ConstTerms(m: Matrix): (r: seq<seq<Term>>)
    ensures |r| == |m| && forall i :: 0 <= i < |m| ==> |r[i]| == |m[i]|
  {
    seq(|m|, i requires 0 <= i < |m| => seq(|m[i]|, j requires 0 <= j < |m[i]| => Const(m[i][j])))
  }

  /** A solution stacks the blocks: for the permutation it chose, H solves the recurrence of the
      permuted interference and costs, and stays below the level's size. */
  ghost predicate Stacked(s: Assignment, state: PermutationState, adjacency: Matrix, costs: seq<Term>, offset: int, size: int)
    requires Square(adjacency, |costs|)
  {
    var n, p := |costs|, PermList(MatrixIn(s, state));
    && PermutationMatrix(MatrixIn(s, state), n) && Permutation(p, n)
    && IsHeights(HeightsAt(s, n), PermutedMatrix(adjacency, p), Permuted(Values(s, costs), p))
    && forall i :: 0 <= i < n ==> s(H(i)) + offset < size
  }

  /** The heights of these blocks are posted, and stay below the level's size. */
  ghost predicate StackPosted(s: Assignment, adj: seq<seq<Term>>, costs: seq<Term>, offset: int, size: int)
    requires costs != [] && SquareTerms(adj, |costs|)
  {
    (forall i :: 0 <= i < |costs| ==> HeightPosted(s, adj, costs, i)) && TotalPosted(s, costs) && s(TotalCost) + offset < size
  }

  /** What a strategy keeps of the permutation of n blocks. */
  function StateOf(strategy: Strategy, n: nat): PermutationState
    requires n > 0 && (strategy.TetrisRandom? ==> Permutation(strategy.permutation, n))
  {
    match strategy
    case TetrisCoOpt => if n > 1 then Symbolic(n) else Fixed([[1]])
    case TetrisRandom(list) => Fixed(MatrixOf(list))
  }

  /** All that is posted for a pattern. */
  ghost predicate Posted(s: Assignment, state: PermutationState, adjacency: Matrix, costs: seq<Term>, offset: int, size: int)
    requires costs != [] && Square(adjacency, |costs|)
  {
    var n := |costs|;
    match state
    case Symbolic(_) =>
      && PermutationMatrix(MatrixAt(s, PermTerms(n)), n)
      && (forall i :: 0 <= i < n ==> s(RowSumOf(i)) == 1 && s(ColSumOf(i)) == 1)
      && PermutedPosted(s, PermTerms(n), ConstTerms(adjacency), costs)
      && StackPosted(s, Grid(true, n), CostRow(n, CostMax(costs)), offset, size)
    case Fixed(m) =>
      && PermutationMatrix(m, n) && Permutation(PermList(m), n)
      && StackPosted(s, ConstTerms(PermutedMatrix(adjacency, PermList(m))), Permuted(costs, PermList(m)), offset, size)
  }

  /** The constraints of a pattern in one level, some of whose size may be reserved for another
      scheduler: the solutions left are those of Posted. */
  method SchedulePattern(model: TilerModel, adjacency: Matrix, costs: seq<Term>, strategy: Strategy, offset: int, size: int, reserved: Term)
    returns (state: PermutationState)
    requires |costs| > 0 && ZeroOne(adjacency, |costs|)
    requires strategy.TetrisRandom? ==> Permutation(strategy.permutation, |costs|)
    modifies model
    ensures state == StateOf(strategy, |costs|)
    ensures forall s :: AllHold(s, model.constraints) <==> AllHold(s, old(model.constraints)) && Posted(s, state, adjacency, costs, offset, size - Value(s, reserved))
  {
    hide HeightPosted, TotalPosted, PermutedPosted, PermutationMatrix, PermList;
    var n := |costs|;
    var adjTerms := ConstTerms(adjacency);
    var permAdj, permCost;
    match strategy {
      case TetrisCoOpt =>
        if n > 1 {
          var permMat := AddPermutationMatrix(model, n);
          permAdj, permCost := PermuteMatrices(model, permMat, adjTerms, costs);
          state := Symbolic(n);
          assert SquareTerms(permAdj, n);
        } else {
          permAdj, permCost, state := adjTerms, costs, Fixed([[1]]);
          OneByOne(adjacency, costs);
          assert SquareTerms(permAdj, n);
        }
      case TetrisRandom(list) =>
        var newAdjacency, newCosts, matrix := StablePermutation(adjacency, costs, list);
        permAdj, permCost, state := ConstTerms(newAdjacency), newCosts, Fixed(matrix);
        assert SquareTerms(permAdj, n);
    }
    var cost := GenerateCost(model, permAdj, permCost);
    model.AddConstraint(Below(cost, offset, size, reserved));
    forall s ensures Holds(s, Below(cost, offset, size, reserved)) <==> s(TotalCost) + offset < size - Value(s, reserved) {}
  }

  /** Every solution stacks the blocks. */
  lemma PostedStacks(s: Assignment, state: PermutationState, adjacency: Matrix, costs: seq<Term>, offset: int, size: int)
    requires |costs| > 0 && ZeroOne(adjacency, |costs|) && CostsInRange(s, costs)
    requires Posted(s, state, adjacency, costs, offset, size) && (state.Symbolic? ==> state.n == |costs|)
    ensures Stacked(s, state, adjacency, costs, offset, size)
  {
    hide HeightPosted, TotalPosted, PermutedPosted, PermutedValues, Stacked;
    var n := |costs|;
    match state {
      case Symbolic(_) =>
        SymbolicPermuted(s, adjacency, costs);
        SolutionStacks(s, state, adjacency, costs, Grid(true, n), CostRow(n, CostMax(costs)), offset, size);
      case Fixed(m) =>
        var permAdj, permCost := ConstTerms(PermutedMatrix(adjacency, PermList(m))), Permuted(costs, PermList(m));
        FixedPermuted(s, m, adjacency, costs, permAdj, permCost);
        SolutionStacks(s, state, adjacency, costs, permAdj, permCost, offset, size);
    }
  }

  lemma OneByOne<T>(adjacency: Matrix, costs: seq<T>)
    requires Square(adjacency, 1) && |costs| == 1
    ensures PermutationMatrix([[1]], 1) && PermList([[1]]) == [0]
    ensures PermutedMatrix(adjacency, [0]) == adjacency && Permuted(costs, [0]) == costs
  {
    PermutationHasMatrix([0]);
    assert MatrixOf([0])[0] == [1] && MatrixOf([0]) == [[1]];
    assert PermutedMatrix(adjacency, [0])[0] == adjacency[0];
  }

  /** The permuted terms have, under s, the values of the permuted matrix and costs. */
  ghost predicate PermutedValues(s: Assignment, m: Matrix, adjacency: Matrix, costs: seq<Term>, permAdj: seq<seq<Term>>, permCost: seq<Term>)
    requires Square(adjacency, |costs|)
  {
    var n, p := |costs|, PermList(m);
    && PermutationMatrix(m, n) && Permutation(p, n)
    && SquareTerms(permAdj, n) && |permCost| == n
    && MatrixAt(s, permAdj) == PermutedMatrix(adjacency, p)
    && Values(s, permCost) == Permuted(Values(s, costs), p)
    && CostsInRange(s, permCost)
  }

  lemma SymbolicPermuted(s: Assignment, adjacency: Matrix, costs: seq<Term>)
    requires ZeroOne(adjacency, |costs|) && CostsInRange(s, costs)
    requires PermutationMatrix(MatrixAt(s, PermTerms(|costs|)), |costs|)
    requires PermutedPosted(s, PermTerms(|costs|), ConstTerms(adjacency), costs)
    ensures PermutedValues(s, MatrixAt(s, PermTerms(|costs|)), adjacency, costs, Grid(true, |costs|), CostRow(|costs|, CostMax(costs)))
  {
    hide PermutedPosted, PermutationMatrix, PermList, MatrixAt, Values, CostsInRange;
    var n, m := |costs|, MatrixAt(s, PermTerms(|costs|));
    ConstValues(s, adjacency, n);
    PermutedPostedIff(s, PermTerms(n), ConstTerms(adjacency), costs);
    GridValues(s, adjacency, PermList(m));
    RowValues(s, costs, PermList(m));
  }

  lemma GridValues(s: Assignment, adjacency: Matrix, p: seq<nat>)
    requires Square(adjacency, |p|) && Permutation(p, |p|)
    requires forall i, j :: 0 <= i < |p| && 0 <= j < |p| ==> s(FinalAdj(i, j)) == adjacency[p[i]][p[j]]
    ensures MatrixAt(s, Grid(true, |p|)) == PermutedMatrix(adjacency, p)
  {
    var final := MatrixAt(s, Grid(true, |p|));
    forall i | 0 <= i < |p| ensures final[i] == PermutedMatrix(adjacency, p)[i] {
      forall j | 0 <= j < |p| ensures final[i][j] == adjacency[p[i]][p[j]] {
        assert final[i][j] == s(FinalAdj(i, j));
      }
    }
  }

  lemma RowValues(s: Assignment, costs: seq<Term>, p: seq<nat>)
    requires |p| == |costs| && Permutation(p, |p|) && CostsInRange(s, costs)
    requires forall j :: 0 <= j < |p| ==> s(CostProduct(j)) == Value(s, costs[p[j]])
    ensures Values(s, CostRow(|p|, CostMax(costs))) == Permuted(Values(s, costs), p)
    ensures CostsInRange(s, CostRow(|p|, CostMax(costs)))
  {
    var row := CostRow(|p|, CostMax(costs));
    forall j | 0 <= j < |p| ensures Value(s, row[j]) == Value(s, costs[p[j]]) && 0 <= Value(s, row[j]) <= MaxVal(row[j]) {
      assert 0 <= Value(s, costs[p[j]]) <= MaxVal(costs[p[j]]) <= CostMax(costs);
    }
  }

  lemma ConstValues(s: Assignment, m: Matrix, n: nat)
    requires Square(m, n)
    ensures MatrixAt(s, ConstTerms(m)) == m
  {
    forall i | 0 <= i < n ensures MatrixAt(s, ConstTerms(m))[i] == m[i] {
      assert Values(s, ConstTerms(m)[i]) == m[i];
    }
  }

  lemma FixedPermuted(s: Assignment, m: Matrix, adjacency: Matrix, costs: seq<Term>, permAdj: seq<seq<Term>>, permCost: seq<Term>)
    requires ZeroOne(adjacency, |costs|) && CostsInRange(s, costs) && PermutationMatrix(m, |costs|)
    requires Permutation(PermList(m), |costs|)
    requires permAdj == ConstTerms(PermutedMatrix(adjacency, PermList(m))) && permCost == Permuted(costs, PermList(m))
    ensures PermutedValues(s, m, adjacency, costs, permAdj, permCost)
  {
    ConstValues(s, PermutedMatrix(adjacency, PermList(m)), |costs|);
  }

  lemma SolutionStacks(s: Assignment, state: PermutationState, adjacency: Matrix, costs: seq<Term>,
                       permAdj: seq<seq<Term>>, permCost: seq<Term>, offset: int, size: int)
    requires |costs| > 0 && ZeroOne(adjacency, |costs|)
    requires PermutedValues(s, MatrixIn(s, state), adjacency, costs, permAdj, permCost)
    requires forall i :: 0 <= i < |costs| ==> HeightPosted(s, permAdj, permCost, i)
    requires TotalPosted(s, permCost) && s(TotalCost) + offset < size
    ensures Stacked(s, state, adjacency, costs, offset, size)
  {
    HeightsPostedIff(s, permAdj, permCost);
    forall i | 0 <= i < |costs| ensures s(H(i)) <= s(TotalCost) {
      assert TermsAt(s, HeightTerms(permCost, |costs|))(i) == s(H(i));
    }
  }
}
