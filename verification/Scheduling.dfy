/** From a schedule of tensors to safe addresses in one memory level, for the outer and for the tile
    scheduler, and what the tiled code relies on in the ranges it gets. */
module Scheduling {
  import opened Options
  import opened Aliases
  import opened Lifetimes
  import opened Permutations
  import opened TilerModels
  import opened Heights
  import opened Allocator
  import opened Placement
  import opened Packings

  /** A solver that only ever returns satisfying assignments. */
  ghost predicate Sound(solve: seq<Constraint> -> Option<Assignment>) {
    forall cs :: solve(cs).Some? ==> AllHold(solve(cs).value, cs)
  }

  /** A solver that finds an assignment whenever there is one. */
  ghost predicate Complete(solve: seq<Constraint> -> Option<Assignment>) {
    forall cs, s :: AllHold(s, cs) ==> solve(cs).Some?
  }

  /** Constraints of the tiler, of other levels and of other patterns: none is on this pattern's variables. */
  ghost predicate TilerOnly(others: seq<Constraint>) {
    forall s, base :: SameTiler(s, base) && AllHold(base, others) ==> AllHold(s, others)
  }

  /** Under the other constraints these terms stay within what they are declared with. */
  ghost predicate Declared(others: seq<Constraint>, costs: seq<Term>) {
    forall s :: AllHold(s, others) ==> CostsInRange(s, costs)
  }

  ghost predicate SizesDeclared(others: seq<Constraint>, order: seq<string>, sizes: map<string, TensorSize>)
    requires forall t :: t in order ==> t in sizes
  {
    forall s, t :: AllHold(s, others) && t in order ==> SizeInRange(s, sizes[t])
  }

  /** Every tensor has some bytes in every buffer. */
  ghost predicate PositiveSizes(others: seq<Constraint>, order: seq<string>, sizes: map<string, TensorSize>)
    requires forall t :: t in order ==> t in sizes
  {
    forall s, t :: AllHold(s, others) && t in order ==> Value(s, sizes[t].size) > 0 && sizes[t].multiBuffer > 0
  }

  /** The matrix posted for these tensors; an empty graph has one cost, and no entry is ever read. */
  function PostedMatrix(order: seq<string>, life: map<string, Interval>): (m: Matrix)
    requires forall t :: t in order ==> t in life
    ensures ZeroOne(m, if order == [] then 1 else |order|)
  {
    if order == [] then [[0]]
    else
      AdjacencyZeroOne(order, life);
      AdjacencyOf(order, life)
  }

  lemma AdjacencyZeroOne(order: seq<string>, life: map<string, Interval>)
    requires forall t :: t in order ==> t in life
    ensures ZeroOne(AdjacencyOf(order, life), |order|)
  {
  }

  /** Some permitted order of the tensors stacks below the level's size. */
  ghost predicate Stackable(order: seq<string>, life: map<string, Interval>, costs: seq<int>, strategy: Strategy, offset: int, size: int)
    requires (forall t :: t in order ==> t in life) && |costs| == if order == [] then 1 else |order|
  {
    exists p :: Permitted(strategy, p, |costs|) && Peak(PostedMatrix(order, life), costs, p) + offset < size
  }

  /** What each tensor costs under an assignment, given which others it interferes with. */
  function CostsOf(s: Assignment, ctxt: Context, order: seq<string>, life: map<string, Interval>, sizes: map<string, TensorSize>): (costs: seq<int>)
    requires forall t :: t in order ==> t in ctxt && t in life && t in sizes
    ensures |costs| == if order == [] then 1 else |order|
  {
    if order == [] then [0]
    else
      assert forall i :: 0 <= i < |order| ==> order[i] in order;
      seq(|order|, i requires 0 <= i < |order| => CostOf(s, ctxt[order[i]], NeighborsIn(order, life, order[i]), sizes[order[i]]))
  }

  method CreateBlocks(order: seq<string>, level: string, life: map<string, Interval>, patternIdx: nat) returns (blocks: seq<MemoryBlock>)
    requires Allocator.Distinct(order) && forall t :: t in order ==> t in life && life[t].0 <= life[t].1
    ensures BlocksOf(blocks, order, life, patternIdx) && DistinctBlocks(blocks)
    ensures forall k :: 0 <= k < |blocks| ==> fresh(blocks[k]) && blocks[k].addrSpace == None && blocks[k].level == level
  {
    blocks := [];
    for k := 0 to |order|
      invariant |blocks| == k && forall i :: 0 <= i < k ==> fresh(blocks[i]) && blocks[i].addrSpace == None && blocks[i].level == level
      invariant forall i :: 0 <= i < k ==>
        blocks[i].name == order[i] && blocks[i].lifetime == (life[order[i]].0 + patternIdx, life[order[i]].1 + patternIdx)
      invariant DistinctBlocks(blocks)
    {
      var t := order[k];
      var block := new MemoryBlock(t, level, (life[t].0 + patternIdx, life[t].1 + patternIdx));
      blocks := blocks + [block];
    }
  }

  // ----- posting and solving -----

  /** The posted constraints of a level have a solution that gives the tiler's variables these values
      exactly when the tensors are stackable with them. */
  lemma PostedIffStackable(base: Assignment, order: seq<string>, life: map<string, Interval>, costs: seq<Term>, strategy: Strategy,
                           offset: int, size: int)
    requires (forall t :: t in order ==> t in life) && |costs| == if order == [] then 1 else |order|
    requires TilerTerms(costs) && CostsInRange(base, costs)
    requires strategy.TetrisRandom? ==> Permutation(strategy.permutation, |costs|)
    ensures (exists s :: SameTiler(s, base) && Posted(s, StateOf(strategy, |costs|), PostedMatrix(order, life), costs, offset, size)) <==>
      Stackable(order, life, Values(base, costs), strategy, offset, size)
  {
    hide Posted, Peak, PostedMatrix, Permitted;
    SatisfiableIff(base, strategy, PostedMatrix(order, life), costs, offset, size);
  }

  /** Posts the schedule of a level on the tiler's model and asks the solver. */
  method SolveSchedule(ghost order: seq<string>, ghost life: map<string, Interval>, adjacency: Matrix, costs: seq<Term>, strategy: Strategy,
                       others: seq<Constraint>, solve: seq<Constraint> -> Option<Assignment>, offset: int, size: int, reserved: Term)
    returns (solution: Option<Assignment>, state: PermutationState)
    requires Sound(solve) && (forall t :: t in order ==> t in life) && |costs| == if order == [] then 1 else |order|
    requires adjacency == PostedMatrix(order, life) && TilerOnly(others) && TilerTerms(costs) && TilerTerm(reserved) && Declared(others, costs)
    requires strategy.TetrisRandom? ==> Permutation(strategy.permutation, |costs|)
    ensures solution.Some? ==> AllHold(solution.value, others) && CostsInRange(solution.value, costs)
    ensures solution.Some? ==> Stacked(solution.value, state, adjacency, costs, offset, size - Value(solution.value, reserved))
    ensures solution.Some? ==>
      Stackable(order, life, Values(solution.value, costs), strategy, offset, size - Value(solution.value, reserved))
    ensures solution.None? && Complete(solve) ==>
      forall base :: AllHold(base, others) ==> !Stackable(order, life, Values(base, costs), strategy, offset, size - Value(base, reserved))
  {
    hide Posted, Stacked, Stackable, AllHold, PostedMatrix, Value;
    var model := new TilerModel();
    model.constraints := others;
    state := SchedulePattern(model, adjacency, costs, strategy, offset, size, reserved);
    solution := solve(model.constraints);
    if solution.Some? {
      var s := solution.value;
      PostedStacks(s, state, adjacency, costs, offset, size - Value(s, reserved));
      PostedIffStackable(s, order, life, costs, strategy, offset, size - Value(s, reserved));
      assert SameTiler(s, s);
    } else if Complete(solve) {
      forall base | AllHold(base, others)
        ensures !Stackable(order, life, Values(base, costs), strategy, offset, size - Value(base, reserved))
      {
        NoStacking(base, order, life, costs, strategy, others, model.constraints, offset, size, reserved);
      }
    }
  }

  /** Without a solution no assignment of the tiler's variables leaves room for the level. */
  lemma NoStacking(base: Assignment, order: seq<string>, life: map<string, Interval>, costs: seq<Term>, strategy: Strategy,
                   others: seq<Constraint>, all: seq<Constraint>, offset: int, size: int, reserved: Term)
    requires (forall t :: t in order ==> t in life) && |costs| == if order == [] then 1 else |order|
    requires TilerOnly(others) && TilerTerms(costs) && TilerTerm(reserved) && AllHold(base, others) && CostsInRange(base, costs)
    requires strategy.TetrisRandom? ==> Permutation(strategy.permutation, |costs|)
    requires forall s :: AllHold(s, all) <==>
      AllHold(s, others) && Posted(s, StateOf(strategy, |costs|), PostedMatrix(order, life), costs, offset, size - Value(s, reserved))
    requires forall s :: !AllHold(s, all)
    ensures !Stackable(order, life, Values(base, costs), strategy, offset, size - Value(base, reserved))
  {
    hide Posted, PostedMatrix, AllHold, Stackable;
    var room := size - Value(base, reserved);
    PostedIffStackable(base, order, life, costs, strategy, offset, room);
    forall s | SameTiler(s, base) ensures !Posted(s, StateOf(strategy, |costs|), PostedMatrix(order, life), costs, offset, room) {
      SameTerm(s, base, reserved);
    }
  }

  lemma NothingToPlace(blocks: seq<MemoryBlock>, kinds: seq<Kind>, costs: seq<int>, offset: int, size: int)
    requires blocks == [] && kinds == [] && costs == []
    ensures Safe(blocks, kinds, costs, offset, size) && Exact(blocks, kinds, costs) && Shared(blocks, kinds) && HomesUnplaced(blocks, kinds)
  {
  }

  /** Interference, costs and posted schedule of the tensors, and the solver's answer. */
  method SolveTensors(ctxt: Context, order: seq<string>, life: map<string, Interval>, sizes: map<string, TensorSize>, strategy: Strategy,
                      others: seq<Constraint>, solve: seq<Constraint> -> Option<Assignment>, offset: int, size: int, reserved: Term)
    returns (solution: Option<Assignment>, state: PermutationState, costs: seq<Term>)
    requires Sound(solve) && Allocator.Distinct(order) && TilerOnly(others) && TilerTerm(reserved)
    requires forall t :: t in order ==> t in life && t in ctxt && t in sizes && Sizeable(sizes[t])
    requires SizesDeclared(others, order, sizes)
    requires strategy.TetrisRandom? ==> Permutation(strategy.permutation, if order == [] then 1 else |order|)
    ensures |costs| == if order == [] then 1 else |order|
    ensures forall s :: Values(s, costs) == CostsOf(s, ctxt, order, life, sizes)
    ensures forall s, i :: 0 <= i < |costs| ==> Value(s, costs[i]) % BYTE_ALIGNMENT == 0
    ensures solution.Some? ==> AllHold(solution.value, others) && CostsInRange(solution.value, costs)
    ensures solution.Some? ==>
      var room := size - Value(solution.value, reserved);
      && Stacked(solution.value, state, PostedMatrix(order, life), costs, offset, room)
      && Stackable(order, life, CostsOf(solution.value, ctxt, order, life, sizes), strategy, offset, room)
    ensures solution.None? && Complete(solve) ==> forall base :: AllHold(base, others) ==>
      !Stackable(order, life, CostsOf(base, ctxt, order, life, sizes), strategy, offset, size - Value(base, reserved))
  {
    hide Stacked, NeighborsIn, AdjacencyOf, CostOf, Stackable, Complete, Sound, AllHold, Value;
    var graph := BuildInterferenceGraph(order, life);
    AdjacencyZeroOne(order, life);
    var adjacency := BuildAdjacencyMatrix(order, life, graph);
    costs := BuildCostVector(ctxt, order, graph, sizes);
    CostValues(ctxt, order, life, sizes, graph, costs, others);
    var posted := if order == [] then [[0]] else adjacency;
    solution, state := SolveSchedule(order, life, posted, costs, strategy, others, solve, offset, size, reserved);
  }

  /** The blocks of a level after the solution is read back: one for each tensor, safely placed, aliases
      resolved. */
  ghost predicate Allocated(ctxt: Context, root: map<string, string>, order: seq<string>, life: map<string, Interval>, sizes: map<string, TensorSize>,
                            s: Assignment, level: string, patternIdx: nat, offset: int, size: int, blocks: seq<MemoryBlock>)
    requires forall t :: t in order ==> t in ctxt && t in life && t in sizes
    reads blocks
  {
    && Known(ctxt, root, blocks) && DistinctBlocks(blocks) && BlocksOf(blocks, order, life, patternIdx)
    && var kinds, costs := Kinds(ctxt, root, blocks, level), CostsOf(s, ctxt, order, life, sizes)[..|order|];
       Safe(blocks, kinds, costs, offset, size) && Exact(blocks, kinds, costs) && Shared(blocks, kinds) && HomesUnplaced(blocks, kinds)
  }

  method StackTensors(ctxt: Context, root: map<string, string>, order: seq<string>, life: map<string, Interval>, sizes: map<string, TensorSize>,
                      level: string, strategy: Strategy, others: seq<Constraint>, solve: seq<Constraint> -> Option<Assignment>,
                      offset: int, size: int, reserved: Term, patternIdx: nat)
    returns (solution: Option<Assignment>, r: Option<seq<MemoryBlock>>)
    requires Sound(solve) && Allocator.Distinct(order) && TilerOnly(others) && TilerTerm(reserved)
    requires forall t :: t in order ==>
      t in life && life[t].0 <= life[t].1 && t in ctxt && t in root && t in sizes && Sizeable(sizes[t])
    requires SizesDeclared(others, order, sizes)
    requires strategy.TetrisRandom? ==> Permutation(strategy.permutation, if order == [] then 1 else |order|)
    ensures r.Some? ==> solution.Some? && AllHold(solution.value, others)
    ensures r.Some? ==>
      var s, room := solution.value, size - Value(solution.value, reserved);
      && Allocated(ctxt, root, order, life, sizes, s, level, patternIdx, offset, room, r.value)
      && Stackable(order, life, CostsOf(s, ctxt, order, life, sizes), strategy, offset, room)
    ensures r.None? && Complete(solve) && PositiveSizes(others, order, sizes) ==> forall base :: AllHold(base, others) ==>
      !Stackable(order, life, CostsOf(base, ctxt, order, life, sizes), strategy, offset, size - Value(base, reserved))
  {
    hide Safe, Exact, Shared, HomesUnplaced, Stacked, NeighborsIn, AdjacencyOf, KindOf, CostOf, CostsOf, Stackable, Complete, Sound, AllHold, Value,
      SizesDeclared, PositiveSizes, CostsInRange, DistinctBlocks, BlocksOf, TilerOnly, TilerTerm, Sizeable;
    var state, costs;
    solution, state, costs := SolveTensors(ctxt, order, life, sizes, strategy, others, solve, offset, size, reserved);
    if solution.None? { return None, None; }
    var s := solution.value;
    var blocks := CreateBlocks(order, level, life, patternIdx);
    if order == [] {
      NothingToPlace(blocks, Kinds(ctxt, root, blocks, level), [], offset, size - Value(s, reserved));
      return solution, Some(blocks);
    }
    assert Values(s, costs)[..|order|] == Values(s, costs);
    var ok := AnnotatePattern(ctxt, root, blocks, s, state, level, order, life, patternIdx, costs, offset, size - Value(s, reserved));
    if !ok {
      PositiveRanges(ctxt, root, order, life, sizes, level, blocks, others, s, patternIdx);
      assert forall k :: 0 <= k < |costs| ==> Values(s, costs)[k] == Value(s, costs[k]);
      return solution, None;
    }
    r := Some(blocks);
  }

  /** The cost terms have the tensors' costs as values, within what they are declared with. */
  lemma CostValues(ctxt: Context, order: seq<string>, life: map<string, Interval>, sizes: map<string, TensorSize>,
                   graph: map<string, seq<string>>, costs: seq<Term>, others: seq<Constraint>)
    requires (forall t :: t in order ==> t in life && t in ctxt && t in sizes && t in graph)
    requires forall t :: t in order ==> graph[t] == NeighborsIn(order, life, t)
    requires (order == [] ==> costs == [Const(0)]) && (order != [] ==> |costs| == |order|) && SizesDeclared(others, order, sizes)
    requires forall s, i :: 0 <= i < |order| ==> Value(s, costs[i]) == CostOf(s, ctxt[order[i]], graph[order[i]], sizes[order[i]])
    requires forall s, i :: 0 <= i < |order| && SizeInRange(s, sizes[order[i]]) ==> 0 <= Value(s, costs[i]) <= MaxVal(costs[i])
    ensures forall s :: Values(s, costs) == CostsOf(s, ctxt, order, life, sizes)
    ensures Declared(others, costs)
  {
    hide CostOf, AllHold, SizeInRange, WordCost;
    forall s ensures Values(s, costs) == CostsOf(s, ctxt, order, life, sizes) {
      forall i | 0 <= i < |order| ensures Values(s, costs)[i] == CostsOf(s, ctxt, order, life, sizes)[i] { assert order[i] in order; }
    }
    forall s | AllHold(s, others) ensures CostsInRange(s, costs) {
      forall i | 0 <= i < |order| ensures 0 <= Value(s, costs[i]) <= MaxVal(costs[i]) { assert order[i] in order; }
    }
  }

  /** With some bytes in every tensor no placed block gets an empty range. */
  lemma PositiveRanges(ctxt: Context, root: map<string, string>, order: seq<string>, life: map<string, Interval>,
                       sizes: map<string, TensorSize>, level: string, blocks: seq<MemoryBlock>, others: seq<Constraint>, s: Assignment,
                       patternIdx: nat)
    requires Known(ctxt, root, blocks) && (forall t :: t in order ==> t in ctxt && t in life && t in sizes)
    requires BlocksOf(blocks, order, life, patternIdx) && order != [] && AllHold(s, others)
    ensures PositiveSizes(others, order, sizes) ==>
      forall k :: 0 <= k < |blocks| && Kinds(ctxt, root, blocks, level)[k].Placed? ==> CostsOf(s, ctxt, order, life, sizes)[k] > 0
  {
    hide CostOf, CostsOf, KindOf, AllHold, Value;
    if PositiveSizes(others, order, sizes) {
      forall k | 0 <= k < |blocks| && Kinds(ctxt, root, blocks, level)[k].Placed? ensures CostsOf(s, ctxt, order, life, sizes)[k] > 0 {
        PlacedCost(s, ctxt, root, order, life, sizes, level, blocks, k, patternIdx);
        assert order[k] in order;
        PositiveCost(s, ctxt[order[k]], sizes[order[k]]);
      }
    }
  }

  /** A placed block pays its full cost. */
  lemma PlacedCost(s: Assignment, ctxt: Context, root: map<string, string>, order: seq<string>, life: map<string, Interval>,
                   sizes: map<string, TensorSize>, level: string, blocks: seq<MemoryBlock>, k: nat, patternIdx: nat)
    requires Known(ctxt, root, blocks) && (forall t :: t in order ==> t in ctxt && t in life && t in sizes)
    requires BlocksOf(blocks, order, life, patternIdx) && k < |blocks| && Kinds(ctxt, root, blocks, level)[k].Placed?
    ensures order[k] in order && CostsOf(s, ctxt, order, life, sizes)[k] == CostOf(s, ctxt[order[k]], [], sizes[order[k]])
  {
    hide WordCost;
    var b := ctxt[order[k]];
    assert order[k] in order;
    if b.alias.Some? {
      NeighborsIff(order, life, order[k], b.alias.value);
      if b.alias.value in order {
        var j :| 0 <= j < |order| && order[j] == b.alias.value;
        assert Names(blocks)[j] == b.alias.value;
      }
    }
  }

  lemma PositiveCost(s: Assignment, b: Buffer, t: TensorSize)
    requires Value(s, t.size) > 0 && t.multiBuffer > 0
    ensures CostOf(s, b, [], t) > 0
  {
    hide Value;
    var n, width := Value(s, t.size), TypeWidth(b, t);
    var c := WordCost(n, width);
    PositiveProduct(n, width);
    PositiveProduct(c, t.multiBuffer);
  }

  lemma PositiveProduct(a: int, b: int)
    requires a > 0 && b > 0
    ensures a * b > 0
  {
  }

  // ----- a level, end to end -----

  /** Every block has a range of its own; or all are alive together, and those that have none take that
      of the block they alias. */
  ghost predicate Snug(blocks: seq<MemoryBlock>, kinds: seq<Kind>)
    requires |kinds| == |blocks|
    reads blocks
  {
    || (forall k :: 0 <= k < |blocks| ==> kinds[k].Placed?)
    || ((forall k, l :: 0 <= k < |blocks| && 0 <= l < |blocks| ==> Overlap(blocks[k].lifetime, blocks[l].lifetime))
        && forall k :: 0 <= k < |blocks| ==> !kinds[k].Home?)
  }

  /** A block's range has the bits of all its tensor's elements, in every buffer. */
  ghost predicate Roomy(ctxt: Context, sizes: map<string, TensorSize>, s: Assignment, b: MemoryBlock)
    requires b.name in ctxt && b.name in sizes
    reads b
  {
    b.addrSpace.Some? && HoldsBits(b.addrSpace.value.1 - b.addrSpace.value.0, Value(s, sizes[b.name].size), ctxt[b.name], sizes[b.name])
  }

  /** It has less than one word more for each buffer. */
  ghost predicate JustRoomy(ctxt: Context, sizes: map<string, TensorSize>, s: Assignment, b: MemoryBlock)
    requires b.name in ctxt && b.name in sizes
    reads b
  {
    b.addrSpace.Some? && JustHoldsBits(b.addrSpace.value.1 - b.addrSpace.value.0, Value(s, sizes[b.name].size), ctxt[b.name], sizes[b.name])
  }

  /** In a range of the level that holds its cost and its tensor's bits, exactly so in a snug level. */
  ghost predicate WellHoused(ctxt: Context, sizes: map<string, TensorSize>, s: Assignment, offset: int, size: int, snug: bool, b: MemoryBlock)
    requires b.name in ctxt && b.name in sizes
    reads b
  {
    var cost := CostOf(s, ctxt[b.name], [], sizes[b.name]);
    && Housed(b, cost, offset, size) && Roomy(ctxt, sizes, s, b)
    && (snug ==> Tight(b, cost) && JustRoomy(ctxt, sizes, s, b))
  }

  /** The blocks of a level, as the generated code may use them: each tensor once, alive at all its
      uses; a placed one in a range of the level that holds it, exactly so in a snug level, and apart
      from all others alive with it. */
  ghost predicate Deployed(ctxt: Context, root: map<string, string>, log: seq<Mention>, sizes: map<string, TensorSize>, s: Assignment,
                           level: string, patternIdx: nat, offset: int, size: int, blocks: seq<MemoryBlock>)
    requires Known(ctxt, root, blocks) && forall t :: t in ctxt ==> t in sizes
    reads blocks
  {
    var kinds := Kinds(ctxt, root, blocks, level);
    && |blocks| == |Order(log)| && (forall k :: 0 <= k < |blocks| ==> blocks[k].name == Order(log)[k])
    && (forall q, k :: 0 <= q < |log| && 0 <= k < |blocks| && blocks[k].name == log[q].name ==>
          blocks[k].lifetime.0 <= log[q].step + patternIdx <= blocks[k].lifetime.1)
    && (forall k :: 0 <= k < |blocks| && kinds[k].Placed? ==> WellHoused(ctxt, sizes, s, offset, size, Snug(blocks, kinds), blocks[k]))
    && (forall k, l :: 0 <= k < |blocks| && 0 <= l < |blocks| && k != l && kinds[k].Placed? && kinds[l].Placed? ==>
          !blocks[k].Collides(blocks[l]))
  }

  ghost predicate Apart(a: MemoryBlock, b: MemoryBlock)
    reads a, b
  {
    && a.addrSpace.Some? && b.addrSpace.Some?
    && (a.addrSpace.value.1 <= b.addrSpace.value.0 || b.addrSpace.value.1 <= a.addrSpace.value.0)
  }

  /** The ranges in terms of the tensors alone. One that stands for itself has a range of its own,
      word-aligned inside the level, with all its bits; any two that occur at a common step have no byte in
      common. An alias of a global buffer at home here has no range. Any other alias of a tensor of the level
      shares the range of that tensor, or has none when that one is itself such an alias. */
  ghost predicate Served(ctxt: Context, root: map<string, string>, log: seq<Mention>, sizes: map<string, TensorSize>, s: Assignment, level: string,
                         offset: int, size: int, blocks: seq<MemoryBlock>)
    requires Known(ctxt, root, blocks) && forall k :: 0 <= k < |blocks| ==> blocks[k].name in sizes
    reads blocks
  {
    && (forall q :: 0 <= q < |log| ==> log[q].name in Names(blocks))
    && (forall k :: 0 <= k < |blocks| && Owns(ctxt, root, level, Names(blocks), blocks[k].name) ==> OwnRange(ctxt, sizes, s, offset, size, blocks[k]))
    && (forall k, l :: 0 <= k < |blocks| && 0 <= l < |blocks| && k != l && OwnTogether(ctxt, root, level, Names(blocks), log, blocks[k].name, blocks[l].name) ==>
          Apart(blocks[k], blocks[l]))
    && (forall k :: 0 <= k < |blocks| && AtGlobalHome(ctxt, root, level, blocks[k].name) ==> blocks[k].addrSpace.None?)
    && (forall k, l :: 0 <= k < |blocks| && 0 <= l < |blocks| && StandsFor(ctxt, root, level, blocks[k].name, blocks[l].name) ==>
          blocks[k].addrSpace == blocks[l].addrSpace ||
            (blocks[k].addrSpace.None? && exists m :: 0 <= m < |blocks| && StandsFor(ctxt, root, level, blocks[l].name, blocks[m].name)))
  }

  /** An alias, directly or through others, of a global buffer, at home in this level. */
  ghost predicate AtGlobalHome(ctxt: Context, root: map<string, string>, level: string, t: string) {
    t in ctxt && t in root && root[t] != t && root[t] in ctxt && ctxt[root[t]].isGlobal && ctxt[t].homeLevel == level
  }

  /** An alias of the other that is no such alias of a global buffer. */
  ghost predicate StandsFor(ctxt: Context, root: map<string, string>, level: string, t: string, u: string) {
    t in ctxt && ctxt[t].alias == Some(u) && !AtGlobalHome(ctxt, root, level, t)
  }

  /** Neither of the two with any of these names. */
  ghost predicate Owns(ctxt: Context, root: map<string, string>, level: string, names: seq<string>, t: string) {
    t in ctxt && !AtGlobalHome(ctxt, root, level, t) && (ctxt[t].alias.Some? ==> ctxt[t].alias.value !in names)
  }

  /** Both stand for themselves, and some step has both. */
  ghost predicate OwnTogether(ctxt: Context, root: map<string, string>, level: string, names: seq<string>, log: seq<Mention>, t: string, u: string) {
    && Owns(ctxt, root, level, names, t) && Owns(ctxt, root, level, names, u)
    && exists q, r :: 0 <= q < |log| && 0 <= r < |log| && log[q].name == t && log[r].name == u && log[q].step == log[r].step
  }

  ghost predicate OwnRange(ctxt: Context, sizes: map<string, TensorSize>, s: Assignment, offset: int, size: int, b: MemoryBlock)
    requires b.name in ctxt && b.name in sizes
    reads b
  {
    && Roomy(ctxt, sizes, s, b)
    && b.addrSpace.value.0 % 4 == 0 && b.addrSpace.value.1 % 4 == 0 && 0 <= b.addrSpace.value.0 && b.addrSpace.value.1 + offset < size
  }

  /** An in-place block that lives inside the lifetime of the placed block it aliases. */
  ghost predicate InsideTarget(blocks: seq<MemoryBlock>, kinds: seq<Kind>, k: nat, l: nat)
    requires |kinds| == |blocks| && k < |blocks| && l < |blocks|
  {
    kinds[k] == InPlace(blocks[l].name) && kinds[l].Placed? && Lifetimes.Within(blocks[k].lifetime, blocks[l].lifetime)
  }

  /** Such a block collides with no placed block but its target, and with no other such block of another target. */
  ghost predicate InPlaceApart(blocks: seq<MemoryBlock>, kinds: seq<Kind>)
    requires |kinds| == |blocks|
    reads blocks
  {
    && (forall k, l, m :: 0 <= k < |blocks| && 0 <= l < |blocks| && 0 <= m < |blocks| && InsideTarget(blocks, kinds, k, l) ==>
          kinds[m].Placed? && m != l ==> !blocks[k].Collides(blocks[m]))
    && (forall k, l, m, n :: 0 <= k < |blocks| && 0 <= l < |blocks| && 0 <= m < |blocks| && 0 <= n < |blocks| ==>
          InsideTarget(blocks, kinds, k, l) && InsideTarget(blocks, kinds, m, n) && l != n ==> !blocks[k].Collides(blocks[m]))
  }

  lemma InPlaceClear(blocks: seq<MemoryBlock>, kinds: seq<Kind>)
    requires |kinds| == |blocks| && Shared(blocks, kinds)
    requires forall k, l :: 0 <= k < |blocks| && 0 <= l < |blocks| && k != l && kinds[k].Placed? && kinds[l].Placed? ==>
      !blocks[k].Collides(blocks[l])
    ensures InPlaceApart(blocks, kinds)
  {
    forall k, l | 0 <= k < |blocks| && 0 <= l < |blocks| && InsideTarget(blocks, kinds, k, l)
      ensures blocks[k].addrSpace == blocks[l].addrSpace
    {
    }
  }

  /** For the outer scheduler the schedule decides which in-place blocks these are. */
  lemma InsideTargetIff(ctxt: Context, root: map<string, string>, log: seq<Mention>, maxStep: nat, training: bool, life: map<string, Interval>,
                        level: string, patternIdx: nat, blocks: seq<MemoryBlock>, k: nat, l: nat)
    requires AllRegistered(ctxt, log) && LevelLifetimes(ctxt, root, log, maxStep, false, training, life) && Resolves(root, Order(log))
    requires BlocksOf(blocks, Order(log), life, patternIdx) && Known(ctxt, root, blocks) && k < |blocks| && l < |blocks|
    requires LocalAlias(ctxt, root, blocks[k].name) && root[blocks[k].name] == blocks[l].name
    requires Kinds(ctxt, root, blocks, level)[k] == InPlace(blocks[l].name) && Kinds(ctxt, root, blocks, level)[l].Placed?
    ensures InsideTarget(blocks, Kinds(ctxt, root, blocks, level), k, l) <==>
      StartOf(ctxt, log, blocks[l].name, training) <= StartOf(ctxt, log, blocks[k].name, training)
  {
    hide Order, LevelLifetimes, Kinds, StartOf;
    assert Order(log)[k] in Order(log) && Order(log)[l] in Order(log);
    AliasInsideIff(ctxt, root, log, maxStep, training, life, blocks[k].name);
  }

  /** No placed block shares a byte with a placed input. */
  ghost predicate InputsApart(ctxt: Context, root: map<string, string>, level: string, blocks: seq<MemoryBlock>)
    requires Known(ctxt, root, blocks)
    reads blocks
  {
    var kinds := Kinds(ctxt, root, blocks, level);
    forall k, l :: 0 <= k < |blocks| && 0 <= l < |blocks| && k != l && kinds[k].Placed? && kinds[l].Placed? && ctxt[blocks[k].name].isInput ==>
      Apart(blocks[k], blocks[l])
  }

  /** Every alias chain of the level ends, for the outer scheduler in a tensor of the level. */
  ghost predicate Resolvable(ctxt: Context, root: map<string, string>, order: seq<string>, tile: bool) {
    (forall t :: t in order ==> t in root) && (tile || TargetsKept(ctxt, root, order))
  }

  /** One pattern in one memory level, from the schedule to addresses, with any solver that only returns
      satisfying assignments: for the outer scheduler, or for the tile scheduler with sizes the solver
      chooses and part of the level reserved. With a solver that also finds them, and tensors of some
      bytes, it fails exactly for an alias that does not resolve, or when no choice of the tiler's
      variables lets a permitted order stack into the level. */
  method AllocateLevel(ctxt: Context, steps: seq<seq<TensorConstraint>>, sizes: map<string, TensorSize>, level: string, tile: bool, training: bool,
                       strategy: Strategy, others: seq<Constraint>, solve: seq<Constraint> -> Option<Assignment>,
                       offset: int, size: int, reserved: Term, patternIdx: nat)
    returns (solution: Option<Assignment>, r: Option<seq<MemoryBlock>>, ghost lifetimes: map<string, Interval>)
    requires Registered(ctxt, steps) && Sound(solve) && TilerOnly(others) && TilerTerm(reserved)
    requires (forall t :: t in ctxt ==> t in sizes && Sizeable(sizes[t])) && forall s, t :: AllHold(s, others) && t in ctxt ==> SizeInRange(s, sizes[t])
    requires strategy.TetrisRandom? ==>
      var n := |Order(Mentions(ctxt, steps, level, tile))|; Permutation(strategy.permutation, if n == 0 then 1 else n)
    ensures var log := Mentions(ctxt, steps, level, tile); AllRegistered(ctxt, log) && forall t :: t in Order(log) ==> t in ctxt
    ensures r.Some? ==>
      var root := Roots(AliasesOf(ctxt));
      && solution.Some? && AllHold(solution.value, others) && Known(ctxt, root, r.value)
      && InPlaceApart(r.value, Kinds(ctxt, root, r.value, level))
      && (tile && |steps| <= 1 && TransientsOwn(ctxt) ==> Snug(r.value, Kinds(ctxt, root, r.value, level)))
      && Deployed(ctxt, root, Mentions(ctxt, steps, level, tile), sizes, solution.value, level, patternIdx, offset,
                  size - Value(solution.value, reserved), r.value)
      && Served(ctxt, root, Mentions(ctxt, steps, level, tile), sizes, solution.value, level, offset,
                size - Value(solution.value, reserved), r.value)
      && (training ==> InputsApart(ctxt, root, level, r.value))
    ensures var log, root := Mentions(ctxt, steps, level, tile), Roots(AliasesOf(ctxt));
      Resolvable(ctxt, root, Order(log), tile) ==>
        && LevelLifetimes(ctxt, root, log, |steps|, tile, training, lifetimes) && CoversUse(ctxt, log, lifetimes, |steps|)
        && forall t :: t in Order(log) ==> t in lifetimes
    ensures var order := Order(Mentions(ctxt, steps, level, tile));
      r.Some? ==>
        && Resolvable(ctxt, Roots(AliasesOf(ctxt)), order, tile)
        && Allocated(ctxt, Roots(AliasesOf(ctxt)), order, lifetimes, sizes, solution.value, level, patternIdx, offset,
                     size - Value(solution.value, reserved), r.value)
        && Stackable(order, lifetimes, CostsOf(solution.value, ctxt, order, lifetimes, sizes), strategy, offset,
                     size - Value(solution.value, reserved))
    ensures var order := Order(Mentions(ctxt, steps, level, tile));
      r.None? && Complete(solve) && PositiveSizes(others, order, sizes) && Resolvable(ctxt, Roots(AliasesOf(ctxt)), order, tile) ==>
        forall base :: AllHold(base, others) ==>
          !Stackable(order, lifetimes, CostsOf(base, ctxt, order, lifetimes, sizes), strategy, offset, size - Value(base, reserved))
  {
    hide Mentions, Order, Life, Safe, Exact, Shared, HomesUnplaced, KindOf, CostOf, Stackable, CostsOf, Dealiased, Deployed, InputsApart, Roots, AllHold,
      Value, LevelLifetimes, Sound, Complete, Snug, InPlaceApart, TransientsOwn, Served;
    ghost var log := Mentions(ctxt, steps, level, tile);
    var root := ResolveAll(AliasesOf(ctxt));
    var order, found := CoveredLifetimes(ctxt, root, steps, level, tile, training);
    if found.None? { return None, None, map[]; }
    lifetimes := found.value;
    if k :| 0 <= k < |order| && order[k] !in root { return None, None, lifetimes; }
    assert forall t :: t in order ==> t in root;
    solution, r := StackTensors(ctxt, root, order, found.value, sizes, level, strategy, others, solve, offset, size, reserved, patternIdx);
    if r.Some? {
      assert Allocated(ctxt, root, order, lifetimes, sizes, solution.value, level, patternIdx, offset, size - Value(solution.value, reserved), r.value);
      InPlaceClearOf(ctxt, root, order, lifetimes, sizes, solution.value, level, patternIdx, offset, size - Value(solution.value, reserved), r.value);
      if tile && |steps| <= 1 && TransientsOwn(ctxt) { OneStepSnug(ctxt, steps, level, lifetimes, patternIdx, r.value); }
      BlocksDeployed(ctxt, root, log, |steps|, lifetimes, sizes, solution.value, level, patternIdx, offset,
                     size - Value(solution.value, reserved), r.value);
      DeployedServes(ctxt, log, lifetimes, sizes, solution.value, level, patternIdx, offset, size - Value(solution.value, reserved), r.value);
      if training {
        MentionsChronological(ctxt, steps, level, tile);
        InputBytesNotReused(ctxt, root, log, |steps|, tile, lifetimes, sizes, solution.value, level, patternIdx, offset,
                            size - Value(solution.value, reserved), r.value);
      }
    }
  }

  lemma InPlaceClearOf(ctxt: Context, root: map<string, string>, order: seq<string>, life: map<string, Interval>, sizes: map<string, TensorSize>,
                       s: Assignment, level: string, patternIdx: nat, offset: int, size: int, blocks: seq<MemoryBlock>)
    requires forall t :: t in order ==> t in ctxt && t in life && t in sizes
    requires Allocated(ctxt, root, order, life, sizes, s, level, patternIdx, offset, size, blocks)
    ensures InPlaceApart(blocks, Kinds(ctxt, root, blocks, level))
  {
    hide CostsOf, Kinds, InPlaceApart, Shared;
    InPlaceClear(blocks, Kinds(ctxt, root, blocks, level));
  }

  /** Only outputs of nodes are made aliases, never a transient buffer. */
  predicate TransientsOwn(ctxt: Context) {
    forall t :: t in ctxt && ctxt[t].transient ==> ctxt[t].alias.None?
  }

  /** The tile scheduler's patterns of one step are snug: every tensor is alive at that step, and none is
      at home there. */
  lemma OneStepSnug(ctxt: Context, steps: seq<seq<TensorConstraint>>, level: string, life: map<string, Interval>, patternIdx: nat,
                    blocks: seq<MemoryBlock>)
    requires Registered(ctxt, steps) && |steps| <= 1 && TransientsOwn(ctxt) && Known(ctxt, Roots(AliasesOf(ctxt)), blocks)
    requires CoversUse(ctxt, Mentions(ctxt, steps, level, true), life, |steps|)
    requires BlocksOf(blocks, Order(Mentions(ctxt, steps, level, true)), life, patternIdx)
    ensures Snug(blocks, Kinds(ctxt, Roots(AliasesOf(ctxt)), blocks, level))
  {
    hide Mentions, Order, Roots, TransientsOwn, Registered, Kinds;
    var log, root := Mentions(ctxt, steps, level, true), Roots(AliasesOf(ctxt));
    MentionsChronological(ctxt, steps, level, true);
    forall k | 0 <= k < |blocks|
      ensures blocks[k].lifetime.0 == patternIdx && !Kinds(ctxt, root, blocks, level)[k].Home?
    {
      var t := Order(log)[k];
      assert t in Order(log);
      OrderMentioned(log, t);
      var q :| 0 <= q < |log| && log[q].name == t;
      assert log[q].step == 0;
      NotAtHome(ctxt, steps, level, blocks, k);
    }
  }

  /** The tile scheduler keeps no tensor at home but transient buffers, which are no aliases. */
  lemma NotAtHome(ctxt: Context, steps: seq<seq<TensorConstraint>>, level: string, blocks: seq<MemoryBlock>, k: nat)
    requires Registered(ctxt, steps) && TransientsOwn(ctxt) && Known(ctxt, Roots(AliasesOf(ctxt)), blocks)
    requires k < |blocks| && blocks[k].name in Order(Mentions(ctxt, steps, level, true))
    ensures !Kinds(ctxt, Roots(AliasesOf(ctxt)), blocks, level)[k].Home?
  {
    hide Mentions, Order, Roots, TransientsOwn, Registered;
    OrderInScope(ctxt, steps, level, true, blocks[k].name);
    if ctxt[blocks[k].name].transient { OwnRoot(ctxt, blocks[k].name); }
  }

  lemma OwnRoot(ctxt: Context, t: string)
    requires TransientsOwn(ctxt) && t in ctxt && ctxt[t].transient
    ensures t in Roots(AliasesOf(ctxt)) && Roots(AliasesOf(ctxt))[t] == t
  {
    assert Hop(AliasesOf(ctxt), t, 0) == Some(t);
    assert EndsIn(AliasesOf(ctxt), t, t);
  }

  /** In a snug level the blocks without a range of their own cost nothing. */
  lemma SnugIsUnlifted(s: Assignment, ctxt: Context, order: seq<string>, life: map<string, Interval>, sizes: map<string, TensorSize>,
                       level: string, patternIdx: nat, blocks: seq<MemoryBlock>)
    requires Known(ctxt, Roots(AliasesOf(ctxt)), blocks) && (forall t :: t in order ==> t in ctxt && t in life && t in sizes)
    requires BlocksOf(blocks, order, life, patternIdx) && Snug(blocks, Kinds(ctxt, Roots(AliasesOf(ctxt)), blocks, level))
    ensures Unlifted(Kinds(ctxt, Roots(AliasesOf(ctxt)), blocks, level), Lives(blocks), CostsOf(s, ctxt, order, life, sizes)[..|blocks|])
  {
    hide CostsOf, Roots, Kinds;
    var kinds := Kinds(ctxt, Roots(AliasesOf(ctxt)), blocks, level);
    if j :| 0 <= j < |blocks| && !kinds[j].Placed? {
      forall k | 0 <= k < |blocks| && !kinds[k].Placed? ensures CostsOf(s, ctxt, order, life, sizes)[k] == 0 {
        InPlaceCostsNothing(s, ctxt, order, life, sizes, level, patternIdx, blocks, k);
      }
    }
  }

  /** The target of an in-place block is another block, alive with it. */
  lemma InPlaceCostsNothing(s: Assignment, ctxt: Context, order: seq<string>, life: map<string, Interval>, sizes: map<string, TensorSize>,
                            level: string, patternIdx: nat, blocks: seq<MemoryBlock>, k: nat)
    requires Known(ctxt, Roots(AliasesOf(ctxt)), blocks) && (forall t :: t in order ==> t in ctxt && t in life && t in sizes)
    requires BlocksOf(blocks, order, life, patternIdx) && k < |blocks| && Kinds(ctxt, Roots(AliasesOf(ctxt)), blocks, level)[k].InPlace?
    requires forall l :: 0 <= l < |blocks| ==> Overlap(blocks[k].lifetime, blocks[l].lifetime)
    ensures CostsOf(s, ctxt, order, life, sizes)[k] == 0
  {
    hide WordCost, Roots, NeighborsIn;
    var target := ctxt[order[k]].alias.value;
    assert Names(blocks)[k] == order[k] && order[k] in order && target in Names(blocks);
    var l :| 0 <= l < |blocks| && Names(blocks)[l] == target;
    NotItsOwnAlias(ctxt, order[k]);
    NeighborsIff(order, life, order[k], target);
  }

  lemma NotItsOwnAlias(ctxt: Context, t: string)
    requires t in Roots(AliasesOf(ctxt)) && t in ctxt
    ensures ctxt[t].alias != Some(t)
  {
    var aliases := AliasesOf(ctxt);
    if ctxt[t].alias == Some(t) {
      assert Hop(aliases, t, 1) == Hop(aliases, t, 0) == Some(t);
      CycleHasNoEnd(aliases, t, 0, 1, Roots(aliases)[t]);
    }
  }

  lemma HousedIsRoomy(ctxt: Context, sizes: map<string, TensorSize>, s: Assignment, offset: int, size: int, b: MemoryBlock)
    requires b.name in ctxt && b.name in sizes && Housed(b, CostOf(s, ctxt[b.name], [], sizes[b.name]), offset, size)
    ensures Roomy(ctxt, sizes, s, b)
    ensures Tight(b, CostOf(s, ctxt[b.name], [], sizes[b.name])) ==> JustRoomy(ctxt, sizes, s, b)
  {
    hide CostOf, Value;
    CostHoldsBits(s, ctxt[b.name], [], sizes[b.name]);
  }

  /** Safe blocks with covering lifetimes are deployed. */
  lemma BlocksDeployed(ctxt: Context, root: map<string, string>, log: seq<Mention>, maxStep: nat, life: map<string, Interval>,
                       sizes: map<string, TensorSize>, s: Assignment, level: string, patternIdx: nat, offset: int, size: int,
                       blocks: seq<MemoryBlock>)
    requires root == Roots(AliasesOf(ctxt)) && forall t :: t in ctxt ==> t in sizes
    requires (forall t :: t in Order(log) ==> t in life && t in ctxt) && CoversUse(ctxt, log, life, maxStep)
    requires Allocated(ctxt, root, Order(log), life, sizes, s, level, patternIdx, offset, size, blocks)
    ensures Deployed(ctxt, root, log, sizes, s, level, patternIdx, offset, size, blocks)
  {
    hide Order, CostOf, CostsOf, Kinds, Snug, Unlifted, Roots, Roomy, JustRoomy;
    var kinds, costs := Kinds(ctxt, root, blocks, level), CostsOf(s, ctxt, Order(log), life, sizes)[..|blocks|];
    if Snug(blocks, kinds) { SnugIsUnlifted(s, ctxt, Order(log), life, sizes, level, patternIdx, blocks); }
    forall k | 0 <= k < |blocks| && kinds[k].Placed?
      ensures costs[k] == CostOf(s, ctxt[blocks[k].name], [], sizes[blocks[k].name])
      ensures Roomy(ctxt, sizes, s, blocks[k]) && (Tight(blocks[k], costs[k]) ==> JustRoomy(ctxt, sizes, s, blocks[k]))
    {
      PlacedCost(s, ctxt, root, Order(log), life, sizes, level, blocks, k, patternIdx);
      assert Housed(blocks[k], costs[k], offset, size);
      HousedIsRoomy(ctxt, sizes, s, offset, size, blocks[k]);
    }
    assert forall k :: 0 <= k < |blocks| && kinds[k].Placed? ==> Housed(blocks[k], costs[k], offset, size);
  }

  lemma DeployedServes(ctxt: Context, log: seq<Mention>, life: map<string, Interval>, sizes: map<string, TensorSize>, s: Assignment,
                       level: string, patternIdx: nat, offset: int, size: int, blocks: seq<MemoryBlock>)
    requires (forall t :: t in ctxt ==> t in sizes) && AllRegistered(ctxt, log) && forall t :: t in Order(log) ==> t in ctxt && t in life
    requires Allocated(ctxt, Roots(AliasesOf(ctxt)), Order(log), life, sizes, s, level, patternIdx, offset, size, blocks)
    requires Deployed(ctxt, Roots(AliasesOf(ctxt)), log, sizes, s, level, patternIdx, offset, size, blocks)
    ensures Served(ctxt, Roots(AliasesOf(ctxt)), log, sizes, s, level, offset, size, blocks)
  {
    hide Order, Safe, Exact, Roots, CostOf, CostsOf, Snug, JustRoomy, Roomy, Kinds, Life, Owns, AtGlobalHome, Shared, StandsFor, Apart;
    var root := Roots(AliasesOf(ctxt));
    var kinds := Kinds(ctxt, root, blocks, level);
    NamesAreOrder(blocks, Order(log), life, patternIdx);
    forall q | 0 <= q < |log| ensures log[q].name in Names(blocks) { LoggedInOrder(log, q); }
    forall k | 0 <= k < |blocks| ensures KindMeans(ctxt, root, level, blocks, k, kinds[k]) { KindIs(ctxt, root, level, blocks, k); }
    forall k | 0 <= k < |blocks| && kinds[k].Placed?
      ensures OwnRange(ctxt, sizes, s, offset, size, blocks[k])
    {
      assert Housed(blocks[k], CostOf(s, ctxt[blocks[k].name], [], sizes[blocks[k].name]), offset, size);
    }
    forall k, l | 0 <= k < |blocks| && 0 <= l < |blocks| && k != l && OwnTogether(ctxt, root, level, Names(blocks), log, blocks[k].name, blocks[l].name)
      ensures Apart(blocks[k], blocks[l])
    {
      assert kinds[k].Placed? && kinds[l].Placed? && !blocks[k].Collides(blocks[l]);
      AliveTogether(ctxt, root, level, log, patternIdx, blocks, k, l);
    }
    forall k, l | 0 <= k < |blocks| && 0 <= l < |blocks| && StandsFor(ctxt, root, level, blocks[k].name, blocks[l].name)
      ensures blocks[k].addrSpace == blocks[l].addrSpace ||
        (blocks[k].addrSpace.None? && exists m :: 0 <= m < |blocks| && StandsFor(ctxt, root, level, blocks[l].name, blocks[m].name))
    {
      SharesRange(ctxt, root, level, blocks, k, l);
    }
  }

  /** Two that occur at a common step are alive together, so not to collide is to lie apart. */
  lemma AliveTogether(ctxt: Context, root: map<string, string>, level: string, log: seq<Mention>, patternIdx: nat, blocks: seq<MemoryBlock>,
                      k: nat, l: nat)
    requires k < |blocks| && l < |blocks| && OwnTogether(ctxt, root, level, Names(blocks), log, blocks[k].name, blocks[l].name)
    requires forall q, k :: 0 <= q < |log| && 0 <= k < |blocks| && blocks[k].name == log[q].name ==>
      blocks[k].lifetime.0 <= log[q].step + patternIdx <= blocks[k].lifetime.1
    requires blocks[k].addrSpace.Some? && blocks[l].addrSpace.Some? && !blocks[k].Collides(blocks[l])
    ensures Apart(blocks[k], blocks[l])
  {
    hide Owns;
    var q, r :| 0 <= q < |log| && 0 <= r < |log| && log[q].name == blocks[k].name && log[r].name == blocks[l].name && log[q].step == log[r].step;
    assert blocks[k].lifetime.0 <= log[q].step + patternIdx <= blocks[k].lifetime.1;
    assert blocks[l].lifetime.0 <= log[r].step + patternIdx <= blocks[l].lifetime.1;
  }

  lemma SharesRange(ctxt: Context, root: map<string, string>, level: string, blocks: seq<MemoryBlock>, k: nat, l: nat)
    requires Known(ctxt, root, blocks) && k < |blocks| && l < |blocks| && StandsFor(ctxt, root, level, blocks[k].name, blocks[l].name)
    requires Shared(blocks, Kinds(ctxt, root, blocks, level))
    ensures blocks[k].addrSpace == blocks[l].addrSpace ||
      (blocks[k].addrSpace.None? && exists m :: 0 <= m < |blocks| && StandsFor(ctxt, root, level, blocks[l].name, blocks[m].name))
  {
    hide Kinds, AtGlobalHome;
    var kinds := Kinds(ctxt, root, blocks, level);
    KindIs(ctxt, root, level, blocks, k);
    KindIs(ctxt, root, level, blocks, l);
    assert Names(blocks)[l] == blocks[l].name;
    assert kinds[k] == InPlace(blocks[l].name);
    if kinds[l].InPlace? {
      var m :| 0 <= m < |blocks| && Names(blocks)[m] == kinds[l].target;
      assert StandsFor(ctxt, root, level, blocks[l].name, blocks[m].name);
    }
  }

  ghost predicate KindMeans(ctxt: Context, root: map<string, string>, level: string, blocks: seq<MemoryBlock>, k: nat, kind: Kind)
    requires k < |blocks|
  {
    && (kind.Placed? <==> Owns(ctxt, root, level, Names(blocks), blocks[k].name))
    && (kind.Home? <==> AtGlobalHome(ctxt, root, level, blocks[k].name))
    && forall u :: kind == InPlace(u) <==> u in Names(blocks) && StandsFor(ctxt, root, level, blocks[k].name, u)
  }

  lemma KindIs(ctxt: Context, root: map<string, string>, level: string, blocks: seq<MemoryBlock>, k: nat)
    requires Known(ctxt, root, blocks) && k < |blocks|
    ensures KindMeans(ctxt, root, level, blocks, k, Kinds(ctxt, root, blocks, level)[k])
  {
  }

  /** Under the training scheduler an input is alive through the whole schedule, so the ranges of the
      other placed blocks of its level stay clear of it. */
  lemma {:induction false} InputBytesNotReused(ctxt: Context, root: map<string, string>, log: seq<Mention>, maxStep: nat, tile: bool, life: map<string, Interval>,
                            sizes: map<string, TensorSize>, s: Assignment, level: string, patternIdx: nat, offset: int, size: int,
                            blocks: seq<MemoryBlock>)
    requires Known(ctxt, root, blocks) && forall t :: t in ctxt ==> t in sizes
    requires AllRegistered(ctxt, log) && Chronological(log) && forall q :: 0 <= q < |log| ==> log[q].step < maxStep
    requires LevelLifetimes(ctxt, root, log, maxStep, tile, true, life) && CoversUse(ctxt, log, life, maxStep)
    requires BlocksOf(blocks, Order(log), life, patternIdx)
    requires Deployed(ctxt, root, log, sizes, s, level, patternIdx, offset, size, blocks)
    ensures InputsApart(ctxt, root, level, blocks)
  {
    hide Order, CostOf, Kinds, LevelLifetimes, CoversUse, Chronological;
    var kinds := Kinds(ctxt, root, blocks, level);
    forall k, l | 0 <= k < |blocks| && 0 <= l < |blocks| && k != l && kinds[k].Placed? && kinds[l].Placed? && ctxt[blocks[k].name].isInput
      ensures Apart(blocks[k], blocks[l])
    {
      assert blocks[k].name == Order(log)[k];
      TrainingInputWhole(ctxt, root, log, maxStep, tile, life, blocks[k].name);
      WholeApart(ctxt, log, maxStep, life, patternIdx, blocks, k, l);
    }
  }

  lemma WholeApart(ctxt: Context, log: seq<Mention>, maxStep: nat, life: map<string, Interval>, patternIdx: nat,
                   blocks: seq<MemoryBlock>, k: nat, l: nat)
    requires BlocksOf(blocks, Order(log), life, patternIdx) && CoversUse(ctxt, log, life, maxStep)
    requires k < |blocks| && l < |blocks|
    ensures life[blocks[k].name] == (0, maxStep) && blocks[k].addrSpace.Some? && blocks[l].addrSpace.Some? && !blocks[k].Collides(blocks[l]) ==>
      Apart(blocks[k], blocks[l])
  {
    hide Order;
    assert Order(log)[l] in Order(log);
    assert life[blocks[l].name].1 <= maxStep;
  }

  // ----- what the tiled code relies on -----

  /** One base per buffer; a single None without a range. */
  function GetBaseAddr(addrSpace: Option<(int, int)>, multiBuffer: nat): seq<Option<int>>
    requires multiBuffer > 0
  {
    match addrSpace
    case None => [None]
    case Some((start, end)) =>
      var bufferSize := (end - start) / multiBuffer;
      seq(multiBuffer, i requires 0 <= i < multiBuffer => Some(start + bufferSize * i))
  }

  /** From each base on there are this many bytes of the range, shared with no other base. */
  ghost predicate RoomAtEach(range: (int, int), bases: seq<Option<int>>, width: int) {
    && (forall i :: 0 <= i < |bases| ==> bases[i].Some? && range.0 <= bases[i].value && bases[i].value + width <= range.1)
    && (forall i, j :: 0 <= i < |bases| && 0 <= j < |bases| && i != j ==>
          bases[i].value + width <= bases[j].value || bases[j].value + width <= bases[i].value)
  }

  ghost predicate WordAligned(bases: seq<Option<int>>) {
    forall i :: 0 <= i < |bases| ==> bases[i].Some? && bases[i].value % BYTE_ALIGNMENT == 0
  }

  /** A range of at least so many bytes for each buffer has room for each. */
  lemma BuffersFit(range: (int, int), m: nat, width: nat)
    requires m > 0 && width * m <= range.1 - range.0
    ensures |GetBaseAddr(Some(range), m)| == m && RoomAtEach(range, GetBaseAddr(Some(range), m), width)
  {
    var bases := GetBaseAddr(Some(range), m);
    var share := (range.1 - range.0) / m;
    LargestShare(range.1 - range.0, m, width);
    forall i | 0 <= i < m ensures range.0 <= bases[i].value && bases[i].value + width <= range.1 {
      StepsApart(share, i, m);
    }
    forall i, j | 0 <= i < m && 0 <= j < m && i != j
      ensures bases[i].value + width <= bases[j].value || bases[j].value + width <= bases[i].value
    {
      if i < j { StepsApart(share, i, j); } else { StepsApart(share, j, i); }
    }
  }

  lemma LargestShare(total: int, m: nat, width: nat)
    requires m > 0 && width * m <= total
    ensures width <= total / m && total / m * m <= total
  {
    var q := total / m;
    assert total == q * m + total % m;
    assert q < width ==> (q + 1) * m <= width * m;
  }

  lemma BaseAt(range: (int, int), m: nat, share: int)
    requires m > 0 && share == (range.1 - range.0) / m
    ensures var bases := GetBaseAddr(Some(range), m);
      |bases| == m && forall i :: 0 <= i < m ==> bases[i] == Some(range.0 + share * i)
  {
  }

  lemma AlignedMultiples(start: int, share: int, bases: seq<Option<int>>)
    requires start % BYTE_ALIGNMENT == 0 && bases != []
    requires forall i :: 0 <= i < |bases| ==> bases[i] == Some(start + share * i)
    ensures WordAligned(bases) <==> |bases| == 1 || share % BYTE_ALIGNMENT == 0
  {
    if |bases| == 1 {
      assert bases[0] == Some(start);
    } else if share % BYTE_ALIGNMENT == 0 {
      AllAligned(start, share, bases);
    } else {
      assert bases[1] == Some(start + share);
    }
  }

  lemma AllAligned(start: int, share: int, bases: seq<Option<int>>)
    requires start % BYTE_ALIGNMENT == 0 && share % BYTE_ALIGNMENT == 0
    requires forall i :: 0 <= i < |bases| ==> bases[i] == Some(start + share * i)
    ensures WordAligned(bases)
  {
    forall i | 0 <= i < |bases| ensures bases[i].value % BYTE_ALIGNMENT == 0 { AlignedAt(start, share, i); }
  }

  lemma AlignedAt(start: int, share: int, i: nat)
    requires start % BYTE_ALIGNMENT == 0 && share % BYTE_ALIGNMENT == 0
    ensures (start + share * i) % BYTE_ALIGNMENT == 0
  {
    MultipleOfFour(share, i);
    var x := share * i;
    assert x % BYTE_ALIGNMENT == 0;
  }

  /** Whatever whole words a tensor has in each of its n buffers, a tensor in place of it that has m
      starts all of its own on word boundaries, exactly when m divides n. */
  lemma InPlaceBasesAlignedIff(start: int, n: nat, m: nat)
    requires n > 0 && m > 0 && start % BYTE_ALIGNMENT == 0
    ensures (forall width: nat :: width % BYTE_ALIGNMENT == 0 ==> WordAligned(GetBaseAddr(Some((start, start + width * n)), m))) <==> n % m == 0
  {
    hide WordAligned, GetBaseAddr;
    if n % m == 0 {
      forall width: nat | width % BYTE_ALIGNMENT == 0 ensures WordAligned(GetBaseAddr(Some((start, start + width * n)), m)) {
        DividedShare(width, n, m);
        BaseAt((start, start + width * n), m, width * (n / m));
        AlignedMultiples(start, width * (n / m), GetBaseAddr(Some((start, start + width * n)), m));
      }
    } else {
      var x := UnevenWords(n, m);
      var width, share := BYTE_ALIGNMENT * x, BYTE_ALIGNMENT * x * n / m;
      BaseAt((start, start + width * n), m, share);
      AlignedMultiples(start, share, GetBaseAddr(Some((start, start + width * n)), m));
      assert !WordAligned(GetBaseAddr(Some((start, start + width * n)), m));
    }
  }

  lemma DividedShare(width: nat, n: nat, m: nat)
    requires m > 0 && n % m == 0 && width % BYTE_ALIGNMENT == 0
    ensures width * n / m == width * (n / m) && width * (n / m) % BYTE_ALIGNMENT == 0
  {
    var q := n / m;
    assert n == q * m;
    assert width * n == width * q * m;
    ExactShare(width * q, m);
    MultipleOfFour(width, q);
  }

  /** A number of words in each of n buffers that does not split into m buffers of whole words. */
  lemma UnevenWords(n: nat, m: nat) returns (x: nat)
    requires m > 0 && n % m != 0
    ensures BYTE_ALIGNMENT * x * n / m % BYTE_ALIGNMENT != 0
  {
    x := SomeBytesOver(n % m, m);
    var y, q := x * (n % m), x * (n / m);
    assert x * n == q * m + y by {
      assert n == n / m * m + n % m;
      assert x * (n / m * m + n % m) == x * (n / m) * m + x * (n % m);
    }
    assert BYTE_ALIGNMENT * x * n == 4 * (q * m + y);
    PartOfWord(q, m, y);
  }

  lemma SomeBytesOver(r: nat, m: nat) returns (x: nat)
    requires 0 < r < m
    ensures m <= 4 * (x * r) < 4 * m
  {
    if 4 * r >= m { return 1; }
    var d := 4 * r;
    x := (m + d - 1) / d;
    assert m + d - 1 == x * d + (m + d - 1) % d;
    assert x * d == 4 * (x * r);
  }

  lemma PartOfWord(q: nat, m: nat, y: nat)
    requires m > 0 && m <= 4 * y < 4 * m
    ensures 4 * (q * m + y) / m % 4 != 0
  {
    var part := if 4 * y < 2 * m then 1 else if 4 * y < 3 * m then 2 else 3;
    assert (4 * q + part) * m == 4 * (q * m) + part * m;
    Quotient(4 * (q * m + y), m, 4 * q + part);
  }

  lemma Quotient(total: int, m: nat, q: int)
    requires q * m <= total < q * m + m
    ensures total / m == q
  {
    var r := total / m;
    assert total == r * m + total % m;
    assert r < q ==> (r + 1) * m <= q * m;
    assert r > q ==> (q + 1) * m <= r * m;
  }

  lemma StepsApart(w: nat, i: nat, j: nat)
    requires i < j
    ensures 0 <= w * i && w * i + w <= w * j
  {
    assert w * (i + 1) == w * i + w;
    assert w * (i + 1) <= w * j;
  }

  /** Where the buffers of a placed tensor start: for each, single or not, there is room for a tile in
      the tensor's range; in a snug level the range is exactly the cost and every buffer starts on a word. */
  lemma TensorBases(ctxt: Context, root: map<string, string>, log: seq<Mention>, sizes: map<string, TensorSize>, s: Assignment,
                    level: string, patternIdx: nat, offset: int, size: int, blocks: seq<MemoryBlock>, k: nat)
    requires Known(ctxt, root, blocks) && (forall t :: t in ctxt ==> t in sizes) && k < |blocks|
    requires Deployed(ctxt, root, log, sizes, s, level, patternIdx, offset, size, blocks) && Kinds(ctxt, root, blocks, level)[k].Placed?
    requires sizes[blocks[k].name].multiBuffer > 0 && Value(s, sizes[blocks[k].name].size) >= 0
    ensures var t, b := sizes[blocks[k].name], ctxt[blocks[k].name];
      var width, m, bases := WordCost(Value(s, t.size), TypeWidth(b, t)), t.multiBuffer, GetBaseAddr(blocks[k].addrSpace, t.multiBuffer);
      && blocks[k].addrSpace.Some? && |bases| == m
      && HoldsBits(width, Value(s, t.size), b, t.(multiBuffer := 1)) && RoomAtEach(blocks[k].addrSpace.value, bases, width)
      && (m == 1 ==> WordAligned(bases))
      && (Snug(blocks, Kinds(ctxt, root, blocks, level)) ==>
            blocks[k].addrSpace.value.1 - blocks[k].addrSpace.value.0 == width * m && WordAligned(bases))
  {
    hide Order, WordCost, Kinds, GetBaseAddr, RoomAtEach, WordAligned, Value, Snug;
    var t, b := sizes[blocks[k].name], ctxt[blocks[k].name];
    var width, range := WordCost(Value(s, t.size), TypeWidth(b, t)), blocks[k].addrSpace.value;
    assert Housed(blocks[k], CostOf(s, b, [], t), offset, size);
    CostHoldsBits(s, b, [], t.(multiBuffer := 1));
    WordCostMonotone(Value(s, t.size), Value(s, t.size), TypeWidth(b, t));
    BuffersFit(range, t.multiBuffer, width);
    BaseAt(range, t.multiBuffer, (range.1 - range.0) / t.multiBuffer);
    AlignedMultiples(range.0, (range.1 - range.0) / t.multiBuffer, GetBaseAddr(Some(range), t.multiBuffer));
    if Snug(blocks, Kinds(ctxt, root, blocks, level)) {
      assert Tight(blocks[k], CostOf(s, b, [], t));
      ExactShare(width, t.multiBuffer);
    }
  }

  /** A block in place of another has a number of buffers that divides the other's. */
  ghost predicate CountsDivide(blocks: seq<MemoryBlock>, kinds: seq<Kind>, sizes: map<string, TensorSize>)
    requires |kinds| == |blocks| && forall k :: 0 <= k < |blocks| ==> blocks[k].name in sizes && sizes[blocks[k].name].multiBuffer > 0
  {
    forall k, l :: 0 <= k < |blocks| && 0 <= l < |blocks| && kinds[k] == InPlace(blocks[l].name) ==>
      sizes[blocks[l].name].multiBuffer % sizes[blocks[k].name].multiBuffer == 0
  }

  /** A block with a range has that of a placed block, its own or the one at the end of its links, whose
      buffer count its own divides. */
  lemma {:induction false} HolderOf(ctxt: Context, sizes: map<string, TensorSize>, level: string, blocks: seq<MemoryBlock>, k: nat, hops: nat)
    returns (l: nat)
    requires Known(ctxt, Roots(AliasesOf(ctxt)), blocks) && (forall t :: t in ctxt ==> t in sizes && sizes[t].multiBuffer > 0) && k < |blocks|
    requires var kinds := Kinds(ctxt, Roots(AliasesOf(ctxt)), blocks, level);
      Shared(blocks, kinds) && HomesUnplaced(blocks, kinds) && CountsDivide(blocks, kinds, sizes)
    requires blocks[k].addrSpace.Some? && Hop(AliasesOf(ctxt), blocks[k].name, hops) == Some(Roots(AliasesOf(ctxt))[blocks[k].name])
    ensures l < |blocks| && Kinds(ctxt, Roots(AliasesOf(ctxt)), blocks, level)[l].Placed? && blocks[l].addrSpace == blocks[k].addrSpace
    ensures sizes[blocks[l].name].multiBuffer % sizes[blocks[k].name].multiBuffer == 0
    decreases hops
  {
    hide Roots;
    var aliases, root := AliasesOf(ctxt), Roots(AliasesOf(ctxt));
    var kinds := Kinds(ctxt, root, blocks, level);
    l := k;
    if !kinds[k].Placed? {
      assert kinds[k] == KindOf(ctxt, root, Names(blocks), level, blocks[k].name) && kinds[k].InPlace?;
      var j :| 0 <= j < |blocks| && Names(blocks)[j] == kinds[k].target;
      assert EndsIn(aliases, blocks[k].name, root[blocks[k].name]);
      assert hops > 0 && Hop(aliases, blocks[j].name, hops - 1) == Some(root[blocks[k].name]);
      assert EndsIn(aliases, blocks[j].name, root[blocks[k].name]);
      l := HolderOf(ctxt, sizes, level, blocks, j, hops - 1);
      DividesOn(sizes[blocks[l].name].multiBuffer, sizes[blocks[j].name].multiBuffer, sizes[blocks[k].name].multiBuffer);
    }
  }

  lemma DividesOn(a: nat, b: nat, c: nat)
    requires b > 0 && c > 0 && a % b == 0 && b % c == 0
    ensures a % c == 0
  {
    assert a == a / b * b && b == b / c * c;
    assert a == a / b * (b / c) * c;
    ExactShare(a / b * (b / c), c);
  }

  /** In a snug level the buffers of every tensor with a range, in place or not, start on words, as long
      as in-place tensors have counts that divide those of their targets. */
  lemma RangeSplits(ctxt: Context, log: seq<Mention>, sizes: map<string, TensorSize>, s: Assignment,
                    level: string, patternIdx: nat, offset: int, size: int, blocks: seq<MemoryBlock>, k: nat)
    requires Known(ctxt, Roots(AliasesOf(ctxt)), blocks) && (forall t :: t in ctxt ==> t in sizes && sizes[t].multiBuffer > 0) && k < |blocks|
    requires Deployed(ctxt, Roots(AliasesOf(ctxt)), log, sizes, s, level, patternIdx, offset, size, blocks)
    requires var kinds := Kinds(ctxt, Roots(AliasesOf(ctxt)), blocks, level);
      Snug(blocks, kinds) && Shared(blocks, kinds) && HomesUnplaced(blocks, kinds) && CountsDivide(blocks, kinds, sizes)
    requires blocks[k].addrSpace.Some? && forall t :: t in ctxt ==> Value(s, sizes[t].size) >= 0
    ensures var range, m := blocks[k].addrSpace.value, sizes[blocks[k].name].multiBuffer;
      range.0 % BYTE_ALIGNMENT == 0 && (range.1 - range.0) / m % BYTE_ALIGNMENT == 0 && WordAligned(GetBaseAddr(Some(range), m))
  {
    hide Order, WordCost, GetBaseAddr, WordAligned, Value, Snug, Roots, Shared, CountsDivide, Kinds;
    var root := Roots(AliasesOf(ctxt));
    var hops := HopsToRoot(ctxt, blocks[k].name);
    var l := HolderOf(ctxt, sizes, level, blocks, k, hops);
    var t, b, m := sizes[blocks[l].name], ctxt[blocks[l].name], sizes[blocks[k].name].multiBuffer;
    var width, range := WordCost(Value(s, t.size), TypeWidth(b, t)), blocks[l].addrSpace.value;
    assert Tight(blocks[l], CostOf(s, b, [], t)) && Housed(blocks[l], CostOf(s, b, [], t), offset, size);
    WordCostMonotone(Value(s, t.size), Value(s, t.size), TypeWidth(b, t));
    DividedShare(width, t.multiBuffer, m);
    BaseAt(range, m, width * (t.multiBuffer / m));
    AlignedMultiples(range.0, width * (t.multiBuffer / m), GetBaseAddr(Some(range), m));
  }

  lemma NamesAreOrder(blocks: seq<MemoryBlock>, order: seq<string>, life: map<string, Interval>, patternIdx: nat)
    requires BlocksOf(blocks, order, life, patternIdx)
    ensures forall t :: t in order ==> t in Names(blocks)
  {
    assert forall k :: 0 <= k < |order| ==> Names(blocks)[k] == order[k];
  }

  lemma HopsToRoot(ctxt: Context, t: string) returns (hops: nat)
    requires t in Roots(AliasesOf(ctxt))
    ensures Hop(AliasesOf(ctxt), t, hops) == Some(Roots(AliasesOf(ctxt))[t])
  {
    assert EndsIn(AliasesOf(ctxt), t, Roots(AliasesOf(ctxt))[t]);
    hops :| Hop(AliasesOf(ctxt), t, hops) == Some(Roots(AliasesOf(ctxt))[t]);
  }

  /** A tensor's constraint in a level, with the range it is annotated with. */
  datatype MemoryConstraint = MemoryConstraint(addrSpace: Option<(int, int)>, multiBuffer: nat)

  /** annotateMemoryLevel for the tensors of a pattern in one level: a tensor at home there, unless it is
      transient, gets no range, any other that of its block; None when it has none. */
  method AnnotateMemoryLevel(ctxt: Context, level: string, tensors: seq<string>, sizes: map<string, TensorSize>, blocks: seq<MemoryBlock>)
    returns (r: Option<seq<MemoryConstraint>>)
    requires DistinctBlocks(blocks) && forall t :: t in tensors ==> t in ctxt && t in sizes
    ensures r.None? <==> exists t :: t in tensors && !AtHome(ctxt, level, t) && t !in Names(blocks)
    ensures r.Some? ==> |r.value| == |tensors| && forall i :: 0 <= i < |tensors| ==>
      && r.value[i].multiBuffer == sizes[tensors[i]].multiBuffer
      && (AtHome(ctxt, level, tensors[i]) ==> r.value[i].addrSpace.None?)
      && (!AtHome(ctxt, level, tensors[i]) ==>
            exists k :: 0 <= k < |blocks| && blocks[k].name == tensors[i] && r.value[i].addrSpace == blocks[k].addrSpace)
  {
    var annotated: seq<MemoryConstraint> := [];
    for i := 0 to |tensors|
      invariant |annotated| == i
      invariant forall j :: 0 <= j < i ==> AtHome(ctxt, level, tensors[j]) || tensors[j] in Names(blocks)
      invariant forall j :: 0 <= j < i ==> annotated[j].multiBuffer == sizes[tensors[j]].multiBuffer
      invariant forall j :: 0 <= j < i && AtHome(ctxt, level, tensors[j]) ==> annotated[j].addrSpace.None?
      invariant forall j :: 0 <= j < i && !AtHome(ctxt, level, tensors[j]) ==>
        exists k :: 0 <= k < |blocks| && blocks[k].name == tensors[j] && annotated[j].addrSpace == blocks[k].addrSpace
    {
      var t := tensors[i];
      assert t in tensors;
      var addrSpace: Option<(int, int)> := None;
      if !AtHome(ctxt, level, t) {
        if t !in Names(blocks) { return None; }
        var k := FindBlock(blocks, t);
        addrSpace := blocks[k].addrSpace;
      }
      annotated := annotated + [MemoryConstraint(addrSpace, sizes[t].multiBuffer)];
    }
    r := Some(annotated);
  }

  predicate AtHome(ctxt: Context, level: string, t: string)
    requires t in ctxt
  {
    ctxt[t].homeLevel == level && !ctxt[t].transient
  }

  /** The tensors of a level that get a range here are those the tile scheduler places in it. */
  lemma AnnotatedIff(ctxt: Context, steps: seq<seq<TensorConstraint>>, level: string, s: nat, k: nat)
    requires Registered(ctxt, steps) && s < |steps| && k < |steps[s]| && level in steps[s][k].levels && ctxt[steps[s][k].name].deploy
    ensures var t := steps[s][k].name;
      && (!AtHome(ctxt, level, t) <==> t in Order(Mentions(ctxt, steps, level, true)))
      && (t in Order(Mentions(ctxt, steps, level, false)) <==> AtHome(ctxt, level, t) && !ctxt[t].constant)
  {
    hide Kept;
    var t := steps[s][k].name;
    KeptMeans(ctxt[t], steps[s][k].levels, level);
    forall tile ensures t in Order(Mentions(ctxt, steps, level, tile)) <==> Kept(ctxt[t], steps[s][k].levels, level, tile) {
      if Kept(ctxt[t], steps[s][k].levels, level, tile) {
        MentionLogged(ctxt, steps, level, tile, s, k);
        var q :| 0 <= q < |Mentions(ctxt, steps, level, tile)| && Mentions(ctxt, steps, level, tile)[q] == Mention(s, t);
        LoggedInOrder(Mentions(ctxt, steps, level, tile), q);
      }
      if t in Order(Mentions(ctxt, steps, level, tile)) {
        var log := Mentions(ctxt, steps, level, tile);
        OrderMentioned(log, t);
        var q :| 0 <= q < |log| && log[q].name == t;
        assert Mention(log[q].step, t) == log[q];
        LoggedIsKept(ctxt, steps, level, tile, log[q].step, t);
        var i :| 0 <= i < |steps[log[q].step]| && steps[log[q].step][i].name == t && Kept(ctxt[t], steps[log[q].step][i].levels, level, tile);
        KeptMeans(ctxt[t], steps[log[q].step][i].levels, level);
      }
    }
  }

  /** testTilingSolutionCorrectness, over all constraints of a solution in the order it visits them. */
  method TestTilingSolutionCorrectness(constraints: seq<MemoryConstraint>) returns (ok: bool)
    ensures ok <==> forall c :: c in constraints && c.addrSpace.Some? ==>
      c.multiBuffer > 0 && (c.addrSpace.value.1 - c.addrSpace.value.0) / c.multiBuffer % BYTE_ALIGNMENT == 0
  {
    for i := 0 to |constraints|
      invariant forall c :: c in constraints[..i] && c.addrSpace.Some? ==>
        c.multiBuffer > 0 && (c.addrSpace.value.1 - c.addrSpace.value.0) / c.multiBuffer % BYTE_ALIGNMENT == 0
    {
      var c := constraints[i];
      if c.addrSpace.Some? {
        if c.multiBuffer == 0 { return false; }
        var bufferSize := (c.addrSpace.value.1 - c.addrSpace.value.0) / c.multiBuffer;
        if bufferSize % BYTE_ALIGNMENT != 0 { return false; }
      }
    }
    assert constraints[..|constraints|] == constraints;
    ok := true;
  }

  lemma ExactShare(width: int, m: nat)
    requires m > 0
    ensures width * m / m == width
  {
    var q := width * m / m;
    assert width * m == q * m + width * m % m;
    assert q < width ==> (q + 1) * m <= width * m;
    assert q > width ==> (width + 1) * m <= q * m;
  }

  /** A pattern annotated from the blocks of a snug level passes the test, with or without in-place tensors. */
  method AnnotatedPasses(ctxt: Context, ghost log: seq<Mention>, sizes: map<string, TensorSize>, ghost s: Assignment,
                         level: string, ghost patternIdx: nat, ghost offset: int, ghost size: int, blocks: seq<MemoryBlock>, tensors: seq<string>)
    returns (ok: bool)
    requires Known(ctxt, Roots(AliasesOf(ctxt)), blocks) && (forall t :: t in ctxt ==> t in sizes && sizes[t].multiBuffer > 0) && DistinctBlocks(blocks)
    requires Deployed(ctxt, Roots(AliasesOf(ctxt)), log, sizes, s, level, patternIdx, offset, size, blocks)
    requires var kinds := Kinds(ctxt, Roots(AliasesOf(ctxt)), blocks, level);
      Snug(blocks, kinds) && Shared(blocks, kinds) && HomesUnplaced(blocks, kinds) && CountsDivide(blocks, kinds, sizes)
    requires forall t :: t in ctxt ==> Value(s, sizes[t].size) >= 0
    requires forall t :: t in tensors ==> t in ctxt && (AtHome(ctxt, level, t) || t in Names(blocks))
    ensures ok
  {
    hide Order, WordCost, Kinds, Names, Deployed, Snug, Shared, HomesUnplaced, CountsDivide, Roots, Value, WordAligned, GetBaseAddr;
    var annotated := AnnotateMemoryLevel(ctxt, level, tensors, sizes, blocks);
    forall c | c in annotated.value && c.addrSpace.Some?
      ensures c.multiBuffer > 0 && (c.addrSpace.value.1 - c.addrSpace.value.0) / c.multiBuffer % BYTE_ALIGNMENT == 0
    {
      var i :| 0 <= i < |annotated.value| && annotated.value[i] == c;
      var k :| 0 <= k < |blocks| && blocks[k].name == tensors[i] && c.addrSpace == blocks[k].addrSpace;
      RangeSplits(ctxt, log, sizes, s, level, patternIdx, offset, size, blocks, k);
    }
    ok := TestTilingSolutionCorrectness(annotated.value);
  }

  /** A pattern of one step, from its constraints to the test: whatever the tile scheduler allocates for it
      passes, when in-place tensors have buffer counts that divide those of their targets, as they have
      when a level has one count for all. */
  method OneStepPasses(ctxt: Context, steps: seq<seq<TensorConstraint>>, sizes: map<string, TensorSize>, level: string, training: bool,
                       strategy: Strategy, others: seq<Constraint>, solve: seq<Constraint> -> Option<Assignment>,
                       offset: int, size: int, reserved: Term, patternIdx: nat, tensors: seq<string>)
    returns (r: Option<seq<MemoryBlock>>, ok: bool)
    requires Registered(ctxt, steps) && |steps| <= 1 && TransientsOwn(ctxt) && Sound(solve) && TilerOnly(others) && TilerTerm(reserved)
    requires forall t :: t in ctxt ==> t in sizes && Sizeable(sizes[t]) && sizes[t].multiBuffer > 0
    requires forall s, t :: AllHold(s, others) && t in ctxt ==> SizeInRange(s, sizes[t])
    requires strategy.TetrisRandom? ==>
      var n := |Order(Mentions(ctxt, steps, level, true))|; Permutation(strategy.permutation, if n == 0 then 1 else n)
    requires forall t :: t in ctxt && ctxt[t].alias.Some? && ctxt[t].alias.value in ctxt ==>
      sizes[ctxt[t].alias.value].multiBuffer % sizes[t].multiBuffer == 0
    requires forall t :: t in tensors ==> t in ctxt && (AtHome(ctxt, level, t) || t in Order(Mentions(ctxt, steps, level, true)))
    ensures r.Some? ==> ok
  {
    hide Mentions, Order, Roots, Deployed, Snug, InPlaceApart, InputsApart, Stackable, CostsOf, Safe, Shared, HomesUnplaced, LevelLifetimes,
      CoversUse, AllHold, Complete, PositiveSizes, TransientsOwn, Registered, TilerOnly, TilerTerm, Sizeable, Sound, Resolvable, BlocksOf, Exact, Served;
    ghost var log, root := Mentions(ctxt, steps, level, true), Roots(AliasesOf(ctxt));
    ok := true;
    var solution;
    ghost var life;
    solution, r, life := AllocateLevel(ctxt, steps, sizes, level, true, training, strategy, others, solve, offset, size, reserved, patternIdx);
    if r.Some? {
      assert forall t :: t in ctxt ==> SizeInRange(solution.value, sizes[t]);
      NamesAreOrder(r.value, Order(log), life, patternIdx);
      ok := AnnotatedPasses(ctxt, log, sizes, solution.value, level, patternIdx, offset, size - Value(solution.value, reserved), r.value, tensors);
    }
  }
}
