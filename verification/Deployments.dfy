/** A memory level end to end: from the constraints of its patterns to the arena and the offsets in it. */
module Deployments {
  import opened Options
  import opened Aliases
  import opened Lifetimes
  import opened Permutations
  import opened TilerModels
  import opened Allocator
  import opened Placement
  import opened Scheduling
  import opened Arenas

  /** A pattern of the level: the tile scheduler has one for each step, the outer one has one for all. */
  datatype Job = Job(steps: seq<seq<TensorConstraint>>, sizes: map<string, TensorSize>, tile: bool, training: bool, strategy: Strategy,
                     others: seq<Constraint>, solve: seq<Constraint> -> Option<Assignment>, reserved: Term, patternIdx: nat)

  ghost function LogOf(ctxt: Context, level: string, job: Job): seq<Mention>
    requires Registered(ctxt, job.steps)
  {
    Mentions(ctxt, job.steps, level, job.tile)
  }

  /** What the scheduler of a pattern is given. */
  ghost predicate Ready(ctxt: Context, level: string, job: Job) {
    && Registered(ctxt, job.steps) && Sound(job.solve) && TilerOnly(job.others) && TilerTerm(job.reserved)
    && (forall t :: t in ctxt ==> t in job.sizes && Sizeable(job.sizes[t]))
    && (forall s, t :: AllHold(s, job.others) && t in ctxt ==> SizeInRange(s, job.sizes[t]))
    && (forall s :: AllHold(s, job.others) ==> Value(s, job.reserved) >= 0)
    && (job.strategy.TetrisRandom? ==>
          var n := |Order(LogOf(ctxt, level, job))|; Permutation(job.strategy.permutation, if n == 0 then 1 else n))
  }

  /** The blocks of a pattern as its scheduler leaves them. */
  ghost predicate Settled(ctxt: Context, level: string, job: Job, s: Assignment, offset: int, size: int, blocks: seq<MemoryBlock>)
    requires Ready(ctxt, level, job)
    reads blocks
  {
    var root := Roots(AliasesOf(ctxt));
    && Known(ctxt, root, blocks) && DistinctBlocks(blocks)
    && HomesUnplaced(blocks, Kinds(ctxt, root, blocks, level)) && InPlaceApart(blocks, Kinds(ctxt, root, blocks, level))
    && Value(s, job.reserved) >= 0
    && Deployed(ctxt, root, LogOf(ctxt, level, job), job.sizes, s, level, job.patternIdx, offset, size - Value(s, job.reserved), blocks)
  }

  /** Every placed tensor at its full cost. */
  function FullCosts(ctxt: Context, sizes: map<string, TensorSize>, s: Assignment, blocks: seq<MemoryBlock>): (costs: seq<int>)
    requires forall k :: 0 <= k < |blocks| ==> blocks[k].name in ctxt && blocks[k].name in sizes
    ensures |costs| == |blocks|
  {
    seq(|blocks|, k requires 0 <= k < |blocks| => CostOf(s, ctxt[blocks[k].name], [], sizes[blocks[k].name]))
  }

  lemma SettledIsSafe(ctxt: Context, level: string, job: Job, s: Assignment, offset: int, size: int, blocks: seq<MemoryBlock>)
    requires Ready(ctxt, level, job) && Settled(ctxt, level, job, s, offset, size, blocks)
    ensures Safe(blocks, Kinds(ctxt, Roots(AliasesOf(ctxt)), blocks, level), FullCosts(ctxt, job.sizes, s, blocks), offset, size - Value(s, job.reserved))
  {
    hide CostOf, Kinds, Mentions, Order, Snug, Roots, InPlaceApart;
  }

  /** The pattern's part of the arena: every offset is the start of a placed block's range, the one of the
      buffer underneath, with all that block's bytes below the end of the arena and apart from every other
      placed block alive with it. */
  ghost predicate InArena(ctxt: Context, level: string, job: Job, s: Assignment, arena: int, blocks: seq<MemoryBlock>, offsets: map<string, int>)
    requires Known(ctxt, Roots(AliasesOf(ctxt)), blocks) && forall t :: t in ctxt ==> t in job.sizes
    reads blocks
  {
    var root := Roots(AliasesOf(ctxt));
    forall k :: 0 <= k < |blocks| && blocks[k].name in offsets ==>
      exists j :: 0 <= j < |blocks| && blocks[j].name == BaseName(ctxt, root, Names(blocks), blocks[k].name)
                  && AtBase(ctxt, level, job, s, arena, blocks, j, offsets[blocks[k].name])
  }

  ghost predicate AtBase(ctxt: Context, level: string, job: Job, s: Assignment, arena: int, blocks: seq<MemoryBlock>, j: nat, start: int)
    requires Known(ctxt, Roots(AliasesOf(ctxt)), blocks) && (forall t :: t in ctxt ==> t in job.sizes) && j < |blocks|
    reads blocks
  {
    var kinds := Kinds(ctxt, Roots(AliasesOf(ctxt)), blocks, level);
    && kinds[j].Placed? && blocks[j].addrSpace.Some? && blocks[j].addrSpace.value.0 == start
    && 0 <= start && blocks[j].addrSpace.value.1 <= arena && Roomy(ctxt, job.sizes, s, blocks[j])
    && forall l :: 0 <= l < |blocks| && l != j && kinds[l].Placed? ==> !blocks[j].Collides(blocks[l])
  }

  /** A block that counts towards the arena and has no range: an alias, through a buffer outside the
      pattern, of a global one at home here. */
  ghost predicate Addressless(ctxt: Context, level: string, patterns: seq<seq<MemoryBlock>>, p: nat, k: nat)
    requires AllKnown(ctxt, NamesOf(patterns)) && p < |patterns| && k < |patterns[p]| && Known(ctxt, Roots(AliasesOf(ctxt)), patterns[p])
  {
    CountsAt(ctxt, NamesOf(patterns), p, k) && Kinds(ctxt, Roots(AliasesOf(ctxt)), patterns[p], level)[k].Home?
  }

  /** A buffer the level allocates in place of one of the pattern, with the buffer underneath outside. */
  ghost predicate Baseless(ctxt: Context, level: string, blocks: seq<MemoryBlock>, k: nat)
    requires Known(ctxt, Roots(AliasesOf(ctxt)), blocks) && k < |blocks|
  {
    && Emitted(ctxt, Names(blocks), level, blocks[k].name)
    && BaseName(ctxt, Roots(AliasesOf(ctxt)), Names(blocks), blocks[k].name) !in Names(blocks)
  }

  /** What counts without a range is at home. */
  lemma AddresslessIff(ctxt: Context, level: string, job: Job, s: Assignment, offset: int, size: int, patterns: seq<seq<MemoryBlock>>, p: nat, k: nat)
    requires AllKnown(ctxt, NamesOf(patterns)) && p < |patterns| && k < |patterns[p]|
    requires Ready(ctxt, level, job) && Settled(ctxt, level, job, s, offset, size, patterns[p])
    ensures CountsAt(ctxt, NamesOf(patterns), p, k) && patterns[p][k].addrSpace.None? <==> Addressless(ctxt, level, patterns, p, k)
  {
    hide CostOf, Mentions, Order, Snug, Roots, InPlaceApart;
    assert NamesOf(patterns)[p][k] == patterns[p][k].name == Names(patterns[p])[k];
    if Kinds(ctxt, Roots(AliasesOf(ctxt)), patterns[p], level)[k].Placed? {
      assert Housed(patterns[p][k], CostOf(s, ctxt[patterns[p][k].name], [], job.sizes[patterns[p][k].name]), offset, size - Value(s, job.reserved));
    }
  }

  /** The offsets of one pattern in an arena made for it. */
  method EmitPattern(ctxt: Context, root: map<string, string>, level: string, ghost job: Job, ghost s: Assignment, ghost offset: int, ghost size: int,
                     patterns: seq<seq<MemoryBlock>>, p: nat, arena: int)
    returns (r: Option<map<string, int>>)
    requires root == Roots(AliasesOf(ctxt)) && p < |patterns| && Ready(ctxt, level, job) && Settled(ctxt, level, job, s, offset, size, patterns[p])
    requires AllKnown(ctxt, NamesOf(patterns)) && IsArena(ctxt, NamesOf(patterns), RangesOf(patterns), arena)
    ensures r.None? <==> exists k :: 0 <= k < |patterns[p]| && Baseless(ctxt, level, patterns[p], k)
    ensures r.Some? ==> EmittedInto(ctxt, level, job, s, arena, patterns[p], r.value)
  {
    hide Roots, Settled, IsArena, OffsetIn, Kinds, Names, NamesOf, RangesOf, Ready, AtBase, Emitted, BaseName, Allocates;
    SettledParts(ctxt, level, job, s, offset, size, patterns[p]);
    r := EmitOffsets(ctxt, root, level, patterns[p]);
    forall k | 0 <= k < |patterns[p]| && Emitted(ctxt, Names(patterns[p]), level, patterns[p][k].name)
      ensures EmittedWell(ctxt, level, job, s, arena, patterns[p], k)
    {
      EmittedFrom(ctxt, level, job, s, offset, size, patterns, p, arena, k);
    }
    forall k | 0 <= k < |patterns[p]|
      ensures Emitted(ctxt, Names(patterns[p]), level, patterns[p][k].name) <==> Allocates(ctxt, job, level, Names(patterns[p]), patterns[p][k].name)
    {
      EmittedIffAllocates(ctxt, level, job, s, offset, size, patterns[p], k);
    }
  }

  /** Either the buffer underneath is missing, or the offset read is a good one. */
  ghost predicate EmittedWell(ctxt: Context, level: string, job: Job, s: Assignment, arena: int, blocks: seq<MemoryBlock>, k: nat)
    requires Known(ctxt, Roots(AliasesOf(ctxt)), blocks) && (forall t :: t in ctxt ==> t in job.sizes) && k < |blocks|
    reads blocks
  {
    var base := BaseName(ctxt, Roots(AliasesOf(ctxt)), Names(blocks), blocks[k].name);
    if Baseless(ctxt, level, blocks, k) then OffsetIn(blocks, base).None?
    else
      && OffsetIn(blocks, base).Some?
      && exists j :: 0 <= j < |blocks| && blocks[j].name == base && AtBase(ctxt, level, job, s, arena, blocks, j, OffsetIn(blocks, base).value)
  }

  lemma EmittedFrom(ctxt: Context, level: string, job: Job, s: Assignment, offset: int, size: int, patterns: seq<seq<MemoryBlock>>, p: nat,
                    arena: int, k: nat)
    requires p < |patterns| && k < |patterns[p]| && Ready(ctxt, level, job) && Settled(ctxt, level, job, s, offset, size, patterns[p])
    requires AllKnown(ctxt, NamesOf(patterns)) && IsArena(ctxt, NamesOf(patterns), RangesOf(patterns), arena)
    requires Emitted(ctxt, Names(patterns[p]), level, patterns[p][k].name)
    ensures EmittedWell(ctxt, level, job, s, arena, patterns[p], k)
  {
    hide Roots, Settled, IsArena, OffsetIn, Safe, HomesUnplaced, FullCosts, Kinds, Names, NamesOf, RangesOf, Ready, Emitted, BaseName, Value, AtBase;
    var blocks, root := patterns[p], Roots(AliasesOf(ctxt));
    SettledParts(ctxt, level, job, s, offset, size, blocks);
    var base := BaseName(ctxt, root, Names(blocks), blocks[k].name);
    if base in Names(blocks) {
      var j := IndexOf(blocks, base);
      SettledIsSafe(ctxt, level, job, s, offset, size, blocks);
      AtItsBase(ctxt, level, job, s, offset, size - Value(s, job.reserved), patterns, p, arena, k, j);
    } else {
      NoOffset(blocks, base);
    }
  }

  lemma AtItsBase(ctxt: Context, level: string, job: Job, s: Assignment, offset: int, room: int, patterns: seq<seq<MemoryBlock>>, p: nat,
                  arena: int, k: nat, j: nat)
    requires p < |patterns| && k < |patterns[p]| && j < |patterns[p]| && Known(ctxt, Roots(AliasesOf(ctxt)), patterns[p])
    requires DistinctBlocks(patterns[p]) && forall t :: t in ctxt ==> t in job.sizes
    requires var kinds := Kinds(ctxt, Roots(AliasesOf(ctxt)), patterns[p], level);
      Safe(patterns[p], kinds, FullCosts(ctxt, job.sizes, s, patterns[p]), offset, room) && HomesUnplaced(patterns[p], kinds)
    requires AllKnown(ctxt, NamesOf(patterns)) && IsArena(ctxt, NamesOf(patterns), RangesOf(patterns), arena)
    requires Emitted(ctxt, Names(patterns[p]), level, patterns[p][k].name)
    requires patterns[p][j].name == BaseName(ctxt, Roots(AliasesOf(ctxt)), Names(patterns[p]), patterns[p][k].name)
    ensures OffsetIn(patterns[p], patterns[p][j].name).Some?
    ensures AtBase(ctxt, level, job, s, arena, patterns[p], j, OffsetIn(patterns[p], patterns[p][j].name).value)
  {
    hide Roots, IsArena, OffsetIn, Safe, HomesUnplaced, FullCosts, Kinds, Names, NamesOf, RangesOf, Emitted, BaseName;
    var blocks, root := patterns[p], Roots(AliasesOf(ctxt));
    RootsFollow(ctxt);
    BaseIsPlaced(ctxt, root, blocks, level, k, j);
    OffsetsInsideArena(ctxt, root, level, patterns, arena, p, FullCosts(ctxt, job.sizes, s, blocks), offset, room, k, j);
    HomeHasNoRange(blocks, Kinds(ctxt, root, blocks, level), j);
    RoomyAt(ctxt, level, job, s, offset, room, blocks, j);
  }

  lemma RoomyAt(ctxt: Context, level: string, job: Job, s: Assignment, offset: int, room: int, blocks: seq<MemoryBlock>, j: nat)
    requires Known(ctxt, Roots(AliasesOf(ctxt)), blocks) && (forall t :: t in ctxt ==> t in job.sizes) && j < |blocks|
    requires Safe(blocks, Kinds(ctxt, Roots(AliasesOf(ctxt)), blocks, level), FullCosts(ctxt, job.sizes, s, blocks), offset, room)
    ensures Kinds(ctxt, Roots(AliasesOf(ctxt)), blocks, level)[j].Placed? ==> Roomy(ctxt, job.sizes, s, blocks[j])
  {
    hide Roots, Kinds, CostOf, Roomy;
    if Kinds(ctxt, Roots(AliasesOf(ctxt)), blocks, level)[j].Placed? {
      assert Housed(blocks[j], FullCosts(ctxt, job.sizes, s, blocks)[j], offset, room);
      HousedIsRoomy(ctxt, job.sizes, s, offset, room, blocks[j]);
    }
  }

  lemma HomeHasNoRange(blocks: seq<MemoryBlock>, kinds: seq<Kind>, j: nat)
    requires |kinds| == |blocks| && HomesUnplaced(blocks, kinds) && j < |blocks|
    ensures blocks[j].addrSpace.Some? ==> !kinds[j].Home?
  {
  }

  lemma SettledParts(ctxt: Context, level: string, job: Job, s: Assignment, offset: int, size: int, blocks: seq<MemoryBlock>)
    requires Ready(ctxt, level, job) && Settled(ctxt, level, job, s, offset, size, blocks)
    ensures Known(ctxt, Roots(AliasesOf(ctxt)), blocks) && DistinctBlocks(blocks) && forall t :: t in ctxt ==> t in job.sizes
    ensures HomesUnplaced(blocks, Kinds(ctxt, Roots(AliasesOf(ctxt)), blocks, level))
  {
    hide Deployed, Roots, InPlaceApart;
  }

  lemma IndexOf(blocks: seq<MemoryBlock>, name: string) returns (j: nat)
    requires name in Names(blocks)
    ensures j < |blocks| && blocks[j].name == name
  {
    j :| j < |blocks| && Names(blocks)[j] == name;
  }

  /** The patterns of a level up to here are settled. */
  ghost predicate AllSettled(ctxt: Context, level: string, jobs: seq<Job>, solutions: seq<Assignment>, offset: int, size: int,
                             patterns: seq<seq<MemoryBlock>>)
    requires forall p :: 0 <= p < |jobs| ==> Ready(ctxt, level, jobs[p])
    reads set p, k | 0 <= p < |patterns| && 0 <= k < |patterns[p]| :: patterns[p][k]
  {
    |patterns| == |solutions| <= |jobs| &&
    forall p :: 0 <= p < |patterns| ==> Settled(ctxt, level, jobs[p], solutions[p], offset, size, patterns[p])
  }

  /** Schedules a pattern. */
  method SettlePattern(ctxt: Context, level: string, job: Job, offset: int, size: int)
    returns (solution: Option<Assignment>, r: Option<seq<MemoryBlock>>)
    requires Ready(ctxt, level, job)
    ensures r.Some? ==> solution.Some? && Settled(ctxt, level, job, solution.value, offset, size, r.value)
  {
    hide Deployed, Mentions, Order, Roots, Allocated, Resolvable, Stackable, Snug, InPlaceApart, InputsApart, LevelLifetimes, CoversUse, Complete,
      PositiveSizes, TransientsOwn, CostsOf, Registered, Sound, TilerOnly, TilerTerm, SizeInRange, AllHold, Value, Sizeable, Kinds, Known;
    ghost var life;
    solution, r, life := AllocateLevel(ctxt, job.steps, job.sizes, level, job.tile, job.training, job.strategy, job.others, job.solve,
                                       offset, size, job.reserved, job.patternIdx);
    if r.Some? { AllocatedParts(ctxt, level, job, life, solution.value, offset, size, r.value); }
  }

  /** Schedules one pattern after the other; short where the scheduler of one fails. */
  method SettleLevel(ctxt: Context, level: string, jobs: seq<Job>, offset: int, size: int)
    returns (solutions: seq<Assignment>, patterns: seq<seq<MemoryBlock>>)
    requires forall p :: 0 <= p < |jobs| ==> Ready(ctxt, level, jobs[p])
    ensures AllSettled(ctxt, level, jobs, solutions, offset, size, patterns)
  {
    hide Settled, Ready;
    solutions, patterns := [], [];
    for p := 0 to |jobs|
      invariant |patterns| == p && AllSettled(ctxt, level, jobs, solutions, offset, size, patterns)
    {
      var solution, r := SettlePattern(ctxt, level, jobs[p], offset, size);
      if r.None? { return; }
      solutions, patterns := solutions + [solution.value], patterns + [r.value];
    }
  }

  lemma AllocatedParts(ctxt: Context, level: string, job: Job, life: map<string, Interval>, s: Assignment, offset: int, size: int, blocks: seq<MemoryBlock>)
    requires Ready(ctxt, level, job)
    requires var order := Order(LogOf(ctxt, level, job));
      && (forall t :: t in order ==> t in ctxt && t in life)
      && Allocated(ctxt, Roots(AliasesOf(ctxt)), order, life, job.sizes, s, level, job.patternIdx, offset, size - Value(s, job.reserved), blocks)
    ensures Known(ctxt, Roots(AliasesOf(ctxt)), blocks) && DistinctBlocks(blocks)
    ensures HomesUnplaced(blocks, Kinds(ctxt, Roots(AliasesOf(ctxt)), blocks, level))
  {
  }

  /** A level, from its constraints to its arena. Every pattern is settled; then the arena fits the level
      next to the constants, and is refused exactly for a block that counts without a range. Every buffer
      of the level gets an offset with its bytes inside the arena, apart from all placed blocks alive with
      it, and this is refused exactly when the buffer underneath an alias is not in the pattern. */
  method DeployLevel(ctxt: Context, level: string, jobs: seq<Job>, offset: int, size: int)
    returns (solutions: seq<Assignment>, patterns: seq<seq<MemoryBlock>>, arena: Option<int>, offsets: Option<seq<map<string, int>>>)
    requires (forall p :: 0 <= p < |jobs| ==> Ready(ctxt, level, jobs[p])) && offset < size
    ensures AllSettled(ctxt, level, jobs, solutions, offset, size, patterns) && AllKnown(ctxt, NamesOf(patterns))
    ensures arena.Some? ==> |patterns| == |jobs| && IsArena(ctxt, NamesOf(patterns), RangesOf(patterns), arena.value) && arena.value + offset < size
    ensures |patterns| == |jobs| ==>
      (arena.None? <==> exists p, k :: 0 <= p < |patterns| && 0 <= k < |patterns[p]| && Addressless(ctxt, level, patterns, p, k))
    ensures offsets.Some? ==> arena.Some? && arena.value > 0 && |offsets.value| == |jobs|
    ensures arena.Some? && arena.value > 0 ==>
      (offsets.None? <==> exists p, k :: 0 <= p < |patterns| && 0 <= k < |patterns[p]| && Baseless(ctxt, level, patterns[p], k))
    ensures offsets.Some? ==> forall p :: 0 <= p < |jobs| ==>
      EmittedInto(ctxt, level, jobs[p], solutions[p], arena.value, patterns[p], offsets.value[p])
  {
    hide Settled, IsArena, EmittedInto, Roots, Baseless, Addressless, CountsAt, Ready, Known, RangesOf;
    arena, offsets := None, None;
    solutions, patterns := SettleLevel(ctxt, level, jobs, offset, size);
    SettledKnown(ctxt, level, jobs, solutions, offset, size, patterns);
    if |patterns| < |jobs| { return; }
    var root := ResolveAll(AliasesOf(ctxt));
    arena := ArenaSize(ctxt, patterns);
    forall p, k | 0 <= p < |patterns| && 0 <= k < |patterns[p]|
      ensures CountsAt(ctxt, NamesOf(patterns), p, k) && patterns[p][k].addrSpace.None? <==> Addressless(ctxt, level, patterns, p, k)
    {
      AddresslessIff(ctxt, level, jobs[p], solutions[p], offset, size, patterns, p, k);
    }
    if arena.None? { return; }
    ArenaFits(ctxt, level, jobs, solutions, offset, size, patterns, arena.value);
    if arena.value == 0 { return; }
    offsets := EmitLevel(ctxt, root, level, jobs, solutions, offset, size, patterns, arena.value);
  }

  /** The offsets of all patterns of a level. */
  method EmitLevel(ctxt: Context, root: map<string, string>, level: string, ghost jobs: seq<Job>, ghost solutions: seq<Assignment>,
                   ghost offset: int, ghost size: int, patterns: seq<seq<MemoryBlock>>, arena: int)
    returns (r: Option<seq<map<string, int>>>)
    requires root == Roots(AliasesOf(ctxt)) && (forall p :: 0 <= p < |jobs| ==> Ready(ctxt, level, jobs[p])) && |patterns| == |jobs|
    requires AllSettled(ctxt, level, jobs, solutions, offset, size, patterns)
    requires forall p :: 0 <= p < |patterns| ==> Known(ctxt, Roots(AliasesOf(ctxt)), patterns[p]) && forall t :: t in ctxt ==> t in jobs[p].sizes
    requires AllKnown(ctxt, NamesOf(patterns)) && IsArena(ctxt, NamesOf(patterns), RangesOf(patterns), arena)
    ensures r.None? <==> exists p, k :: 0 <= p < |patterns| && 0 <= k < |patterns[p]| && Baseless(ctxt, level, patterns[p], k)
    ensures r.Some? ==> |r.value| == |jobs| && forall p :: 0 <= p < |jobs| ==>
      EmittedInto(ctxt, level, jobs[p], solutions[p], arena, patterns[p], r.value[p])
  {
    hide Settled, IsArena, InArena, Roots, Emitted, Baseless, Ready, Known, NamesOf, RangesOf;
    var all: seq<map<string, int>> := [];
    for p := 0 to |patterns|
      invariant |all| == p
      invariant forall q, k :: 0 <= q < p && 0 <= k < |patterns[q]| ==> !Baseless(ctxt, level, patterns[q], k)
      invariant forall q :: 0 <= q < p ==> EmittedInto(ctxt, level, jobs[q], solutions[q], arena, patterns[q], all[q])
    {
      var emitted := EmitPattern(ctxt, root, level, jobs[p], solutions[p], offset, size, patterns, p, arena);
      if emitted.None? { return None; }
      all := all + [emitted.value];
    }
    r := Some(all);
  }

  /** Exactly the buffers the level allocates in a pattern have offsets, good ones. */
  ghost predicate EmittedInto(ctxt: Context, level: string, job: Job, s: Assignment, arena: int, blocks: seq<MemoryBlock>, offsets: map<string, int>)
    requires Known(ctxt, Roots(AliasesOf(ctxt)), blocks) && forall t :: t in ctxt ==> t in job.sizes
    reads blocks
  {
    && InArena(ctxt, level, job, s, arena, blocks, offsets)
    && forall k :: 0 <= k < |blocks| ==> (blocks[k].name in offsets <==> Allocates(ctxt, job, level, Names(blocks), blocks[k].name))
  }

  /** The outer pattern allocates every tensor it places in the arena, a tile pattern its transient ones at
      home there; neither an alias of a global buffer outside the pattern. */
  ghost predicate Allocates(ctxt: Context, job: Job, level: string, names: seq<string>, t: string)
    requires t in ctxt
  {
    && !(ctxt[t].alias.Some? && ctxt[t].alias.value in ctxt && ctxt[ctxt[t].alias.value].isGlobal && ctxt[t].alias.value !in names)
    && (job.tile ==> ctxt[t].transient && ctxt[t].homeLevel == level)
  }

  lemma EmittedIffAllocates(ctxt: Context, level: string, job: Job, s: Assignment, offset: int, size: int, blocks: seq<MemoryBlock>, k: nat)
    requires Ready(ctxt, level, job) && Settled(ctxt, level, job, s, offset, size, blocks) && k < |blocks|
    ensures Emitted(ctxt, Names(blocks), level, blocks[k].name) <==> Allocates(ctxt, job, level, Names(blocks), blocks[k].name)
  {
    hide Mentions, Order, Roots, InPlaceApart, HomesUnplaced, Snug, Names;
    assert blocks[k].name == Order(LogOf(ctxt, level, job))[k];
    OrderInScope(ctxt, job.steps, level, job.tile, blocks[k].name);
  }

  lemma SettledKnown(ctxt: Context, level: string, jobs: seq<Job>, solutions: seq<Assignment>, offset: int, size: int, patterns: seq<seq<MemoryBlock>>)
    requires (forall p :: 0 <= p < |jobs| ==> Ready(ctxt, level, jobs[p])) && AllSettled(ctxt, level, jobs, solutions, offset, size, patterns)
    ensures forall p :: 0 <= p < |patterns| ==> Known(ctxt, Roots(AliasesOf(ctxt)), patterns[p]) && forall t :: t in ctxt ==> t in jobs[p].sizes
    ensures AllKnown(ctxt, NamesOf(patterns))
  {
    hide Deployed, Roots, InPlaceApart;
    forall p, k | 0 <= p < |patterns| && 0 <= k < |patterns[p]| ensures NamesOf(patterns)[p][k] in ctxt {
      assert Known(ctxt, Roots(AliasesOf(ctxt)), patterns[p]) && Names(patterns[p])[k] == patterns[p][k].name;
    }
  }

  lemma ArenaFits(ctxt: Context, level: string, jobs: seq<Job>, solutions: seq<Assignment>, offset: int, size: int,
                  patterns: seq<seq<MemoryBlock>>, arena: int)
    requires (forall p :: 0 <= p < |jobs| ==> Ready(ctxt, level, jobs[p])) && AllSettled(ctxt, level, jobs, solutions, offset, size, patterns)
    requires AllKnown(ctxt, NamesOf(patterns)) && IsArena(ctxt, NamesOf(patterns), RangesOf(patterns), arena) && offset < size
    ensures arena + offset < size
  {
    hide Deployed, Roots, Safe, HomesUnplaced, FullCosts, Kinds, NamesOf, RangesOf, IsArena, Value;
    forall p | 0 <= p < |patterns|
      ensures Known(ctxt, Roots(AliasesOf(ctxt)), patterns[p]) && forall t :: t in ctxt ==> t in jobs[p].sizes
      ensures Safe(patterns[p], Kinds(ctxt, Roots(AliasesOf(ctxt)), patterns[p], level), FullCosts(ctxt, jobs[p].sizes, solutions[p], patterns[p]),
                   offset, size - Value(solutions[p], jobs[p].reserved))
    {
      SettledIsSafe(ctxt, level, jobs[p], solutions[p], offset, size, patterns[p]);
    }
    var costs := seq(|patterns|, p requires 0 <= p < |patterns| => FullCosts(ctxt, jobs[p].sizes, solutions[p], patterns[p]));
    var rooms := seq(|patterns|, p requires 0 <= p < |patterns| => size - Value(solutions[p], jobs[p].reserved));
    ArenaFitsLevel(ctxt, Roots(AliasesOf(ctxt)), level, patterns, arena, costs, offset, rooms, size);
  }
}
