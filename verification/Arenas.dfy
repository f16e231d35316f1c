/** The static arena of a memory level: how large it is, and where in it the buffers end up. */
module Arenas {
  import opened Options
  import opened Aliases
  import opened Lifetimes
  import opened Placement

  predicate IsGlobal(ctxt: Context, name: string) {
    name in ctxt && ctxt[name].isGlobal
  }

  /** Whether a block's end counts towards the arena: not for an alias of a global buffer or of
      another block of the pattern. */
  predicate Counts(ctxt: Context, names: seq<string>, name: string)
    requires name in ctxt
  {
    ctxt[name].alias.None? || !(IsGlobal(ctxt, ctxt[name].alias.value) || ctxt[name].alias.value in names)
  }

  type Range = Option<(int, int)>

  ghost predicate AllKnown(ctxt: Context, names: seq<seq<string>>) {
    forall p, k :: 0 <= p < |names| && 0 <= k < |names[p]| ==> names[p][k] in ctxt
  }

  ghost predicate Shaped(names: seq<seq<string>>, ranges: seq<seq<Range>>) {
    |names| == |ranges| && forall p :: 0 <= p < |names| ==> |names[p]| == |ranges[p]|
  }

  /** Block k of pattern p counts. */
  ghost predicate CountsAt(ctxt: Context, names: seq<seq<string>>, p: nat, k: nat)
    requires AllKnown(ctxt, names) && p < |names| && k < |names[p]|
  {
    Counts(ctxt, names[p], names[p][k])
  }

  predicate EndsBy(r: Range, bound: int) { r.Some? && r.value.1 <= bound }

  predicate EndsAt(r: Range, bound: int) { r.Some? && r.value.1 == bound }

  /** The least bound from zero up on the ends of the blocks that count. */
  ghost predicate IsArena(ctxt: Context, names: seq<seq<string>>, ranges: seq<seq<Range>>, bound: int)
    requires AllKnown(ctxt, names) && Shaped(names, ranges)
  {
    && 0 <= bound
    && (forall p, k :: 0 <= p < |names| && 0 <= k < |names[p]| && CountsAt(ctxt, names, p, k) ==> EndsBy(ranges[p][k], bound))
    && (bound == 0 || exists p, k ::
          0 <= p < |names| && 0 <= k < |names[p]| && CountsAt(ctxt, names, p, k) && EndsAt(ranges[p][k], bound))
  }

  ghost function NamesOf(patterns: seq<seq<MemoryBlock>>): (r: seq<seq<string>>)
    ensures |r| == |patterns|
  {
    seq(|patterns|, p requires 0 <= p < |patterns| => Names(patterns[p]))
  }

  ghost function Ranges(pattern: seq<MemoryBlock>): (r: seq<Range>)
    reads pattern
    ensures |r| == |pattern| && forall k :: 0 <= k < |pattern| ==> r[k] == pattern[k].addrSpace
    decreases |pattern|
  {
    if pattern == [] then [] else Ranges(pattern[..|pattern| - 1]) + [pattern[|pattern| - 1].addrSpace]
  }

  ghost function RangesOf(patterns: seq<seq<MemoryBlock>>): (r: seq<seq<Range>>)
    reads set p, k | 0 <= p < |patterns| && 0 <= k < |patterns[p]| :: patterns[p][k]
    ensures |r| == |patterns| && forall p :: 0 <= p < |patterns| ==> r[p] == Ranges(patterns[p])
    decreases |patterns|
  {
    if patterns == [] then [] else RangesOf(patterns[..|patterns| - 1]) + [Ranges(patterns[|patterns| - 1])]
  }

  /** The arena size of a level; None when a block that counts has no address. */
  method ArenaSize(ctxt: Context, patterns: seq<seq<MemoryBlock>>) returns (r: Option<int>)
    requires AllKnown(ctxt, NamesOf(patterns))
    ensures r.None? <==> exists p, k ::
      0 <= p < |patterns| && 0 <= k < |patterns[p]| && CountsAt(ctxt, NamesOf(patterns), p, k) && patterns[p][k].addrSpace.None?
    ensures r.Some? ==> IsArena(ctxt, NamesOf(patterns), RangesOf(patterns), r.value)
  {
    ghost var names := NamesOf(patterns);
    var currentMax := 0;
    for p := 0 to |patterns|
      invariant 0 <= currentMax
      invariant forall q, k ::
        0 <= q < p && 0 <= k < |patterns[q]| && CountsAt(ctxt, names, q, k) ==> EndsBy(patterns[q][k].addrSpace, currentMax)
      invariant currentMax == 0 || exists q, k ::
          0 <= q < p && 0 <= k < |patterns[q]| && CountsAt(ctxt, names, q, k) && EndsAt(patterns[q][k].addrSpace, currentMax)
    {
      var here := Names(patterns[p]);
      for i := 0 to |patterns[p]|
        invariant 0 <= currentMax
        invariant forall q, k ::
          0 <= q < p && 0 <= k < |patterns[q]| && CountsAt(ctxt, names, q, k) ==> EndsBy(patterns[q][k].addrSpace, currentMax)
        invariant forall k :: 0 <= k < i && CountsAt(ctxt, names, p, k) ==> EndsBy(patterns[p][k].addrSpace, currentMax)
        invariant currentMax == 0 || exists q, k ::
            && 0 <= q <= p && 0 <= k < (if q == p then i else |patterns[q]|)
            && CountsAt(ctxt, names, q, k) && EndsAt(patterns[q][k].addrSpace, currentMax)
      {
        var b := patterns[p][i];
        assert names[p][i] == b.name;
        if Counts(ctxt, here, b.name) {
          assert CountsAt(ctxt, names, p, i);
          if b.addrSpace.None? { return None; }
          if b.addrSpace.value.1 > currentMax { currentMax := b.addrSpace.value.1; }
        }
      }
    }
    r := Some(currentMax);
  }

  /** Resolving aliases follows their links, and ends in buffers that are no alias. */
  ghost predicate Follows(ctxt: Context, root: map<string, string>) {
    forall t :: t in ctxt && t in root ==>
      && root[t] in ctxt && ctxt[root[t]].alias.None?
      && (if ctxt[t].alias.None? then root[t] == t else ctxt[t].alias.value in root && root[t] == root[ctxt[t].alias.value])
  }

  /** Resolving the aliases of a context follows their links. */
  lemma RootsFollow(ctxt: Context)
    ensures Follows(ctxt, Roots(AliasesOf(ctxt)))
  {
    var aliases := AliasesOf(ctxt);
    forall t | t in ctxt && t in Roots(aliases)
      ensures ctxt[t].alias.None? ==> Roots(aliases)[t] == t
      ensures ctxt[t].alias.Some? ==>
        ctxt[t].alias.value in Roots(aliases) && Roots(aliases)[t] == Roots(aliases)[ctxt[t].alias.value]
    {
      var k: nat :| Hop(aliases, t, k) == Some(Roots(aliases)[t]);
      if ctxt[t].alias.None? {
        assert k == 0;
      } else {
        assert Hop(aliases, ctxt[t].alias.value, k - 1) == Some(Roots(aliases)[t]);
        assert EndsIn(aliases, ctxt[t].alias.value, Roots(aliases)[t]);
      }
    }
  }

  /** Whether the code allocates the buffer of this block inside its level's arena. */
  predicate Emitted(ctxt: Context, names: seq<string>, level: string, name: string)
    requires name in ctxt
  {
    ctxt[name].homeLevel == level
    && !(ctxt[name].alias.Some? && IsGlobal(ctxt, ctxt[name].alias.value) && ctxt[name].alias.value !in names)
  }

  /** The block whose range a buffer is given: its own, or for an alias of a block of the pattern that
      of the buffer underneath. */
  function BaseName(ctxt: Context, root: map<string, string>, names: seq<string>, name: string): string
    requires name in ctxt && name in root
  {
    if ctxt[name].alias.Some? && ctxt[name].alias.value in names then root[name] else name
  }

  /** The offset of a base block in a pattern; None when it is not there or has no address. */
  ghost function OffsetIn(pattern: seq<MemoryBlock>, base: string): Option<int>
    reads pattern
  {
    if exists j :: 0 <= j < |pattern| && pattern[j].name == base && pattern[j].addrSpace.Some? then
      var j :| 0 <= j < |pattern| && pattern[j].name == base && pattern[j].addrSpace.Some?;
      Some(pattern[j].addrSpace.value.0)
    else None
  }

  lemma OffsetOf(pattern: seq<MemoryBlock>, j: nat)
    requires DistinctBlocks(pattern) && j < |pattern|
    ensures OffsetIn(pattern, pattern[j].name) == if pattern[j].addrSpace.Some? then Some(pattern[j].addrSpace.value.0) else None
  {}

  lemma NoOffset(pattern: seq<MemoryBlock>, base: string)
    requires base !in Names(pattern)
    ensures OffsetIn(pattern, base).None?
  {
    forall j | 0 <= j < |pattern| ensures pattern[j].name != base { assert Names(pattern)[j] == pattern[j].name; }
  }

  /** The arena offset of every buffer a pattern allocates; None where the source raises. */
  method EmitOffsets(ctxt: Context, root: map<string, string>, level: string, pattern: seq<MemoryBlock>) returns (r: Option<map<string, int>>)
    requires DistinctBlocks(pattern) && Known(ctxt, root, pattern)
    ensures r.None? <==> exists k ::
      && 0 <= k < |pattern| && Emitted(ctxt, Names(pattern), level, pattern[k].name)
      && OffsetIn(pattern, BaseName(ctxt, root, Names(pattern), pattern[k].name)).None?
    ensures r.Some? ==> forall k :: 0 <= k < |pattern| ==>
      (pattern[k].name in r.value <==> Emitted(ctxt, Names(pattern), level, pattern[k].name))
    ensures r.Some? ==> forall k :: 0 <= k < |pattern| && pattern[k].name in r.value ==>
      OffsetIn(pattern, BaseName(ctxt, root, Names(pattern), pattern[k].name)) == Some(r.value[pattern[k].name])
  {
    var names, offsets: map<string, int> := Names(pattern), map[];
    hide OffsetIn, Names;
    for k := 0 to |pattern|
      invariant offsets.Keys <= set i | 0 <= i < k :: pattern[i].name
      invariant forall i :: 0 <= i < k ==> (pattern[i].name in offsets <==> Emitted(ctxt, names, level, pattern[i].name))
      invariant forall i :: 0 <= i < k && pattern[i].name in offsets ==>
        OffsetIn(pattern, BaseName(ctxt, root, names, pattern[i].name)) == Some(offsets[pattern[i].name])
    {
      var name := pattern[k].name;
      if ctxt[name].homeLevel != level { continue; }
      if ctxt[name].alias.Some? && IsGlobal(ctxt, ctxt[name].alias.value) && ctxt[name].alias.value !in names { continue; }
      var base := k;
      if ctxt[name].alias.Some? && ctxt[name].alias.value in names {
        if root[name] !in names {
          NoOffset(pattern, root[name]);
          return None;
        }
        base := FindBlock(pattern, root[name]);
      }
      OffsetOf(pattern, base);
      if pattern[base].addrSpace.None? { return None; }
      offsets := offsets[name := pattern[base].addrSpace.value.0];
    }
    r := Some(offsets);
  }

  /** A base with a range is placed, and counts. */
  lemma BaseIsPlaced(ctxt: Context, root: map<string, string>, pattern: seq<MemoryBlock>, level: string, k: nat, j: nat)
    requires Known(ctxt, root, pattern) && Follows(ctxt, root) && k < |pattern| && j < |pattern|
    requires Emitted(ctxt, Names(pattern), level, pattern[k].name)
    requires pattern[j].name == BaseName(ctxt, root, Names(pattern), pattern[k].name)
    ensures Counts(ctxt, Names(pattern), pattern[j].name) && !Kinds(ctxt, root, pattern, level)[j].InPlace?
  {
    assert Names(pattern)[k] == pattern[k].name && Names(pattern)[j] == pattern[j].name;
  }

  /** Every buffer the level's code allocates starts inside the arena, with the bytes of the block it is
      given behind it, and apart from any other placed block that is alive at the same time. */
  lemma OffsetsInsideArena(ctxt: Context, root: map<string, string>, level: string, patterns: seq<seq<MemoryBlock>>, arena: int,
                           p: nat, costs: seq<int>, offset: int, size: int, k: nat, j: nat)
    requires AllKnown(ctxt, NamesOf(patterns)) && IsArena(ctxt, NamesOf(patterns), RangesOf(patterns), arena) && Follows(ctxt, root)
    requires p < |patterns| && Known(ctxt, root, patterns[p]) && DistinctBlocks(patterns[p]) && |costs| == |patterns[p]|
    requires var kinds := Kinds(ctxt, root, patterns[p], level); Safe(patterns[p], kinds, costs, offset, size) && HomesUnplaced(patterns[p], kinds)
    requires k < |patterns[p]| && Emitted(ctxt, Names(patterns[p]), level, patterns[p][k].name)
    requires j < |patterns[p]| && patterns[p][j].name == BaseName(ctxt, root, Names(patterns[p]), patterns[p][k].name)
    ensures patterns[p][j].addrSpace.Some?
    ensures var base := patterns[p][j];
      OffsetIn(patterns[p], base.name) == Some(base.addrSpace.value.0) && 0 <= base.addrSpace.value.0 && base.addrSpace.value.0 + costs[j] <= base.addrSpace.value.1 <= arena
    ensures forall l :: 0 <= l < |patterns[p]| && l != j && Kinds(ctxt, root, patterns[p], level)[l].Placed? ==>
      !patterns[p][j].Collides(patterns[p][l])
  {
    BaseIsPlaced(ctxt, root, patterns[p], level, k, j);
    assert CountsAt(ctxt, NamesOf(patterns), p, j);
    assert EndsBy(RangesOf(patterns)[p][j], arena);
    assert Kinds(ctxt, root, patterns[p], level)[j].Placed?;
    assert Housed(patterns[p][j], costs[j], offset, size);
  }

  /** A block that counts and has a range is a placed one. */
  lemma CountedIsPlaced(ctxt: Context, root: map<string, string>, pattern: seq<MemoryBlock>, level: string, k: nat)
    requires Known(ctxt, root, pattern) && HomesUnplaced(pattern, Kinds(ctxt, root, pattern, level))
    requires k < |pattern| && Counts(ctxt, Names(pattern), pattern[k].name) && pattern[k].addrSpace.Some?
    ensures Kinds(ctxt, root, pattern, level)[k].Placed?
  {
    assert Names(pattern)[k] == pattern[k].name;
  }

  /** When every pattern of a level is safe in the room it has there, the arena fits the level. */
  lemma ArenaFitsLevel(ctxt: Context, root: map<string, string>, level: string, patterns: seq<seq<MemoryBlock>>, arena: int,
                       costs: seq<seq<int>>, offset: int, rooms: seq<int>, size: int)
    requires AllKnown(ctxt, NamesOf(patterns)) && IsArena(ctxt, NamesOf(patterns), RangesOf(patterns), arena) && offset < size
    requires |costs| == |rooms| == |patterns| && forall p :: 0 <= p < |patterns| ==> rooms[p] <= size && |costs[p]| == |patterns[p]|
    requires forall p :: 0 <= p < |patterns| ==>
      && Known(ctxt, root, patterns[p])
      && Safe(patterns[p], Kinds(ctxt, root, patterns[p], level), costs[p], offset, rooms[p])
      && HomesUnplaced(patterns[p], Kinds(ctxt, root, patterns[p], level))
    ensures arena + offset < size
  {
    if arena != 0 {
      var names := NamesOf(patterns);
      var p, k :| 0 <= p < |names| && 0 <= k < |names[p]| && CountsAt(ctxt, names, p, k) && EndsAt(RangesOf(patterns)[p][k], arena);
      CountedIsPlaced(ctxt, root, patterns[p], level, k);
      assert Housed(patterns[p][k], costs[p][k], offset, rooms[p]);
    }
  }

  predicate AliasesGlobal(ctxt: Context, name: string) {
    name in ctxt && ctxt[name].alias.Some? && IsGlobal(ctxt, ctxt[name].alias.value)
  }

  /** Block k of pattern p is given a range of its own. */
  ghost predicate PlacedAt(ctxt: Context, root: map<string, string>, level: string, names: seq<seq<string>>, p: nat, k: nat)
    requires AllKnown(ctxt, names) && (forall t :: t in ctxt ==> t in root) && p < |names| && k < |names[p]|
  {
    KindOf(ctxt, root, names[p], level, names[p][k]).Placed?
  }

  ghost predicate CoversPlaced(ctxt: Context, root: map<string, string>, level: string, names: seq<seq<string>>, ranges: seq<seq<Range>>, bound: int)
    requires AllKnown(ctxt, names) && (forall t :: t in ctxt ==> t in root) && Shaped(names, ranges)
  {
    forall p, k :: 0 <= p < |names| && 0 <= k < |names[p]| && PlacedAt(ctxt, root, level, names, p, k) && ranges[p][k].Some? ==>
      EndsBy(ranges[p][k], bound)
  }

  /** Whatever ranges its blocks get, a level's arena covers all its placed blocks. */
  ghost predicate AlwaysCovers(ctxt: Context, root: map<string, string>, level: string, names: seq<seq<string>>)
    requires AllKnown(ctxt, names) && forall t :: t in ctxt ==> t in root
  {
    forall ranges, bound :: Shaped(names, ranges) && IsArena(ctxt, names, ranges, bound) ==>
      CoversPlaced(ctxt, root, level, names, ranges, bound)
  }

  /** The arena covers every placed block, whatever the ranges, exactly when no block placed in the level
      is an alias of a global buffer. */
  lemma ArenaCoversPlacedIff(ctxt: Context, root: map<string, string>, level: string, names: seq<seq<string>>)
    requires AllKnown(ctxt, names) && forall t :: t in ctxt ==> t in root
    ensures AlwaysCovers(ctxt, root, level, names) <==>
      forall p, k :: 0 <= p < |names| && 0 <= k < |names[p]| && PlacedAt(ctxt, root, level, names, p, k) ==> !AliasesGlobal(ctxt, names[p][k])
  {
    if forall p, k :: 0 <= p < |names| && 0 <= k < |names[p]| && PlacedAt(ctxt, root, level, names, p, k) ==> !AliasesGlobal(ctxt, names[p][k]) {
      forall ranges, bound | Shaped(names, ranges) && IsArena(ctxt, names, ranges, bound)
        ensures CoversPlaced(ctxt, root, level, names, ranges, bound)
      {
        forall p, k | 0 <= p < |names| && 0 <= k < |names[p]| && PlacedAt(ctxt, root, level, names, p, k) ensures EndsBy(ranges[p][k], bound) {
          assert CountsAt(ctxt, names, p, k);
        }
      }
    } else {
      var p, k :| 0 <= p < |names| && 0 <= k < |names[p]| && PlacedAt(ctxt, root, level, names, p, k) && AliasesGlobal(ctxt, names[p][k]);
      UncoveredAbove(ctxt, root, level, names, p, k);
    }
  }

  /** All blocks at one end, and one above it. */
  function OneAbove(names: seq<seq<string>>, p: nat, k: nat): (ranges: seq<seq<Range>>)
    ensures Shaped(names, ranges)
  {
    seq(|names|, q requires 0 <= q < |names| =>
      seq(|names[q]|, i requires 0 <= i < |names[q]| => Some((0, if q == p && i == k then 2 else 1))))
  }

  lemma UncoveredAbove(ctxt: Context, root: map<string, string>, level: string, names: seq<seq<string>>, p: nat, k: nat)
    requires AllKnown(ctxt, names) && (forall t :: t in ctxt ==> t in root) && p < |names| && k < |names[p]|
    requires PlacedAt(ctxt, root, level, names, p, k) && AliasesGlobal(ctxt, names[p][k])
    ensures !AlwaysCovers(ctxt, root, level, names)
  {
    var ranges := OneAbove(names, p, k);
    assert !CountsAt(ctxt, names, p, k);
    if q, i :| 0 <= q < |names| && 0 <= i < |names[q]| && CountsAt(ctxt, names, q, i) {
      assert EndsAt(ranges[q][i], 1);
      assert IsArena(ctxt, names, ranges, 1) && !CoversPlaced(ctxt, root, level, names, ranges, 1);
    } else {
      assert IsArena(ctxt, names, ranges, 0) && !CoversPlaced(ctxt, root, level, names, ranges, 0);
    }
  }

  /** A tile in L1 of an alias whose global target lives in L2 is placed, but no arena is made for it. */
  lemma TileOfGlobalAliasUncovered(tile: MemoryBlock)
    requires tile.name == "tile" && tile.addrSpace.Some? && tile.addrSpace.value.1 > 0
    ensures var ctxt := map["tile" := Buffer("L2", false, false, true, false, false, false, Some("weight")),
                            "weight" := Buffer("L2", false, false, true, true, false, true, None)];
      && KindOf(ctxt, map["tile" := "weight", "weight" := "weight"], ["tile"], "L1", "tile").Placed?
      && AllKnown(ctxt, NamesOf([[tile]])) && IsArena(ctxt, NamesOf([[tile]]), RangesOf([[tile]]), 0) && !EndsBy(tile.addrSpace, 0)
  {
    assert [[tile]][0] == [tile] && Names([tile]) == ["tile"] && NamesOf([[tile]]) == [["tile"]];
  }
}
