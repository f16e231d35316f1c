/** Reading a solution back: the address range of every block of a pattern. */
module Placement {
  import opened Options
  import opened Lifetimes
  import opened Permutations
  import opened TilerModels
  import opened Heights
  import opened Allocator

  class MemoryBlock {
    const name: string
    const level: string
    const lifetime: Interval
    var addrSpace: Option<(int, int)>

    constructor (name: string, level: string, lifetime: Interval)
      requires lifetime.0 <= lifetime.1
      ensures this.name == name && this.level == level && this.lifetime == lifetime && addrSpace == None
    {
      this.name, this.level, this.lifetime, addrSpace := name, level, lifetime, None;
    }

    /** The setter; false where its ordering assertion fails. */
    method SetAddrSpace(lower: int, upper: int) returns (ok: bool)
      modifies this
      ensures ok <==> lower < upper
      ensures addrSpace == if ok then Some((lower, upper)) else old(addrSpace)
    {
      if lower >= upper { return false; }
      addrSpace := Some((lower, upper));
      return true;
    }

    /** Alive at a common step and sharing an address. */
    predicate Collides(other: MemoryBlock)
      reads this, other
    {
      && addrSpace.Some? && other.addrSpace.Some?
      && lifetime.0 <= other.lifetime.1 && lifetime.1 >= other.lifetime.0
      && addrSpace.value.0 < other.addrSpace.value.1 && addrSpace.value.1 > other.addrSpace.value.0
    }
  }

  /** How a block gets its address: an alias of a global buffer in its home level gets none here, an
      alias of another block of the pattern shares that block's, any other block is placed. */
  datatype Kind = Home | InPlace(target: string) | Placed

  function KindOf(ctxt: Context, root: map<string, string>, names: seq<string>, level: string, name: string): Kind
    requires name in ctxt && name in root
  {
    if root[name] != name && root[name] in ctxt && ctxt[root[name]].isGlobal && ctxt[name].homeLevel == level then Home
    else if ctxt[name].alias.Some? && ctxt[name].alias.value in names then InPlace(ctxt[name].alias.value)
    else Placed
  }

  /** The highest end among the first k blocks that are placed and overlap block i. */
  function Lower(kinds: seq<Kind>, lives: seq<Interval>, h: seq<int>, i: nat, k: nat): int
    requires |kinds| == |lives| == |h| && i < |h| && k <= |h|
  {
    if k == 0 then 0
    else
      var rest := Lower(kinds, lives, h, i, k - 1);
      if kinds[k - 1].Placed? && Overlap(lives[k - 1], lives[i]) && h[k - 1] > rest then h[k - 1] else rest
  }

  lemma {:induction false} LowerBounds(kinds: seq<Kind>, lives: seq<Interval>, h: seq<int>, i: nat, k: nat)
    requires |kinds| == |lives| == |h| && i < |h| && k <= |h|
    ensures Lower(kinds, lives, h, i, k) >= 0
    ensures forall j :: 0 <= j < k && kinds[j].Placed? && Overlap(lives[j], lives[i]) ==> h[j] <= Lower(kinds, lives, h, i, k)
    ensures Lower(kinds, lives, h, i, k) == 0 ||
      exists j :: 0 <= j < k && kinds[j].Placed? && Overlap(lives[j], lives[i]) && h[j] == Lower(kinds, lives, h, i, k)
  {
    if k > 0 { LowerBounds(kinds, lives, h, i, k - 1); }
  }

  // ----- why the ranges are safe -----

  /** The permuted blocks as values: interference and heights of a stacked solution. */
  ghost predicate Tower(lives: seq<Interval>, adj: Matrix, costs: seq<int>, h: seq<int>) {
    && |lives| == |costs| == |h| && ZeroOne(adj, |h|) && IsHeights(h, adj, costs)
    && (forall i :: 0 <= i < |costs| ==> 0 <= costs[i])
    && (forall i, j :: 0 <= i < |h| && 0 <= j < |h| && i != j ==> (adj[i][j] == 1 <==> Overlap(lives[i], lives[j])))
  }

  lemma {:induction false} TowerHeights(lives: seq<Interval>, adj: Matrix, costs: seq<int>, h: seq<int>, i: nat)
    requires Tower(lives, adj, costs, h) && i < |h|
    ensures costs[i] <= h[i]
    ensures forall j :: 0 <= j < i && Overlap(lives[j], lives[i]) ==> h[j] + costs[i] <= h[i]
    ensures h[i] == costs[i] || exists j :: 0 <= j < i && Overlap(lives[j], lives[i]) && h[i] == h[j] + costs[i]
  {
    assert IsHeight(h, adj, costs, i);
    if i > 0 {
      var e := Entries(h, adj, costs[i], i);
      forall j | 0 <= j < i
        ensures costs[i] <= e[j] && e[j] == costs[i] + if Overlap(lives[j], lives[i]) then h[j] else 0
      {
        TowerHeights(lives, adj, costs, h, j);
        EntryValue(h, adj, costs[i], i, j);
        OverlapSymmetric(lives[i], lives[j]);
      }
      assert e[0] <= MaxOf(e);
    }
  }

  lemma OverlapSymmetric(a: Interval, b: Interval)
    ensures Overlap(a, b) <==> Overlap(b, a)
  {
  }

  /** The range [Lower, H) of a block has room for its cost, and exactly its cost when every block of
      the pattern is placed; later overlapping blocks start above it. */
  lemma RangeFits(kinds: seq<Kind>, lives: seq<Interval>, adj: Matrix, costs: seq<int>, h: seq<int>, i: nat)
    requires Tower(lives, adj, costs, h) && |kinds| == |h| && i < |h|
    ensures 0 <= Lower(kinds, lives, h, i, i) <= h[i] - costs[i]
    ensures (forall j :: 0 <= j < i ==> kinds[j].Placed?) ==> h[i] - Lower(kinds, lives, h, i, i) == costs[i]
    ensures kinds[i].Placed? ==>
      forall j :: i < j < |h| && Overlap(lives[i], lives[j]) ==> h[i] <= Lower(kinds, lives, h, j, j)
  {
    TowerHeights(lives, adj, costs, h, i);
    LowerBounds(kinds, lives, h, i, i);
    forall j | 0 <= j < i ensures 0 <= h[j] { TowerHeights(lives, adj, costs, h, j); }
    forall j | i < j < |h| && Overlap(lives[i], lives[j]) && kinds[i].Placed? ensures h[i] <= Lower(kinds, lives, h, j, j) {
      LowerBounds(kinds, lives, h, j, j);
    }
  }

  /** The range is exactly the cost when no earlier overlapping block ends above the placed ones. */
  lemma RangeExactIff(kinds: seq<Kind>, lives: seq<Interval>, adj: Matrix, costs: seq<int>, h: seq<int>, i: nat)
    requires Tower(lives, adj, costs, h) && |kinds| == |h| && i < |h|
    ensures var lower := Lower(kinds, lives, h, i, i);
      h[i] - lower == costs[i] <==> forall j :: 0 <= j < i && Overlap(lives[j], lives[i]) ==> h[j] <= lower
  {
    TowerHeights(lives, adj, costs, h, i);
    LowerBounds(kinds, lives, h, i, i);
    RangeFits(kinds, lives, adj, costs, h, i);
  }

  /** Blocks without a range of their own cost nothing, and lift no block above the placed ones: what is
      alive together with such a block is all alive together. */
  ghost predicate Unlifted(kinds: seq<Kind>, lives: seq<Interval>, costs: seq<int>)
    requires |kinds| == |lives| == |costs|
  {
    && (forall j :: 0 <= j < |kinds| && !kinds[j].Placed? ==> costs[j] == 0)
    && (forall j, k, l :: 0 <= j < |kinds| && 0 <= k < |kinds| && 0 <= l < |kinds| && !kinds[j].Placed? ==>
          Overlap(lives[k], lives[j]) && Overlap(lives[j], lives[l]) ==> Overlap(lives[k], lives[l]))
  }

  lemma {:induction false} BelowPlaced(kinds: seq<Kind>, lives: seq<Interval>, adj: Matrix, costs: seq<int>, h: seq<int>, i: nat, j: nat)
    requires Tower(lives, adj, costs, h) && |kinds| == |h| && j < i < |h|
    requires Unlifted(kinds, lives, costs) && Overlap(lives[j], lives[i])
    ensures h[j] <= Lower(kinds, lives, h, i, i)
    decreases j
  {
    hide Lower, IsHeights;
    LowerBounds(kinds, lives, h, i, i);
    if !kinds[j].Placed? {
      TowerHeights(lives, adj, costs, h, j);
      if h[j] != 0 {
        var k :| 0 <= k < j && Overlap(lives[k], lives[j]) && h[j] == h[k] + costs[j];
        BelowPlaced(kinds, lives, adj, costs, h, i, k);
      }
    }
  }

  /** A range on top of unlifted blocks is exactly the cost, with or without in-place blocks below. */
  lemma UnliftedExact(kinds: seq<Kind>, lives: seq<Interval>, adj: Matrix, costs: seq<int>, h: seq<int>, i: nat)
    requires Tower(lives, adj, costs, h) && |kinds| == |h| && i < |h| && Unlifted(kinds, lives, costs)
    ensures h[i] - Lower(kinds, lives, h, i, i) == costs[i]
  {
    hide Lower, IsHeights, Unlifted;
    RangeExactIff(kinds, lives, adj, costs, h, i);
    forall j | 0 <= j < i && Overlap(lives[j], lives[i]) ensures h[j] <= Lower(kinds, lives, h, i, i) {
      BelowPlaced(kinds, lives, adj, costs, h, i, j);
    }
  }

  /** Word-aligned costs stack to word-aligned ranges. */
  lemma {:induction false} AlignedHeights(lives: seq<Interval>, adj: Matrix, costs: seq<int>, h: seq<int>, i: nat)
    requires Tower(lives, adj, costs, h) && i < |h|
    requires forall k :: 0 <= k < |costs| ==> costs[k] % BYTE_ALIGNMENT == 0
    ensures h[i] % BYTE_ALIGNMENT == 0
  {
    TowerHeights(lives, adj, costs, h, i);
    if h[i] != costs[i] {
      var j :| 0 <= j < i && Overlap(lives[j], lives[i]) && h[i] == h[j] + costs[i];
      AlignedHeights(lives, adj, costs, h, j);
    }
  }

  lemma AlignedLower(kinds: seq<Kind>, lives: seq<Interval>, adj: Matrix, costs: seq<int>, h: seq<int>, i: nat)
    requires Tower(lives, adj, costs, h) && |kinds| == |h| && i < |h|
    requires forall k :: 0 <= k < |costs| ==> costs[k] % BYTE_ALIGNMENT == 0
    ensures Lower(kinds, lives, h, i, i) % BYTE_ALIGNMENT == 0
  {
    LowerBounds(kinds, lives, h, i, i);
    if Lower(kinds, lives, h, i, i) != 0 {
      var j :| 0 <= j < i && kinds[j].Placed? && Overlap(lives[j], lives[i]) && h[j] == Lower(kinds, lives, h, i, i);
      AlignedHeights(lives, adj, costs, h, j);
    }
  }

  // ----- the addresses -----

  ghost predicate DistinctBlocks(blocks: seq<MemoryBlock>) {
    forall i, j :: 0 <= i < j < |blocks| ==> blocks[i] != blocks[j] && blocks[i].name != blocks[j].name
  }

  function Names(blocks: seq<MemoryBlock>): (r: seq<string>)
    ensures |r| == |blocks|
  {
    seq(|blocks|, i requires 0 <= i < |blocks| => blocks[i].name)
  }

  function Lives(blocks: seq<MemoryBlock>): (r: seq<Interval>)
    ensures |r| == |blocks|
  {
    seq(|blocks|, i requires 0 <= i < |blocks| => blocks[i].lifetime)
  }

  predicate Known(ctxt: Context, root: map<string, string>, blocks: seq<MemoryBlock>) {
    forall i :: 0 <= i < |blocks| ==> blocks[i].name in ctxt && blocks[i].name in root
  }

  function Kinds(ctxt: Context, root: map<string, string>, blocks: seq<MemoryBlock>, level: string): (r: seq<Kind>)
    requires Known(ctxt, root, blocks)
    ensures |r| == |blocks|
  {
    seq(|blocks|, i requires 0 <= i < |blocks| => KindOf(ctxt, root, Names(blocks), level, blocks[i].name))
  }

  /** The address of a placed block; None for the others. */
  ghost function AddressOf(kinds: seq<Kind>, lives: seq<Interval>, h: seq<int>, i: nat): Option<(int, int)>
    requires |kinds| == |lives| == |h| && i < |h|
  {
    if kinds[i].Placed? then Some((Lower(kinds, lives, h, i, i), h[i])) else None
  }

  /** A placed block's range is not empty. */
  ghost predicate RoomFor(kinds: seq<Kind>, lives: seq<Interval>, h: seq<int>, i: nat)
    requires |kinds| == |lives| == |h| && i < |h|
  {
    kinds[i].Placed? ==> Lower(kinds, lives, h, i, i) < h[i]
  }

  lemma LowerNext(kinds: seq<Kind>, lives: seq<Interval>, h: seq<int>, i: nat, k: nat)
    requires |kinds| == |lives| == |h| && i < |h| && k < |h|
    ensures Lower(kinds, lives, h, i, 0) == 0
    ensures var rest := Lower(kinds, lives, h, i, k);
      Lower(kinds, lives, h, i, k + 1) == if kinds[k].Placed? && Overlap(lives[k], lives[i]) && h[k] > rest then h[k] else rest
  {
  }

  lemma LivesAt(blocks: seq<MemoryBlock>, i: nat)
    requires i < |blocks|
    ensures Lives(blocks)[i] == blocks[i].lifetime
  {
  }

  method HighestOverlap(blocks: seq<MemoryBlock>, i: nat, ghost kinds: seq<Kind>, ghost h: seq<int>) returns (maxAddr: int)
    requires |kinds| == |h| == |blocks| && i < |blocks|
    requires forall j :: 0 <= j < i ==> blocks[j].addrSpace == AddressOf(kinds, Lives(blocks), h, j)
    requires forall j :: i <= j < |blocks| ==> blocks[j].addrSpace == None
    ensures maxAddr == Lower(kinds, Lives(blocks), h, i, i)
  {
    hide Lower, Lives;
    ghost var lives := Lives(blocks);
    LivesAt(blocks, i);
    LowerNext(kinds, lives, h, i, 0);
    maxAddr := 0;
    for idx := 0 to |blocks|
      invariant maxAddr == Lower(kinds, lives, h, i, if idx < i then idx else i)
    {
      var oldBlock := blocks[idx];
      LivesAt(blocks, idx);
      if idx < i { LowerNext(kinds, lives, h, i, idx); }
      if Overlap(oldBlock.lifetime, blocks[i].lifetime) && oldBlock.addrSpace.Some? {
        maxAddr := if oldBlock.addrSpace.value.1 > maxAddr then oldBlock.addrSpace.value.1 else maxAddr;
      }
    }
  }

  /** Addresses for the blocks of a permuted pattern; false where an address range is empty. */
  method PlaceBlocks(ctxt: Context, root: map<string, string>, blocks: seq<MemoryBlock>, s: Assignment, level: string)
    returns (ok: bool, aliased: seq<nat>)
    requires DistinctBlocks(blocks) && Known(ctxt, root, blocks)
    requires forall i :: 0 <= i < |blocks| ==> blocks[i].addrSpace == None
    modifies blocks
    ensures var kinds, h := Kinds(ctxt, root, blocks, level), HeightsAt(s, |blocks|);
      && (ok <==> forall i :: 0 <= i < |blocks| ==> RoomFor(kinds, Lives(blocks), h, i))
      && (ok ==> forall i :: 0 <= i < |blocks| ==> blocks[i].addrSpace == AddressOf(kinds, Lives(blocks), h, i))
      && (ok ==> forall i: nat :: i in aliased <==> i < |blocks| && kinds[i].InPlace?)
    ensures Increasing(aliased)
  {
    hide Lower, KindOf;
    ghost var kinds, h := Kinds(ctxt, root, blocks, level), HeightsAt(s, |blocks|);
    aliased := [];
    for i := 0 to |blocks|
      invariant forall j :: 0 <= j < i ==> blocks[j].addrSpace == AddressOf(kinds, Lives(blocks), h, j)
      invariant forall j :: i <= j < |blocks| ==> blocks[j].addrSpace == None
      invariant forall j :: 0 <= j < i ==> RoomFor(kinds, Lives(blocks), h, j)
      invariant forall j: nat :: j in aliased <==> j < i && kinds[j].InPlace?
      invariant Increasing(aliased) && forall a :: 0 <= a < |aliased| ==> aliased[a] < i
    {
      var kind := KindOf(ctxt, root, Names(blocks), level, blocks[i].name);
      assert kind == kinds[i];
      match kind {
        case Home =>
        case InPlace(_) => aliased := aliased + [i];
        case Placed =>
          var upperEnd := s(H(i));
          var lowerEnd := HighestOverlap(blocks, i, kinds, h);
          var placed := blocks[i].SetAddrSpace(lowerEnd, upperEnd);
          if !placed {
            assert !RoomFor(kinds, Lives(blocks), h, i);
            return false, aliased;
          }
      }
    }
    ok := true;
  }

  ghost predicate Increasing(s: seq<nat>) {
    forall a, b :: 0 <= a < b < |s| ==> s[a] < s[b]
  }

  /** An in-place block has the address range of the block it aliases; it has none when that block is an
      in-place one that is resolved later. */
  ghost predicate Resolved(blocks: seq<MemoryBlock>, kinds: seq<Kind>)
    requires |kinds| == |blocks|
    reads blocks
  {
    forall i, j :: 0 <= i < |blocks| && 0 <= j < |blocks| && kinds[i] == InPlace(blocks[j].name) ==>
      blocks[i].addrSpace == if !kinds[j].InPlace? || j < i then blocks[j].addrSpace else None
  }

  /** The same in any order of the blocks. */
  ghost predicate Shared(blocks: seq<MemoryBlock>, kinds: seq<Kind>)
    requires |kinds| == |blocks|
    reads blocks
  {
    forall i, j :: 0 <= i < |blocks| && 0 <= j < |blocks| && kinds[i] == InPlace(blocks[j].name) ==>
      blocks[i].addrSpace == blocks[j].addrSpace || (kinds[j].InPlace? && blocks[i].addrSpace.None?)
  }

  /** Aliased blocks take the address range of the block they alias. */
  method ResolveAliases(ctxt: Context, root: map<string, string>, blocks: seq<MemoryBlock>, aliased: seq<nat>, level: string)
    requires DistinctBlocks(blocks) && Known(ctxt, root, blocks)
    requires forall i: nat :: i in aliased <==> i < |blocks| && Kinds(ctxt, root, blocks, level)[i].InPlace?
    requires Increasing(aliased) && forall i :: i in aliased ==> blocks[i].addrSpace.None?
    modifies blocks
    ensures forall i :: 0 <= i < |blocks| && i !in aliased ==> blocks[i].addrSpace == old(blocks[i].addrSpace)
    ensures Resolved(blocks, Kinds(ctxt, root, blocks, level))
  {
    ghost var kinds := Kinds(ctxt, root, blocks, level);
    hide Kinds;
    for k := 0 to |aliased|
      invariant forall i :: 0 <= i < |blocks| && i !in aliased[..k] ==> blocks[i].addrSpace == old(blocks[i].addrSpace)
      invariant forall i, j :: 0 <= i < |blocks| && 0 <= j < |blocks| && i in aliased[..k] && kinds[i] == InPlace(blocks[j].name) ==>
        blocks[i].addrSpace == if !kinds[j].InPlace? || j < i then blocks[j].addrSpace else None
    {
      var i := aliased[k];
      assert i in aliased && i !in aliased[..k] && aliased[..k + 1] == aliased[..k] + [i];
      DoneBefore(aliased, k);
      assert kinds[i] == KindOf(ctxt, root, Names(blocks), level, blocks[i].name);
      var target := ctxt[blocks[i].name].alias.value;
      var j := FindBlock(blocks, target);
      blocks[i].addrSpace := blocks[j].addrSpace;
    }
    assert aliased[..|aliased|] == aliased;
  }

  lemma DoneBefore(s: seq<nat>, k: nat)
    requires Increasing(s) && k < |s|
    ensures forall j: nat :: j in s ==> (j in s[..k] <==> j < s[k])
  {
  }

  method FindBlock(blocks: seq<MemoryBlock>, name: string) returns (j: nat)
    requires name in Names(blocks) && DistinctBlocks(blocks)
    ensures j < |blocks| && blocks[j].name == name
  {
    j := 0;
    ghost var k: nat :| k < |blocks| && Names(blocks)[k] == name;
    while j < |blocks| && blocks[j].name != name
      invariant j <= k
    {
      j := j + 1;
    }
  }

  // ----- a pattern, end to end -----

  /** The blocks of a pattern, as scheduleMemoryConstraints creates them from its lifetimes. */
  ghost predicate BlocksOf(pattern: seq<MemoryBlock>, order: seq<string>, life: map<string, Interval>, patternIdx: nat) {
    && |pattern| == |order| && (forall t :: t in order ==> t in life && life[t].0 <= life[t].1)
    && forall k :: 0 <= k < |order| ==>
         pattern[k].name == order[k] && pattern[k].lifetime == (life[order[k]].0 + patternIdx, life[order[k]].1 + patternIdx)
  }

  /** No two placed blocks collide; every placed block has room for its cost, on word boundaries, and ends
      below the level's size. */
  ghost predicate Safe(pattern: seq<MemoryBlock>, kinds: seq<Kind>, costs: seq<int>, offset: int, size: int)
    requires |pattern| == |kinds| == |costs|
    reads pattern
  {
    && (forall k :: 0 <= k < |pattern| && kinds[k].Placed? ==> Housed(pattern[k], costs[k], offset, size))
    && (forall k, l :: 0 <= k < |pattern| && 0 <= l < |pattern| && k != l && kinds[k].Placed? && kinds[l].Placed? ==>
          !pattern[k].Collides(pattern[l]))
  }

  /** When no block is lifted, every placed one has exactly its cost. */
  ghost predicate Exact(pattern: seq<MemoryBlock>, kinds: seq<Kind>, costs: seq<int>)
    requires |pattern| == |kinds| == |costs|
    reads pattern
  {
    Unlifted(kinds, Lives(pattern), costs) ==> forall k :: 0 <= k < |pattern| && kinds[k].Placed? ==> Tight(pattern[k], costs[k])
  }

  ghost predicate Housed(b: MemoryBlock, cost: int, offset: int, size: int)
    reads b
  {
    && b.addrSpace.Some?
    && 0 <= b.addrSpace.value.0 && b.addrSpace.value.1 - b.addrSpace.value.0 >= cost
    && b.addrSpace.value.1 + offset < size
    && b.addrSpace.value.0 % BYTE_ALIGNMENT == 0 && b.addrSpace.value.1 % BYTE_ALIGNMENT == 0
  }

  /** Aliases of global buffers in their home level have no range here. */
  ghost predicate HomesUnplaced(pattern: seq<MemoryBlock>, kinds: seq<Kind>)
    requires |kinds| == |pattern|
    reads pattern
  {
    forall k :: 0 <= k < |pattern| && kinds[k].Home? ==> pattern[k].addrSpace.None?
  }

  ghost predicate Tight(b: MemoryBlock, cost: int)
    reads b
  {
    b.addrSpace.Some? && b.addrSpace.value.1 - b.addrSpace.value.0 == cost
  }

  /** Permuting a pattern keeps its blocks, their names and how each gets its address. */
  lemma PermutedBlocks(ctxt: Context, root: map<string, string>, pattern: seq<MemoryBlock>, p: seq<nat>, level: string)
    requires DistinctBlocks(pattern) && Known(ctxt, root, pattern) && Permutation(p, |pattern|)
    ensures var blocks := Permuted(pattern, p);
      && DistinctBlocks(blocks) && Known(ctxt, root, blocks)
      && (forall b :: b in blocks ==> b in pattern)
      && forall i :: 0 <= i < |p| ==> Kinds(ctxt, root, blocks, level)[i] == Kinds(ctxt, root, pattern, level)[p[i]]
  {
    var blocks := Permuted(pattern, p);
    forall i, j | 0 <= i < j < |p| ensures blocks[i] != blocks[j] && blocks[i].name != blocks[j].name {
      assert p[i] < p[j] || p[j] < p[i];
    }
    forall t ensures t in Names(blocks) <==> t in Names(pattern) {
      if t in Names(blocks) {
        var i :| 0 <= i < |blocks| && Names(blocks)[i] == t;
        assert Names(pattern)[p[i]] == t;
      }
      if t in Names(pattern) {
        var k :| 0 <= k < |pattern| && Names(pattern)[k] == t;
        var i := InverseAt(p, k);
        assert Names(blocks)[i] == t;
      }
    }
  }

  lemma PermutedTower(pattern: seq<MemoryBlock>, order: seq<string>, life: map<string, Interval>, patternIdx: nat,
                      costs: seq<Term>, s: Assignment, p: seq<nat>)
    requires BlocksOf(pattern, order, life, patternIdx) && |costs| == |pattern| && Permutation(p, |pattern|)
    requires CostsInRange(s, costs)
    requires IsHeights(HeightsAt(s, |costs|), PermutedMatrix(AdjacencyOf(order, life), p), Permuted(Values(s, costs), p))
    ensures Tower(Lives(Permuted(pattern, p)), PermutedMatrix(AdjacencyOf(order, life), p), Permuted(Values(s, costs), p), HeightsAt(s, |costs|))
  {
    var lives, adj := Lives(Permuted(pattern, p)), PermutedMatrix(AdjacencyOf(order, life), p);
    forall i, j | 0 <= i < |p| && 0 <= j < |p|
      ensures 0 <= adj[i][j] <= 1 && (i != j ==> (adj[i][j] == 1 <==> Overlap(lives[i], lives[j])))
    {
      assert adj[i][j] == Interference(order, life, p[i], p[j]);
      assert i < j ==> p[i] != p[j];
      assert j < i ==> p[j] != p[i];
    }
    forall i | 0 <= i < |p| ensures 0 <= Permuted(Values(s, costs), p)[i] {
      assert 0 <= Value(s, costs[p[i]]);
    }
  }

  lemma PlacedSafely(blocks: seq<MemoryBlock>, kinds: seq<Kind>, adj: Matrix, costs: seq<int>, h: seq<int>, offset: int, size: int)
    requires |kinds| == |blocks| == |costs| == |h| && Tower(Lives(blocks), adj, costs, h)
    requires forall k :: 0 <= k < |blocks| ==> blocks[k].lifetime.0 <= blocks[k].lifetime.1
    requires forall i :: 0 <= i < |blocks| && kinds[i].Placed? ==> blocks[i].addrSpace == AddressOf(kinds, Lives(blocks), h, i)
    requires forall i :: 0 <= i < |h| ==> h[i] + offset < size
    requires forall k :: 0 <= k < |costs| ==> costs[k] % BYTE_ALIGNMENT == 0
    ensures Safe(blocks, kinds, costs, offset, size) && Exact(blocks, kinds, costs)
  {
    var lives := Lives(blocks);
    forall i | 0 <= i < |blocks| && kinds[i].Placed?
      ensures Housed(blocks[i], costs[i], offset, size)
      ensures Unlifted(kinds, lives, costs) ==> Tight(blocks[i], costs[i])
    {
      if Unlifted(kinds, lives, costs) { UnliftedExact(kinds, lives, adj, costs, h, i); }
      RangeFits(kinds, lives, adj, costs, h, i);
      AlignedHeights(lives, adj, costs, h, i);
      AlignedLower(kinds, lives, adj, costs, h, i);
    }
    forall i, j | 0 <= i < j < |blocks| && kinds[i].Placed? && kinds[j].Placed?
      ensures !blocks[i].Collides(blocks[j]) && !blocks[j].Collides(blocks[i])
    {
      RangeFits(kinds, lives, adj, costs, h, i);
      assert Overlap(lives[i], lives[j]) ==> h[i] <= Lower(kinds, lives, h, j, j);
    }
  }

  lemma UnliftedPermuted(pattern: seq<MemoryBlock>, p: seq<nat>, kinds: seq<Kind>, permKinds: seq<Kind>, costs: seq<int>)
    requires Permutation(p, |pattern|) && |kinds| == |permKinds| == |costs| == |pattern|
    requires forall i :: 0 <= i < |p| ==> permKinds[i] == kinds[p[i]]
    requires Unlifted(kinds, Lives(pattern), costs)
    ensures Unlifted(permKinds, Lives(Permuted(pattern, p)), Permuted(costs, p))
  {
    assert forall i :: 0 <= i < |p| ==> Lives(Permuted(pattern, p))[i] == Lives(pattern)[p[i]] && Permuted(costs, p)[i] == costs[p[i]];
  }

  lemma BackToPattern(pattern: seq<MemoryBlock>, p: seq<nat>, kinds: seq<Kind>, permKinds: seq<Kind>,
                      costs: seq<int>, offset: int, size: int)
    requires Permutation(p, |pattern|) && |kinds| == |permKinds| == |costs| == |pattern|
    requires forall i :: 0 <= i < |p| ==> permKinds[i] == kinds[p[i]]
    requires Safe(Permuted(pattern, p), permKinds, Permuted(costs, p), offset, size) && Shared(Permuted(pattern, p), permKinds)
    requires HomesUnplaced(Permuted(pattern, p), permKinds) && Exact(Permuted(pattern, p), permKinds, Permuted(costs, p))
    ensures Safe(pattern, kinds, costs, offset, size) && Exact(pattern, kinds, costs) && Shared(pattern, kinds) && HomesUnplaced(pattern, kinds)
  {
    var blocks := Permuted(pattern, p);
    if Unlifted(kinds, Lives(pattern), costs) {
      assert Unlifted(permKinds, Lives(blocks), Permuted(costs, p)) by { UnliftedPermuted(pattern, p, kinds, permKinds, costs); }
    }
    forall k | 0 <= k < |pattern|
      ensures kinds[k].Placed? ==> Housed(pattern[k], costs[k], offset, size)
      ensures kinds[k].Home? ==> pattern[k].addrSpace.None?
      ensures Unlifted(kinds, Lives(pattern), costs) && kinds[k].Placed? ==> Tight(pattern[k], costs[k])
    {
      var i := InverseAt(p, k);
      assert blocks[i] == pattern[k] && permKinds[i] == kinds[k];
    }
    forall k, l | 0 <= k < |pattern| && 0 <= l < |pattern|
      ensures k != l && kinds[k].Placed? && kinds[l].Placed? ==> !pattern[k].Collides(pattern[l])
      ensures kinds[k] == InPlace(pattern[l].name) ==>
        pattern[k].addrSpace == pattern[l].addrSpace || (kinds[l].InPlace? && pattern[k].addrSpace.None?)
    {
      var i := InverseAt(p, k);
      var j := InverseAt(p, l);
      assert blocks[i] == pattern[k] && permKinds[i] == kinds[k] && blocks[j] == pattern[l] && permKinds[j] == kinds[l];
    }
  }

  /** annotateSolution for one pattern of a level, on any solution of the posted constraints. It is
      false exactly where a placed block gets an empty range; costs above zero rule that out. */
  method AnnotatePattern(ctxt: Context, root: map<string, string>, pattern: seq<MemoryBlock>, s: Assignment, state: PermutationState,
                         level: string, ghost order: seq<string>, ghost life: map<string, Interval>, ghost patternIdx: nat,
                         ghost costs: seq<Term>, ghost offset: int, ghost size: int)
    returns (ok: bool)
    requires pattern != [] && DistinctBlocks(pattern) && Known(ctxt, root, pattern) && BlocksOf(pattern, order, life, patternIdx)
    requires forall k :: 0 <= k < |pattern| ==> pattern[k].addrSpace == None
    requires |costs| == |pattern| && CostsInRange(s, costs) && Stacked(s, state, AdjacencyOf(order, life), costs, offset, size)
    requires forall k :: 0 <= k < |costs| ==> Value(s, costs[k]) % BYTE_ALIGNMENT == 0
    modifies pattern
    ensures ok ==> Safe(pattern, Kinds(ctxt, root, pattern, level), Values(s, costs), offset, size)
    ensures ok ==> Exact(pattern, Kinds(ctxt, root, pattern, level), Values(s, costs))
    ensures ok ==> Shared(pattern, Kinds(ctxt, root, pattern, level)) && HomesUnplaced(pattern, Kinds(ctxt, root, pattern, level))
    ensures (forall k :: 0 <= k < |costs| && Kinds(ctxt, root, pattern, level)[k].Placed? ==> Value(s, costs[k]) > 0) ==> ok
  {
    hide Tower, Safe, Exact, Shared, HomesUnplaced, IsHeights, AdjacencyOf, KindOf, MatrixIn, PermList, IndexOfOne, PermutedMatrix;
    ghost var n, p := |pattern|, PermList(MatrixIn(s, state));
    var matrix := MatrixIn(s, state);
    MatrixIsPermutation(matrix, n);
    forall i | 0 <= i < n ensures 1 in matrix[i] { RowOfPermutation(matrix, n, i); assert matrix[i][p[i]] == 1; }
    var list := PermMatrix2PermList(matrix);
    assert n == 1 ==> p == [0];
    var blocks := if |pattern| > 1 then Permuted(pattern, list.value) else pattern;
    assert blocks == Permuted(pattern, p);
    PermutedBlocks(ctxt, root, pattern, p, level);
    ghost var adj, cs := PermutedMatrix(AdjacencyOf(order, life), p), Permuted(Values(s, costs), p);
    PermutedTower(pattern, order, life, patternIdx, costs, s, p);
    ok := AnnotatePermuted(ctxt, root, blocks, s, level, adj, cs, offset, size);
    if ok {
      BackToPattern(pattern, p, Kinds(ctxt, root, pattern, level), Kinds(ctxt, root, blocks, level), Values(s, costs), offset, size);
    }
  }

  /** The loops of annotateSolution over the permuted pattern. */
  method AnnotatePermuted(ctxt: Context, root: map<string, string>, blocks: seq<MemoryBlock>, s: Assignment, level: string,
                          ghost adj: Matrix, ghost costs: seq<int>, ghost offset: int, ghost size: int)
    returns (ok: bool)
    requires DistinctBlocks(blocks) && Known(ctxt, root, blocks)
    requires forall k :: 0 <= k < |blocks| ==> blocks[k].addrSpace == None && blocks[k].lifetime.0 <= blocks[k].lifetime.1
    requires |costs| == |blocks| && Tower(Lives(blocks), adj, costs, HeightsAt(s, |blocks|))
    requires forall i :: 0 <= i < |blocks| ==> s(H(i)) + offset < size
    requires forall k :: 0 <= k < |costs| ==> costs[k] % BYTE_ALIGNMENT == 0
    modifies blocks
    ensures ok ==> Safe(blocks, Kinds(ctxt, root, blocks, level), costs, offset, size) && Exact(blocks, Kinds(ctxt, root, blocks, level), costs)
    ensures ok ==> Shared(blocks, Kinds(ctxt, root, blocks, level)) && HomesUnplaced(blocks, Kinds(ctxt, root, blocks, level))
    ensures (forall k :: 0 <= k < |costs| && Kinds(ctxt, root, blocks, level)[k].Placed? ==> costs[k] > 0) ==> ok
  {
    hide Tower, Lower, KindOf, Housed, Tight;
    ghost var kinds, h := Kinds(ctxt, root, blocks, level), HeightsAt(s, |blocks|);
    var aliased;
    ok, aliased := PlaceBlocks(ctxt, root, blocks, s, level);
    forall i | 0 <= i < |blocks| && (kinds[i].Placed? ==> costs[i] > 0) ensures RoomFor(kinds, Lives(blocks), h, i) {
      RangeFits(kinds, Lives(blocks), adj, costs, h, i);
    }
    if ok {
      ResolveAliases(ctxt, root, blocks, aliased, level);
      assert Shared(blocks, kinds);
      PlacedSafely(blocks, kinds, adj, costs, h, offset, size);
    }
  }
}
