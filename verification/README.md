# Deeploy: tiling, static memory and mapping, verified

Deeploy compiles neural networks for memory-constrained devices. This project models, in Dafny, the parts of it
where an error silently corrupts memory or produces no deployment at all, and proves what they promise:

- **Mapping** (`Search`, `Mapping`): `NetworkContainer.parse` walks the layers with a stack of contexts and per-layer
  sets of discarded bindings. It is proved to be a depth-first search, to terminate on every input, and to be complete
  over mappers exactly for a stated class of layers.
- **Tiling geometry** (`Tensors`, `Rectangles`, `Tiles`, `TilePaths`, `TileFits`, `TileSizes`, `Dma`, `Memcpy`): tiles
  partition a tensor of any rank, hop after hop; collapsing a rectangle and lowering a transfer to a supported rank keep
  the sequence of addresses; copying tile by tile copies the tensor.
- **Tetris allocation** (`Permutations`, `TilerModels`, `Heights`, `Aliases`, `Lifetimes`, `Allocator`, `Packings`,
  `Placement`, `Scheduling`, `Arenas`, `Deployments`): from resolved aliases and lifetimes over an interference graph, a
  permuted cost vector and the posted `H` recurrence to addresses, buffers inside them and arena offsets. The solver is
  an oracle: every result holds for any assignment that satisfies the posted constraints, and these are proved to be
  satisfiable exactly when some order of the blocks fits.
- **Liveness** (`Liveness`, `Flows`): the two-level gen/kill flow equals "there, and still needed" for single nodes, and
  is described step by step for patterns of any nodes.
- **Worklists and accounting** (`MemoryLevels`, `Buffers`, `Accounting`): shortest paths between memory levels, alias
  reachability, and the live-size counters of the memory generation passes.

Objects whose methods update them are classes with the same fields, and loops are loops with invariants. Each such
method is proved equal to a specification function or to the property itself; what such a function means is said in
the terms of the schedule, the tensors and the layers, by further `ensures` clauses or by lemmas. An exception
or failed assertion of the program is a `None` or a `false` result.

Where the code does not do what its documentation or the reader expects, the code is modelled, an input shows it, and
the exact condition is proved:

| promise | fails on | holds exactly when |
|---|---|---|
| collapsing keeps the addresses | an empty rectangle whose leading full dimensions have volume 0: `Rectangles.EmptyBlockIsDropped` | `Rectangles.CollapseKeepsAddressesIff` |
| collapsing collapses everything at once | sizes zero behind partial dimensions: `Rectangles.CollapsesTwice` | `Rectangles.CollapseIdempotentIff` |
| all hops of one tile shape give cubes that fit it | a tile larger in one dimension and smaller in another: `TilePaths.MixedTileDoesNotFit` | `TilePaths.SharedTileFitsIff` |
| cubes fit the tile shape of their level when the shapes do not grow along the path | the output [5, 4] cut by [4, 4] and then by [2, 2]: `TileFits.ShrinkingPathDoesNotFit` | `TileFits.PathFitsIff` |
| a network that can be mapped is mapped | a second mapper needed after a failed type check: `Search.SecondMapperNeverTried` | `Search.CompleteIffCovered` |
| live aliases are found along all links | an indirect alias whose one-character name occurs in the buffer's name: `Buffers.OneCharacterNameMissed` | `Buffers.ExploredIsLinkedIff` |
| buffers are sorted unless references are circular | a reference listed before its target: `Accounting.ForwardReferenceIsRefused` | `Accounting.TopologicallySortBuffers` |
| the dynamic size is that of the live buffers | two linked buffers freed by one node: `Accounting.LinkedPairKeepsFirst` | `Accounting.MemoryManagementGeneration.CodeTransform` |
| the arena covers every placed block | a tile of an alias of a global buffer: `Arenas.TileOfGlobalAliasUncovered` | `Arenas.ArenaCoversPlacedIff` |

The deployer calls `testTilingSolutionCorrectness` before `annotateMemoryLevel` sets any range
(TilerExtension.py:1898-1901), so that its assertions see none; `Scheduling.OneStepPasses` proves that they hold
on what the tile scheduler allocates when a level has one buffer count for all tensors.

`dafny verify dfyconfig.toml` checks everything.

## Model

| member | source | states |
|---|---|---|
| Search.DfsIsFirstChain | Deeploy/DeeployTypes.py:2671-2730 | The search returns a chain of contexts through the layers: each layer takes the first mapper whose `parse` and `parseCtxt` both succeed, and one of its bindings turns the context they give into the next one. It is the chain with the lexicographically first bindings, and the search fails exactly when there is no chain |
| Search.CoveredSearchComplete | Deeploy/DeeployTypes.py:1995-2029 | If in every layer whatever a later mapper reaches is also reached by the first one that parses, a network that can be mapped is mapped |
| Search.CompleteIffCovered | Deeploy/DeeployTypes.py:2683-2730 | That condition on a layer is necessary too: a layer makes the search complete in front of all covered layers if and only if it is covered |
| Search.SecondMapperNeverTried | Deeploy/DeeployTypes.py:2007-2029 | A layer with two parsing mappers of which only the second type-checks can be mapped, and the search rejects it |
| Mapping.NodeMapper.BindingsExhausted | Deeploy/DeeployTypes.py:1720-1729 | Comparing the two sizes tells exactly whether every binding of the mapper is among the discarded ones |
| Mapping.NodeMapper.DiscardCurrentBinder | Deeploy/DeeployTypes.py:1731-1737 | The elected binding joins the discarded ones and no binding is elected |
| Mapping.NodeMapper.TypeCheck | Deeploy/DeeployTypes.py:1745-1778 | Elects the first binding not discarded that type-checks, discards all failing ones before it, leaves the context alone when none is left |
| Mapping.ONNXLayer.Parse | Deeploy/DeeployTypes.py:1995-2029 | Elects the first mapper not discarded that parses in the context: its `parse` and, on what that gives, its `parseCtxt` succeed, and give the new context; one of the two fails for every mapper before. Fails exactly when one of them fails for every mapper; discards those that fail |
| Mapping.ONNXLayer.ParseAndTypeCheck | Deeploy/DeeployTypes.py:2683-2697 | Either a binding not tried before is elected and every binding before it leads nowhere, or nothing in the layer leads to a mapping of the layers behind |
| Mapping.ONNXLayer.DiscardCurrent | Deeploy/DeeployTypes.py:2723-2727 | Giving up the elected binding never exhausts the mapper, so the mapper itself is not discarded |
| Mapping.ONNXLayer.ResetDiscardedMappers | Deeploy/DeeployTypes.py:1965-1971 | Afterwards the layer is as new: nothing elected, nothing discarded in any of its mappers |
| Mapping.ChainIsDfs | Deeploy/DeeployTypes.py:2671-2730 | A chain of elected bindings, with only dead bindings before each, is what the recursive search returns |
| Mapping.RollbackDecreases | Deeploy/DeeployTypes.py:2717-2730 | A rollback lowers the mixed-radix number of untried bindings although every layer behind is reset |
| Mapping.AdvanceKeeps | Deeploy/DeeployTypes.py:2691-2696 | An advance does not raise that number |
| Mapping.Forward | Deeploy/DeeployTypes.py:2683-2697 | One layer further down with the invariant kept (stack entry i is the context before layer i, everything past it new), or nothing below this context succeeds |
| Mapping.Backtrack | Deeploy/DeeployTypes.py:2717-2730 | Resetting the failing layer and discarding the previous binding restores the invariant one layer up, one binding further |
| Mapping.Turn | Deeploy/DeeployTypes.py:2671-2730 | A turn of the loop stops only at the root with no choice left; otherwise fewer bindings are untried, or none more and one more layer is bound |
| Mapping.Finished | Deeploy/DeeployTypes.py:2671-2730 | Once all layers are bound the elected mappers and bindings form a chain of contexts, and they and the context are the search's answer |
| Mapping.Explore | Deeploy/DeeployTypes.py:2659-2730 | The loop terminates with the result of the recursive search, each layer left on the chosen binding |
| Mapping.NetworkContainer.Parse | Deeploy/DeeployTypes.py:2624-2742 | Parsing succeeds if and only if there is a chain of contexts through the layers, each by the first mapper whose two parsing stages succeed and by one of its bindings; it leaves the network in the last context of the chain with the lexicographically first bindings, and each layer on its mapper and binding of that chain. On failure the context is untouched |
| Tensors.StridesAt | Deeploy/TilingExtension/TilingCodegen.py:672-706 | The stride of a dimension is the product of all dimensions behind it |
| Tensors.StridesFromShape | Deeploy/TilingExtension/TilingCodegen.py:703-706 | The right-to-left loop computes the row-major strides |
| Tensors.CalculateFlatOffset | Deeploy/TilingExtension/TilingCodegen.py:746-748 | The scalar product of offsets and strides; fails exactly on different lengths |
| Tensors.WalkAt | Deeploy/TilingExtension/TilingCodegen.py:703-748 | The k-th address of a strided walk belongs to the k-th index vector in lexicographic order |
| Tensors.ContiguousWalk | Deeploy/TilingExtension/TilingCodegen.py:703-706 | Walking a whole tensor by its own strides visits 0, 1, 2, ... |
| Rectangles.MinimizeRectangle | Deeploy/TilingExtension/TilingCodegen.py:529-550 | The loop computes the collapsed rectangle and shape; it fails exactly for rank 0 or a full dimension with an offset |
| Rectangles.InBoundsPlaced | Deeploy/TilingExtension/TilingCodegen.py:536-537 | The zero-offset assertion never fires on a rectangle inside its tensor |
| Rectangles.CollapseKeepsAddressesIff | Deeploy/TilingExtension/TilingCodegen.py:529-550 | For any rectangle of rank at least 1 that passes the zero-offset assertion, the collapsed one visits the same flat addresses in the same order if and only if no empty block of leading full dimensions is dropped |
| Rectangles.EmptyBlockIsDropped | Deeploy/TilingExtension/TilingCodegen.py:544-548 | The empty rectangle [0, 1] of a tensor [0, 2] collapses to one that visits an address |
| Rectangles.CollapseKeepsAddresses | Deeploy/TilingExtension/TilingCodegen.py:529-550 | With no size zero the addresses are always kept and the result is in bounds |
| Rectangles.OnlyLeadingFullIff | Deeploy/TilingExtension/TilingCodegen.py:533-548 | The result is in bounds, so that a full dimension starts at 0; only its leading dimension is full, if and only if no full dimension of size zero stands behind one that is not full, where the first that is not full does not matter when it becomes the leading one itself |
| Rectangles.CollapseIdempotentIff | Deeploy/TilingExtension/TilingCodegen.py:529-550 | Collapsing a collapsed rectangle changes nothing, if and only if no full dimension of size zero stands behind one that is not full or one dimension is left |
| Rectangles.CollapsesTwice | Deeploy/TilingExtension/TilingCodegen.py:529-550 | The rectangle [1, 1, 0] of a tensor [2, 2, 0] collapses in two stages |
| Rectangles.MergeDimensions | Deeploy/TilingExtension/TilingCodegen.py:538-542 | Splitting a dimension of r * c elements into r rows of c changes no address |
| Tiles.Advance | Deeploy/TilingExtension/TilingCodegen.py:848-853 | One turn of the in-place odometer is the increment with carry |
| Tiles.IncrementDigits | Deeploy/TilingExtension/TilingCodegen.py:844-853 | The increment adds one to the mixed-radix number, dimension 0 least significant |
| Tiles.DigitsRoundTrip | Deeploy/TilingExtension/TilingCodegen.py:844-853 | Every tile index below the counts is visited, at the position its digits spell |
| Tiles.PositionRoundTrip | Deeploy/TilingExtension/TilingCodegen.py:844-853 | No tile index is visited twice: the position is recovered from the digits |
| Tiles.DigitsAscend | Deeploy/TilingExtension/TilingCodegen.py:844-853 | Tile indices come in ascending order, the last dimension most significant |
| Tiles.ComputeTileHyperRectangles | Deeploy/TilingExtension/TilingCodegen.py:824-875 | The list of all tiles in odometer order; rejected exactly for unequal ranks, rank 0, a tile larger than the tensor or of size zero; the four per-tile assertions hold |
| Tiles.TileInside | Deeploy/TilingExtension/TilingCodegen.py:860-871 | Every tile starts inside the tensor, is not empty and no larger than the tile shape |
| Tiles.InListedTileIff | Deeploy/TilingExtension/TilingCodegen.py:860-875 | The k-th tile holds exactly the elements whose tile index has position k |
| Tiles.TilesPartition | Deeploy/TilingExtension/TilingCodegen.py:844-875 | Every element of the tensor lies in exactly one tile, and nothing outside it lies in any |
| Tiles.TileVolumesSum | Deeploy/TilingExtension/TilingCodegen.py:844-875 | The tile volumes add up to the volume of the tensor |
| TilePaths.GetMemoryTransfer | Deeploy/TilingExtension/TileConstraint.py:97-109 | A hop moves the tile shape, or the whole cube as soon as the tile is larger in any dimension |
| TilePaths.GetCubeTransfers | Deeploy/TilingExtension/TileConstraint.py:114-132 | The tiles of all cubes at their accumulated offsets, with one count per cube; rejected exactly when some cube's transfer is |
| TilePaths.Regroup | Deeploy/TilingExtension/TileConstraint.py:158-162 | The groups concatenate back to the flat list and have the given lengths |
| TilePaths.FlattenInjective | Deeploy/TilingExtension/TileConstraint.py:158-162 | A flat list has only one grouping with given lengths |
| TilePaths.WrapTilingSolution | Deeploy/TilingExtension/TileConstraint.py:137-162 | On success there is a path of as many hops as the target level (one for level 0): the first hop starts from the whole output, every hop takes each cube of the hop before to the tiles of the next shape on its grid, in order and covering it once, or leaves it whole when that shape is larger somewhere; the groups are those of the last hop, one per cube before it, and cover the output exactly once. Fails exactly without a hop or on a rejected transfer, and never for positive shapes of the rank of the output |
| TilePaths.HopKeepsCover | Deeploy/TilingExtension/TileConstraint.py:114-132 | A hop changes neither how often an element is covered nor the total volume |
| TilePaths.PathPartition | Deeploy/TilingExtension/TileConstraint.py:148-162 | After any number of hops every output element is covered exactly once, nothing else is, and volumes add up |
| TilePaths.PathAccepted | Deeploy/TilingExtension/TileConstraint.py:155-156 | A path of positive tile shapes of the output's rank is never rejected |
| TilePaths.LaterHopsKeepCubes | Deeploy/TilingExtension/TilerExtension.py:1303-1309 | When all hops share one tile shape, hops after the first change nothing |
| TilePaths.SharedTileFitsIff | Deeploy/TilingExtension/TilerExtension.py:1303-1309 | All cubes then fit that shape if and only if it is no larger than the output in every dimension or no smaller in every dimension |
| TilePaths.MixedTileDoesNotFit | Deeploy/TilingExtension/TilerExtension.py:1303-1309 | Tiles of shape [1, 5] of an output [2, 3] do not fit that shape |
| TileFits.PathFitsIff | Deeploy/TilingExtension/TileConstraint.py:97-162 | On any path of positive shapes all cubes of every level fit its tile shape, if and only if at no hop a size that cutting one dimension alone gives is below its tile while one of another dimension is above its own |
| TileFits.OneDimensionFits | Deeploy/TilingExtension/TileConstraint.py:97-162 | In one dimension they always do |
| TileFits.DividingPathFits | Deeploy/TilingExtension/TileConstraint.py:97-162 | They do when every shape divides the one before, the first one the output |
| TileFits.ShrinkingPathDoesNotFit | Deeploy/TilingExtension/TileConstraint.py:97-109 | Shapes that shrink along the path are not enough: an output [5, 4] cut by [4, 4] and then by [2, 2] keeps a cube larger than [2, 2] |
| TileSizes.MinTileSizeIff | Deeploy/TilingExtension/TilerModel.py:204-223 | With the bound at the full dimension the minimum-tile constraints are satisfiable for a tile size if and only if the dimension stays whole or no cut, remainder included, is below modulo |
| TileSizes.MinTileSizeTilesIff | Deeploy/TilingExtension/TilerModel.py:204-223 | The same for the tiles of the generated list: whole along that dimension, or all at least modulo |
| TileSizes.DivisibleIff | Deeploy/TilingExtension/TilerModel.py:225-250 | The divisible constraints are satisfiable for a tile size if and only if modulo divides it |
| TileSizes.DivisibleTileList | Deeploy/TilingExtension/TilerModel.py:225-250 | Then every listed tile that is not the last along the dimension is a multiple of modulo |
| Dma.NearestSupportedTransferRank | Deeploy/TilingExtension/AsyncDma.py:209-218 | The largest supported rank not above the transfer's, else the smallest supported one |
| Dma.LoopsAreTransfer | Deeploy/TilingExtension/AsyncDma.py:233-270 | Nested loops around a kernel visit the address pairs of the transfer with the loop dimensions in front, in the same order |
| Dma.PaddingIsTransfer | Deeploy/TilingExtension/AsyncDma.py:273-276 | Leading dimensions of length one change no address pair, whatever the padding strides |
| Dma.Transfer | Deeploy/TilingExtension/AsyncDma.py:220-276 | In all three cases the emitted code performs exactly the rank-n transfer through a kernel of supported rank; fails exactly without supported ranks or when rank 0 is chosen for a transfer of higher rank |
| Dma.PairsAreWalks | Deeploy/TilingExtension/AsyncDma.py:190-199 | The address pairs are the external and the local walk side by side |
| Dma.TransferRectangle | Deeploy/TilingExtension/CodeTransformationPasses/TilingCodeGeneration.py:119-215 | Collapsing, strides and rank adaptation together: the n-th byte of the rectangle goes to the n-th byte of the local buffer, if and only if collapsing drops no empty block, as it never does without sizes zero; fails exactly without supported ranks or when rank 0 is the nearest |
| Memcpy.CopyCube | DeeployTest/testUtils/dmaUtils.py:62-83 | Loading, copying and storing a cube copies its elements and leaves every other element alone |
| Memcpy.RunSchedule | DeeployTest/testUtils/dmaUtils.py:62-83 | After the schedule every element covered by some cube is copied |
| Memcpy.TiledMemcpy | DeeployTest/testUtils/dmaUtils.py:62-83 | Over the tiles of any tensor the destination equals the source, and the step sizes add up to the bytes of the tensor |
| Permutations.PermMatrix2PermList | Deeploy/TilingExtension/MemoryScheduler.py:611-625 | Reads the column of the one in each row; fails exactly when a row has none |
| Permutations.MatrixIsPermutation | Deeploy/TilingExtension/MemoryScheduler.py:106-133 | A 0/1 matrix with all row and column sums one decodes to a permutation |
| Permutations.RowOfPermutation | Deeploy/TilingExtension/MemoryScheduler.py:106-133 | Row i holds its one at p(i) and zeros elsewhere |
| Permutations.PermutationHasMatrix | Deeploy/TilingExtension/MemoryScheduler.py:386-402 | The matrix of any permutation satisfies the constraints and decodes to that permutation |
| Permutations.LeftProduct | Deeploy/TilingExtension/MemoryScheduler.py:138-149 | Multiplying by the matrix from the left selects row p(r) |
| Permutations.RightProduct | Deeploy/TilingExtension/MemoryScheduler.py:138-149 | Multiplying by its transpose from the right selects column p(c) |
| Permutations.VectorProduct | Deeploy/TilingExtension/MemoryScheduler.py:151-160 | The matrix-vector product selects entry p(r) |
| TilerModels.AddPermutationMatrix | Deeploy/TilingExtension/MemoryScheduler.py:106-133 | Exactly the assignments whose matrix variables form a permutation matrix remain |
| TilerModels.BoolMatMulSingle | Deeploy/TilingExtension/MemoryScheduler.py:138-149 | The posted expression evaluates to the entry of the matrix product |
| TilerModels.PermuteMatrices | Deeploy/TilingExtension/MemoryScheduler.py:135-200 | Exactly the assignments that satisfy the posted products within their ranges remain |
| TilerModels.PermutedPostedIff | Deeploy/TilingExtension/MemoryScheduler.py:135-200 | For a permutation p those constraints mean adjacency at p(i), p(j) and cost at p(i); the declared ranges exclude no solution |
| Heights.GenerateCost | Deeploy/TilingExtension/MemoryScheduler.py:202-240 | Exactly the assignments that satisfy the H recurrence and whose total is the largest height remain |
| Heights.HeightsPostedIff | Deeploy/TilingExtension/MemoryScheduler.py:202-240 | Satisfying the posted recurrence is computing the heights: its variable ranges exclude nothing |
| Heights.HeightsUnique | Deeploy/TilingExtension/MemoryScheduler.py:210-232 | Adjacency and costs determine all heights |
| Heights.HeightBounds | Deeploy/TilingExtension/MemoryScheduler.py:202-240 | A block reaches its own cost, its cost above every earlier block it overlaps, and stays within its declared bound |
| Lifetimes.KeptIff | Deeploy/TilingExtension/MemoryScheduler.py:261-290 | The loop over a tensor's levels keeps it in a level exactly by one rule on transient, constant, home level and scheduler |
| Lifetimes.KeptMeans | Deeploy/TilingExtension/MemoryScheduler.py:261-290 | In raw terms: the tile scheduler keeps a deployed tensor constrained in the level when it is transient or lives elsewhere, the outer one when it is neither transient nor constant and lives there |
| Lifetimes.MentionedIff | Deeploy/TilingExtension/MemoryScheduler.py:296-302 | A tensor is logged at a step if and only if the step constrains it and it is kept |
| Lifetimes.OrderByMention | Deeploy/TilingExtension/MemoryScheduler.py:310-315 | The tensors of a level stand in the order of their first mentions |
| Lifetimes.CalculateLifetimes | Deeploy/TilingExtension/MemoryScheduler.py:258-329 | Every tensor is alive exactly from its first mention to the last mention of it or of a direct alias; an input, unless it is an output too, from step 0, and an output to the last step |
| Lifetimes.LifeSpans | Deeploy/TilingExtension/MemoryScheduler.py:296-315 | The interval starts at the first mention and ends at the last step that mentions the tensor or one of its direct aliases after it |
| Lifetimes.LifetimesCoverUse | Deeploy/TilingExtension/MemoryScheduler.py:292-329 | With the plain and with the training scheduler every interval contains every step that mentions its tensor, inputs start at 0 and outputs end at the last index |
| Lifetimes.CalculateTrainingLifetimes | DeeployTest/testUtils/tilingUtils.py:57-67 | The training scheduler's loop stretches exactly the inputs to the whole schedule; every other tensor is alive exactly from its first mention to the last mention of it or of a direct alias, an output to the last step |
| Lifetimes.TrainingInputWhole | DeeployTest/testUtils/tilingUtils.py:57-67 | Computed with the training scheduler and dealiased, every input lives through the whole schedule |
| Lifetimes.DealiasMeaning | Deeploy/TilingExtension/MemoryScheduler.py:405-426 | The pass in dictionary order has an order-free meaning: a root ends with the latest of its local aliases |
| Lifetimes.DealiasLifetimeMap | Deeploy/TilingExtension/MemoryScheduler.py:405-426 | Computes that map, fails exactly when a local target has no lifetime, and leaves the tile scheduler's map alone |
| Lifetimes.DealiasedStillCover | Deeploy/TilingExtension/MemoryScheduler.py:405-426 | Dealiased lifetimes still cover every use and keep the network's inputs and outputs aligned |
| Lifetimes.LevelSpan | Deeploy/TilingExtension/MemoryScheduler.py:296-329 | The lifetimes a scheduler allocates by: the tile scheduler those; the outer one ends a root with the last of itself and its local aliases, none of which ends later, and starts an alias of a global buffer at 0 |
| Lifetimes.DisjointUsesApart | Deeploy/TilingExtension/MemoryScheduler.py:242-329 | Two internal tensors, neither input, output nor part of an alias, of which one is last used before the other is first used, are never alive together |
| Lifetimes.AliasInsideIff | Deeploy/TilingExtension/MemoryScheduler.py:405-426 | An alias lives inside its target after dealiasing, if and only if in the schedule the target starts no later: an input at 0 (unless it is an output and training is off), any other tensor at its first mention |
| Lifetimes.AliasesInside | Deeploy/TilingExtension/MemoryScheduler.py:405-426 | So all do when every alias is no input and its target is mentioned no later |
| Lifetimes.TestMemoryMapCorrectness | Deeploy/TilingExtension/TilerExtension.py:1745-1766 | The check passes if and only if outputs end last, inputs start at 0 and every use lies in its interval |
| Lifetimes.MemoryMapLifetimes | Deeploy/TilingExtension/TilerExtension.py:1745-1748 | The lifetimes of all levels merged into one map: each tensor starts there where its home level starts it, covers all its uses, and ends with itself or a local alias of it, an output last, in whatever order the levels are merged; fails exactly when an alias target has no lifetime in its level |
| Lifetimes.CheckedLifetimes | Deeploy/TilingExtension/TilerExtension.py:1745-1766 | End to end, over any list of levels with each tensor kept in its home level: the check passes if and only if in every level the alias targets have lifetimes; only for a buffer that is both an input and an output, which the frontend never registers (DeeployTypes.py:2498-2514), it must start at 0 besides, unless training |
| Allocator.OverlapIff | Deeploy/TilingExtension/MemoryScheduler.py:88-94 | Two lifetimes overlap if and only if some step lies in both |
| Allocator.NeighborsIff | Deeploy/TilingExtension/MemoryScheduler.py:242-256 | A tensor's neighbours are exactly the other tensors whose lifetime overlaps its own |
| Allocator.BuildInterferenceGraph | Deeploy/TilingExtension/MemoryScheduler.py:242-256 | The graph holds these neighbours for every tensor |
| Allocator.BuildAdjacencyMatrix | Deeploy/TilingExtension/MemoryScheduler.py:331-342 | The matrix has a one at two tensors' positions exactly when they are distinct and overlap |
| Allocator.BuildCostVector | Deeploy/TilingExtension/MemoryScheduler.py:344-377 | For integer sizes and sizes the solver chooses, under every assignment: costs are whole words, zero for an alias of a neighbour, and otherwise hold all bits of the tensor once per buffer (a byte for an element of less than 8 bits, or of a transient buffer) with less than a word to spare in each |
| Allocator.CostHoldsBits | Deeploy/TilingExtension/MemoryScheduler.py:360-369 | The cost in bits: at least the size times the type width times the buffer count, and less than a word more per buffer |
| Allocator.StablePermutation | Deeploy/TilingExtension/MemoryScheduler.py:386-402 | The fixed permutation gives adjacency at p(i), p(j) and cost at p(i), with the matrix of p |
| Allocator.SchedulePattern | Deeploy/TilingExtension/MemoryScheduler.py:474-502 | For both strategies the solutions left are exactly those of the permuted recurrence with its total plus the constant offset below the level's size, less what the outer schedule reserves |
| Allocator.PostedStacks | Deeploy/TilingExtension/MemoryScheduler.py:474-502 | Every such solution stacks the pattern in the order of its permutation, each height plus the offset below the level's size |
| Allocator.SolutionStacks | Deeploy/TilingExtension/MemoryScheduler.py:498-502 | The permuted recurrence and the size constraint together mean a stacked pattern |
| Packings.StackIsHeights | Deeploy/TilingExtension/MemoryScheduler.py:202-232 | Dropping each block onto the highest earlier one it overlaps solves the recurrence |
| Packings.StackingPosted | Deeploy/TilingExtension/MemoryScheduler.py:106-240 | Any permitted order that stacks below the level's size extends to an assignment of all auxiliary variables that satisfies every posted constraint |
| Packings.PostedFits | Deeploy/TilingExtension/MemoryScheduler.py:498-502 | Any satisfying assignment is a permitted order that stacks below the level's size |
| Packings.SatisfiableIff | Deeploy/TilingExtension/MemoryScheduler.py:474-502 | For given tile sizes the constraints can be satisfied if and only if some permitted order of the blocks stacks below the level's size |
| Placement.MemoryBlock.SetAddrSpace | Deeploy/TilingExtension/MemoryScheduler.py:33-40 | A range is stored if and only if it is not empty |
| Placement.TowerHeights | Deeploy/TilingExtension/MemoryScheduler.py:202-240 | In the permuted order a block ends its cost above every earlier overlapping block, and no higher than needed |
| Placement.RangeFits | Deeploy/TilingExtension/MemoryScheduler.py:663-676 | The range read back has room for the cost, exactly the cost when no block before is aliased, and later overlapping blocks start above it |
| Placement.RangeExactIff | Deeploy/TilingExtension/MemoryScheduler.py:663-676 | It is exactly the cost if and only if no earlier overlapping block ends above the placed ones among them |
| Placement.UnliftedExact | Deeploy/TilingExtension/MemoryScheduler.py:663-676 | It is exactly the cost, in-place blocks below or not, when blocks without a range cost nothing and whatever is alive together with one of them is all alive together |
| Placement.AlignedHeights | Deeploy/TilingExtension/MemoryScheduler.py:365-369 | Word-aligned costs stack to word-aligned ends |
| Placement.PlaceBlocks | Deeploy/TilingExtension/MemoryScheduler.py:646-676 | Every placed block gets the range between the highest overlapping end so far and its height; fails exactly on an empty range |
| Placement.ResolveAliases | Deeploy/TilingExtension/MemoryScheduler.py:678-682 | An in-place block ends up with the range of the block it aliases, through chains too; with none exactly when that block has none or is an in-place block resolved later |
| Placement.PlacedSafely | Deeploy/TilingExtension/MemoryScheduler.py:646-676 | No two placed blocks of overlapping lifetime share an address; every range holds its cost, is aligned and ends below the level's size |
| Placement.BackToPattern | Deeploy/TilingExtension/MemoryScheduler.py:633-642 | Safety of the permuted pattern is safety of the pattern with its own costs |
| Placement.AnnotatePattern | Deeploy/TilingExtension/MemoryScheduler.py:609-682 | On any satisfying assignment the annotated pattern is safe and aliases share their target's range; it can fail only on a block of cost zero |
| Scheduling.AllocateLevel | Deeploy/TilingExtension/MemoryScheduler.py:437-504 | End to end for the outer, the tile and the training scheduler, with any sound solver: every tensor of the schedule has one block, alive at all its uses. A tensor that stands for itself has a word-aligned range below the level's size that holds all its bits in every buffer, and any two that occur at a common step share no byte; an alias of another tensor of the level shares its range, except that an alias of a global buffer at home there has none. In-place blocks inside their targets' lifetimes are clear of all others, inputs in training apart from everything, one-step tile patterns snug; with a complete solver and sizes above zero it fails exactly for an alias that does not resolve or when no choice of the tiler's variables lets a permitted order stack into the level |
| Scheduling.InsideTargetIff | Deeploy/TilingExtension/MemoryScheduler.py:405-426 | An in-place block of the outer scheduler, placed with its target, lives inside the target's lifetime if and only if the schedule starts the target no later |
| Scheduling.InPlaceClear | Deeploy/TilingExtension/MemoryScheduler.py:678-682 | Blocks in place of placed blocks, alive only while these are, collide with no other placed block, nor with blocks in place of another one |
| Scheduling.OneStepSnug | Deeploy/TilingExtension/TilerExtension.py:1549-1560 | A pattern of one step, the only kind the tile scheduler gets, is snug: all its blocks are alive together, and none is an alias of a global buffer at home there, as transient buffers are never aliases |
| Scheduling.PostedIffStackable | Deeploy/TilingExtension/MemoryScheduler.py:474-502 | For given values of the tiler's variables the constraints of a level can be satisfied if and only if its tensors are stackable |
| Scheduling.BlocksDeployed | Deeploy/TilingExtension/MemoryScheduler.py:646-676 | Safe ranges and covering lifetimes give what the generated code relies on: every placed tensor has all its bits in every buffer, in a snug level with less than a word to spare in each |
| Scheduling.BuffersFit | Deeploy/TilingExtension/TileConstraint.py:43-53 | One base per buffer, single or not; whatever the range has room for per buffer, each base has in the range, apart from the others |
| Scheduling.InPlaceBasesAlignedIff | Deeploy/TilingExtension/TileConstraint.py:43-53 | Whatever whole words a tensor has in each of its n buffers, the m buffers of a tensor in place of it all start on words if and only if m divides n |
| Scheduling.TensorBases | Deeploy/TilingExtension/TileConstraint.py:43-53 | For every placed tensor the allocator leaves in a level: each buffer has room for all bits of a tile inside the range and apart from the others; in a snug level, in-place blocks or not, the range is exactly the cost and every buffer starts on a word, as a single buffer always does |
| Scheduling.HolderOf | Deeploy/TilingExtension/MemoryScheduler.py:678-682 | Every range belongs to a placed block, for an in-place block the one at the end of its links inside the pattern, and buffer counts divide along the links |
| Scheduling.AnnotateMemoryLevel | Deeploy/TilingExtension/TilerExtension.py:595-616 | Tensors at home get no range, all others that of their block; fails exactly when one has no block |
| Scheduling.AnnotatedIff | Deeploy/TilingExtension/TilerExtension.py:595-616 | Of the deployed tensors constrained in a level, those that get a range are exactly the ones the tile scheduler places there; the others are the non-constant ones the outer scheduler places, and the constants at home |
| Scheduling.TestTilingSolutionCorrectness | Deeploy/TilingExtension/TilerExtension.py:1704-1714 | Passes if and only if every annotated range splits into whole words per buffer |
| Scheduling.AnnotatedPasses | Deeploy/TilingExtension/TilerExtension.py:1704-1714 | A pattern annotated from the blocks of a snug level passes that test, in-place tensors included when their buffer counts divide those of their targets |
| Scheduling.OneStepPasses | Deeploy/TilingExtension/TilerExtension.py:1704-1714 | From the constraints of a one-step pattern to the test: whatever the tile scheduler allocates for it passes, in-place tensors included when their buffer counts divide those of their targets, as with one count for all tensors of a level |
| Scheduling.InputBytesNotReused | DeeployTest/testUtils/tilingUtils.py:57-67 | With lifetimes from the training scheduler, dealiased and allocated, no placed block of the level shares a byte with a placed input |
| Arenas.ArenaSize | Deeploy/TilingExtension/TilerExtension.py:289-305 | The least bound, from zero up, on the ends of all blocks that count; fails exactly when one of them has no address |
| Arenas.EmitOffsets | Deeploy/TilingExtension/TilerExtension.py:323-361 | Exactly the buffers at home in the level get an offset, that of their own block or of the buffer under their alias; fails exactly when that block is missing or has no address |
| Arenas.OffsetsInsideArena | Deeploy/TilingExtension/TilerExtension.py:289-361 | Every buffer the level's code allocates lies in the arena with all bytes of its own block, or for an alias of the block under it, apart from every other placed block alive at the same time |
| Deployments.DeployLevel | Deeploy/TilingExtension/TilerExtension.py:289-361 | A level end to end, over all its tile patterns and the outer one: from the constraints through any sound solver to ranges, an arena that fits next to the constants, and offsets. The outer pattern gives one to every tensor it places, a tile pattern to its transient ones at home, neither to an alias of a global buffer outside the pattern; from each offset on the arena has all bits of the tensor in every buffer. The arena is refused exactly for a counted block without a range, the offsets exactly for an alias whose base is outside the pattern |
| Deployments.EmittedIffAllocates | Deeploy/TilingExtension/TilerExtension.py:323-341 | The tensors that get an offset are exactly these |
| Arenas.RootsFollow | Deeploy/DeeployTypes.py:547-572 | A buffer under an alias resolves to the same buffer as the alias |
| Arenas.ArenaFitsLevel | Deeploy/TilingExtension/TilerExtension.py:289-317 | When every pattern of the level is safely placed and all aliases end in tensors, the arena plus the constant offset stays below the level's size |
| Arenas.ArenaCoversPlacedIff | Deeploy/TilingExtension/TilerExtension.py:299-302 | The arena covers every placed block whatever ranges the blocks get, if and only if no placed block aliases a global buffer |
| Arenas.TileOfGlobalAliasUncovered | Deeploy/TilingExtension/TilerExtension.py:299-309 | A tile of such an alias is placed at a positive end while the arena has size zero |
| Liveness.GetIONames | Deeploy/TilingExtension/MemoryConstraintFlows.py:71-98 | The loops collect the inputs no earlier node produced and the outputs not consumed inside the pattern alone |
| Liveness.PatternInputsIff | Deeploy/TilingExtension/MemoryConstraintFlows.py:85-91 | For any number of nodes: an input is what some node reads and no earlier node of the pattern produces |
| Liveness.PatternOutputsIff | Deeploy/TilingExtension/MemoryConstraintFlows.py:93-96 | An output is what some node produces, unless all its users are in the pattern and fewer than its nodes |
| Liveness.PatternFlow | Deeploy/TilingExtension/GenericFlow.py:47-73 | The loop computes the states of the recursive flow, and fails exactly when a step's assertion does |
| Liveness.GraphMemoryConstraintFlow.PreComputeStep | Deeploy/TilingExtension/MemoryConstraintFlows.py:153-161 | Records the pattern's own flow, started from what the pattern before left live |
| Liveness.GraphMemoryConstraintFlow.Flow | Deeploy/TilingExtension/MemoryConstraintFlows.py:139-200 | The states of the two-level flow over any schedule; fails exactly when an assertion at either level does |
| Flows.FlowStepIff | Deeploy/TilingExtension/GenericFlow.py:33-45 | A step passes the three assertions if and only if it spawns nothing live or killed and kills only what is live; afterwards exactly that is live which was or is spawned, and is not killed |
| Flows.KillSetIff | Deeploy/TilingExtension/MemoryConstraintFlows.py:119-136 | A node of a pattern kills the tensors it reads that do not leave the pattern and of whose users in it the node is the last; it fails exactly when such a tensor has no user in the pattern |
| Flows.PatternStartIff | Deeploy/TilingExtension/MemoryConstraintFlows.py:32-54 | Live before a pattern is what the pattern before left, and what some node reads before the pattern produces it, where its users want it |
| Flows.PatternFromMeans | Deeploy/TilingExtension/GenericFlow.py:47-73 | The states inside a pattern of any nodes are those of such steps, one per node; it fails exactly when after some steps the next one is stuck |
| Flows.GraphSetsIff | Deeploy/TilingExtension/MemoryConstraintFlows.py:163-198 | Outside, a pattern spawns what it newly leaves live and kills what it took in and uses last, unless constant, both at home |
| Flows.GraphFromMeans | Deeploy/TilingExtension/MemoryConstraintFlows.py:139-200 | Over any schedule of any patterns the states of the two-level flow are those of such runs |
| Flows.GraphFromFails | Deeploy/TilingExtension/MemoryConstraintFlows.py:139-200 | When the flow fails, there are first patterns that run, and behind them one that is stuck inside or trips an assertion outside |
| Liveness.LastUserIff | Deeploy/TilingExtension/MemoryConstraintFlows.py:186-198 | With users in schedule order, the last user is a node if and only if it reads the tensor and no later node does |
| Liveness.NodeFlow | Deeploy/TilingExtension/MemoryConstraintFlows.py:109-136 | The inner flow of a single node passes its assertions and leaves its outputs instead of its inputs |
| Liveness.NodeKeepsLiveness | Deeploy/TilingExtension/GenericFlow.py:33-45 | A node's step passes the three assertions and takes the plain definition of liveness at step k to that at step k + 1 |
| Liveness.FlowIsLiveness | Deeploy/TilingExtension/MemoryConstraintFlows.py:139-200 | On a well-formed schedule of single nodes no assertion fails, and before step k exactly the tensors are live that are there and are constant, unused, or read at step k or later |
| MemoryLevels.MemoryHierarchy.Add | Deeploy/MemoryLevelExtension/MemoryLevels.py:55-60 | A level is added unless its name is taken |
| MemoryLevels.MemoryHierarchy.Bfs | Deeploy/MemoryLevelExtension/MemoryLevels.py:71-97 | A path without repetition of minimum length over all paths, or the empty list exactly when there is none; terminates |
| MemoryLevels.MemoryHierarchy.Expand | Deeploy/MemoryLevelExtension/MemoryLevels.py:82-95 | Expanding one path keeps all queued paths valid, in order of length, and ending in distinct levels |
| MemoryLevels.AllReached | Deeploy/MemoryLevelExtension/MemoryLevels.py:81-95 | While nothing shorter is left to explore, no path reaches the target or a level not yet queued |
| MemoryLevels.FoundIsShortest | Deeploy/MemoryLevelExtension/MemoryLevels.py:85-87 | The first path found is no longer than any other |
| MemoryLevels.ShortestHasNoRepetition | Deeploy/MemoryLevelExtension/MemoryLevels.py:71-97 | A shortest path visits no level twice |
| Buffers.VariableBuffer.HasLiveAliases | Deeploy/DeeployTypes.py:330-352 | Terminates on cyclic links; true if and only if an explored buffer, itself included, is live, an input or an output; fails exactly when an explored name is not registered |
| Buffers.ExploredIsLinkedIff | Deeploy/DeeployTypes.py:342-352 | What is explored stands for all linked buffers, whatever is live, if and only if every linked one-character name occurring in the buffer's name is itself or a direct alias |
| Buffers.LongNamesExplored | Deeploy/DeeployTypes.py:342-352 | With alias names longer than one character the search means "some linked buffer is live" |
| Buffers.OneCharacterNameMissed | Deeploy/DeeployTypes.py:344-351 | From a buffer named ab, a live buffer named a two links away is missed |
| Aliases.DealiasBuffer | Deeploy/DeeployTypes.py:547-572 | Returns the unaliased buffer at the end of the chain, and fails exactly when the chain has no such end |
| Aliases.CircularNeverEnds | Deeploy/DeeployTypes.py:568-571 | A chain that returns to a name it left goes on for ever |
| Aliases.RootsAreUnique | Deeploy/DeeployTypes.py:547-572 | Every name has at most one end, so the map of all ends is well defined |
| Aliases.RootsResolve | Deeploy/DeeployTypes.py:547-572 | Resolving is idempotent on every name that has an end, as the lifetime pass needs it |
| Accounting.MemoryPassthroughGeneration.Apply | Deeploy/CommonExtensions/CodeTransformationPasses/MemoryAllocation.py:336-375 | The counted size of every level moves with its live buffers, even when the pass raises; it raises exactly when an output or transient is live before or an input is dead; the peak takes in the size during the node |
| Accounting.MemoryPassthroughGeneration.CodeTransform | Deeploy/CommonExtensions/CodeTransformationPasses/MemoryAllocation.py:336-375 | Over any run of passes the count stays the summed size of the live buffers and the peak is the maximum over the allocation phases. For a well-formed schedule from nothing live it raises nothing, leaves live exactly what is produced and not used up, and the peak is the largest volume needed while a node runs |
| Accounting.LiveIsNeeded | Deeploy/CommonExtensions/CodeTransformationPasses/MemoryAllocation.py:124-160 | While a node of a well-formed schedule runs, a managed variable is live exactly when it is produced by then and its last user does not run before, a transient buffer exactly when the node uses it; afterwards, exactly the variables produced and not used up |
| Accounting.ReadersFindLive | Deeploy/CommonExtensions/CodeTransformationPasses/MemoryAllocation.py:124-160 | With users listed in the order of the schedule every node finds what it reads among these |
| Accounting.PeakIsMaximum | Deeploy/CommonExtensions/CodeTransformationPasses/MemoryAllocation.py:358-362 | The peak bounds the size in every phase and is reached in one, unless it is the initial one |
| Accounting.TopologicallySortBuffers | Deeploy/CommonExtensions/CodeTransformationPasses/MemoryAllocation.py:199-215 | Returns the list itself if no reference stands before its target or refers to itself, and raises otherwise |
| Accounting.ForwardReferenceIsRefused | Deeploy/CommonExtensions/CodeTransformationPasses/MemoryAllocation.py:173-198 | An acyclic list with a reference in front of its target is refused, though an order exists |
| Accounting.MemoryManagementGeneration.FreeUnaliased | Deeploy/CommonExtensions/CodeTransformationPasses/MemoryAllocation.py:277-287 | All buffers die; exactly those with something live, input or output linked to them at their turn stay counted |
| Accounting.MemoryManagementGeneration.Apply | Deeploy/CommonExtensions/CodeTransformationPasses/MemoryAllocation.py:246-289 | The count drifts from the live buffers by exactly the sizes of the skipped ones, so that it stays theirs if and only if all skipped ones have size zero; raises exactly on an unbalanced node, an unsorted reference or an unregistered alias |
| Accounting.MemoryManagementGeneration.CodeTransform | Deeploy/CommonExtensions/CodeTransformationPasses/MemoryAllocation.py:246-289 | Over any run of passes the drift is the summed size of all skipped buffers, the count is that of the live buffers at the end if and only if every buffer skipped by any pass has size zero, and the peak is the largest count; without aliases it is the largest live volume over the allocation phases. For a well-formed schedule from nothing live exactly what is produced and not used up is left live, and without aliases the peak is the largest volume needed while a node runs |
| Accounting.StillAccountedIff | Deeploy/CommonExtensions/CodeTransformationPasses/MemoryAllocation.py:280-286 | A drift of these buffers' sizes in every level vanishes in all levels if and only if each has size zero |
| Accounting.UnaliasedNotSkipped | Deeploy/CommonExtensions/CodeTransformationPasses/MemoryAllocation.py:280-286 | Without aliases, and apart from network inputs and outputs, nothing is skipped |
| Accounting.LinkedPairKeepsFirst | Deeploy/CommonExtensions/CodeTransformationPasses/MemoryAllocation.py:277-287 | A node that frees both ends of an alias link gives back only the second one's bytes |

## Left out

- The OR-tools solver and the MiniMalloc program: a satisfying assignment is taken as given; MiniMalloc and its CSV files are not modelled.
- ONNX and graph handling, pickling, plotting, logging, command line runners, C templates and their regular expressions: input, output and string work.
- Second and later mappers after a failed type check: the loop does not try them, and nothing is claimed about them beyond `Search.CompleteIffCovered`.
- Mapping.ONNXLayer.Parse: a mapper's parse is a function of the incoming context. That leaves out the flag that makes mappers after one whose parse succeeded skip hoisting the node's inputs and outputs, which those find hoisted already through the shallow copies of the context; changes leaking through these copies are not modelled.
- Discarding an exhausted mapper: proved unreachable in the search, so the branch has no model.
- Scheduling.AllocateLevel: one pattern in one memory level at a time; what the tiler posts besides, for other levels and patterns too, is a list of constraints on other variables, about which nothing is known. The constant-tensor offset is a parameter.
- Placement.AnnotatePattern: whether a chain of in-place blocks all get their range depends on the order the solver chose for them; only that each has its target's range or none is carried out of the permuted order.
- Deployments.DeployLevel: each pattern has its own solver; one assignment for all patterns and levels is the case where every solver returns that one. Why a pattern could not be scheduled is said by `Scheduling.AllocateLevel` for each pattern.
- Blocks of the inner and the outer scheduler in one level: the code shows nothing that keeps them apart, so no disjointness across patterns is claimed.
- Arenas.EmitOffsets: gives the offsets the templates print, not the text; a buffer of several patterns of one level keeps the last one printed.
- Liveness.FlowIsLiveness: one node per pattern, as the schedulers build it; for patterns of several nodes `Flows` says what every step does, and no closed form of what is live is claimed.
- Dma.TransferRectangle: the code's legalisation of transfers for element sizes and differing minimal shapes is not part of this model.
- TileSizes.MinTileSizeTilesIff: for constraints posted as hard ones on a dimension variable whose upper bound is the full dimension; posted as performance hints they may be dropped by the solver.
- Tiles.ComputeTileHyperRectangles: the rounded-up division is exact, without floating point.
- Memory level regular expressions are an arbitrary predicate on level names, and the buffers a node's code refers to are given, not extracted from templates.
- Names looked up without being registered raise an error in the program; apart from alias links and chains the model takes them as registered.
- Sizes and addresses are unbounded integers.
