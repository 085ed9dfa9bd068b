# Gossamer core state machines, in Dafny

A model of six stateful components of the Gossamer Polkadot host, with proofs about whole runs of them.

- **GRANDPA authority sets.** `ChangeTree` is the forest of pending scheduled changes and `ChangeMeaning` what its
  operations amount to in terms of block ancestry; `ForcedChanges` is the list of forced changes, `GrandpaState` the
  state they drive, and `GrandpaRuns` the runs: the forest mirrors block ancestry, forced changes stay one per fork,
  a change is enacted exactly when it is due, the set history is strictly increasing, and the set of a block number
  is found.
- **Block tree.** `Ancestry` and `BlockTreeSpec` are the block history as a value; `BlockTreeNode` and `BlockTrees`
  the linked nodes, insertion, search and pruning; `PruneWalk` and `PruneComplete` what the pruning loop reports
  while it reads a slice that shrinks under it; `ForkChoice` the best leaf; `TreeQueries` ancestry, common ancestors,
  ranges and runtime lookups; `Runtimes` what finalisation does to the in-memory runtimes, and exactly when it
  changes no lookup.
- **Finalisation.** `FinalisedChain` is the block state (tree, unfinalised blocks, stored headers, number-to-hash
  rows, rounds); `FinalisedRuns` its lookups and runs. The ancestry answers proved right there are what the GRANDPA
  modules assume of their `isDescendantOf`.
- **Full sync.** `Fragments` joins, filters, sorts and merges chain fragments; `SyncResults` sorts results into blame,
  bans and usable responses, `SyncGather` collects what these make ready, `SyncImport` hands it to the importer, and
  `FullSync` is the strategy that does it all in one call; `WorkerPool` is the concurrent request protocol as a step
  system, and `WorkerCredits` who gets the credit for a task.
- **Peer set.** `PeersState` keeps reputations and slot counters, `PeerSets` the actions, the allocator and the
  message log, `PeerSetSpec` what these mean on values.
- **Small trackers.** `EquivocationWindow` is the BABE equivocation check, `CommitsTracker` the commit-message queue.

Modelling conventions. Block hashes, peers, signers and runtimes are numbers; byte-wise comparison of equal-length
hashes is the order of the numbers. A block history maps each hash to its parent, number, arrival time and
primary-slot flag; a tree is what descends from its root in the history. Integers are unbounded except where width
matters: reputations are 32-bit, slot counters wrap on decrement, and the set-ID search handles the unsigned wrap at 0.
Database errors, clocks, networking and block execution are parameters or nondeterministic choices: ancestry lookups
may fail at any time, importing a block may change what is known in any way, elapsed time and expiry are left open.
Iteration over Go maps is in arbitrary order.

Where the code and its comments differ the model follows the code. `submitRequests` does not return when the last
worker has failed while another task still waits (`WorkerPool.CanDeadlockIff`). `SetFinalisedHash` can refuse a set ID
after it has already moved the blocks (`FinalisedChain.BlockState.SetFinalisedHash`). `removeReservedPeers` stops after
the first peer outside reserved-only mode (`PeerSets.PeerSet.SetReservedPeers`). An empty block response passes
validation although later code needs a first block, and a known bad block sent without its header is logged with a
number it does not have (`FullSync.Strategy.Process`). The pruning loop can skip a sibling
(`PruneComplete.SecondForkSkipped`), which then stays among the unfinalised blocks.

`dafny verify dfyconfig.toml` checks the whole project.

## Model

| member | source | states |
|---|---|---|
| ChangeTree.AboveIsAncestry | dot/state/grandpa_changes.go:147-214 | Of two pending scheduled changes, one is above the other in the forest if and only if its announcing block is a strict ancestor of the other's. |
| ChangeTree.HashesUnique | dot/state/grandpa_changes.go:147-214 | A well-shaped forest holds every announcing block once: as many hashes as nodes. |
| ChangeTree.ImportAddsOne | dot/state/grandpa_changes.go:147-214 | A successful import adds exactly one hash, one that was not held, and a new root only when no root takes the change. |
| ChangeTree.ImportKeepsShapeIff | dot/state/grandpa_changes.go:147-214 | An import keeps the shape of the ancestry if and only if no change already pending is announced below the new one; the source does not check this. |
| ChangeTree.ImportCanBreakShape | dot/state/grandpa_changes.go:147-214 | A two-change example in which the later block announces first and the forest loses the shape. |
| ChangeTree.DuplicateRejected | dot/state/grandpa_changes.go:147-214 | Importing a change whose announcing block is already held fails wherever in the forest it is held. |
| ChangeTree.ImportedIsLeaf | dot/state/grandpa_changes.go:147-214 | The imported change becomes a leaf: nothing is below it. |
| ChangeTree.SiblingsDecline | dot/state/grandpa_changes.go:147-182 | When no sibling takes the change, no sibling is an ancestor of it and it is not held among them. |
| ChangeTree.ImportKeepsDescending | dot/state/grandpa_changes.go:147-214 | Without any assumption on import order, children still descend from their node. |
| ChangeTree.ApplicableMeaning | dot/state/grandpa_changes.go:238-298 | A root found applicable is an ancestor of (or is) the finalised block, its effective number is reached, and no change below it is finalised. |
| ChangeTree.PruneMeaning | dot/state/grandpa_changes.go:302-320 | Pruning keeps exactly the roots announced at or below the finalised block, with their subtrees; a pending ancestor is dropped. |
| ChangeTree.PruneKeepsShape | dot/state/grandpa_changes.go:302-320 | Pruning keeps the shape of the forest. |
| ChangeMeaning.ImportMeaning | dot/state/grandpa_changes.go:147-214 | Whatever the order of announcements was: an import is refused as a duplicate if and only if the block's change is held, and otherwise only by a failed lookup; a successful one stores the change itself as a childless last sibling and changes nothing else. |
| ChangeMeaning.ImportAddsLeaf | dot/state/grandpa_changes.go:147-214 | The forest after an import is the old one with one childless node appended after the last child of some node, or after the last root. |
| ChangeMeaning.LeafContents | dot/state/grandpa_changes.go:147-214 | The changes held afterwards are the old ones and the new one, each with all its fields. |
| ChangeMeaning.LeafKeepsAbove | dot/state/grandpa_changes.go:147-214 | The order among the changes already held stays. |
| ChangeMeaning.ImportPlaces | dot/state/grandpa_changes.go:147-214 | The new change lies below exactly the held changes announced by ancestors of its block. |
| ChangeMeaning.FindApplicableMeaning | dot/state/grandpa_changes.go:238-298 | The first root on the finalised chain whose number plus delay is reached decides: it is found if none of its children is finalised too, and is the unfinalised-ancestor error otherwise; none is found only if there is no such root, and the only other error is a failed lookup. |
| ChangeMeaning.FindApplicableIff | dot/state/grandpa_changes.go:238-298 | With every lookup answered, nothing is found if and only if no root is on the finalised chain with number plus delay reached, and otherwise the first such root and its children alone fix the outcome. |
| ChangeMeaning.PruneExact | dot/state/grandpa_changes.go:302-320 | Pruning keeps, in order and with everything under them, exactly the roots at or below the finalised block, and fails only on a failed lookup. |
| ForcedChanges.Search | dot/state/grandpa_changes.go:98-105 | The binary search stops at an index whose left neighbour fails the two-part test and which itself passes it, whatever the order of the list. |
| ForcedChanges.CheckMeaning | dot/state/grandpa_changes.go:78-96 | A forced change is let in if and only if no held change is of its block or of an ancestor; otherwise the first such change decides between the duplicate and the already-has-one error. The only other error is a failed lookup. |
| ForcedChanges.InsertKeepsOrder | dot/state/grandpa_changes.go:98-113 | An import inserts one element and keeps the order of the rest. |
| ForcedChanges.InsertPlace | dot/state/grandpa_changes.go:98-113 | In an ordered list the new change goes right before the first change that is before it in neither number. |
| ForcedChanges.ImportForcedOnePerForkIff | dot/state/grandpa_changes.go:78-113 | After an import no two forced changes are on one fork if and only if nothing held is announced below the new change. |
| ForcedChanges.ForcedCanShareFork | dot/state/grandpa_changes.go:78-113 | A two-change example in which the later block announces first and both end up on one fork. |
| ForcedChanges.InsertOrderedIff | dot/state/grandpa_changes.go:98-113 | The list stays ordered in both components if and only if the new change is comparable in both at once with every held one. |
| ForcedChanges.InsertCanUnorder | dot/state/grandpa_changes.go:98-113 | A two-change example in which the insertion breaks the order. |
| ForcedChanges.PruneForcedMeaning | dot/state/grandpa_changes.go:117-133 | Pruning keeps, in the order of the list, exactly the forced changes announced at or below the finalised block, and fails only on a failed lookup. |
| ForcedChanges.AtMostOneDue | dot/state/grandpa_changes.go:38-58 | With one change per fork, at most one is due at any block. |
| ForcedChanges.FindForcedMeaning | dot/state/grandpa_changes.go:38-76 | The first change due at the imported block is found, none if and only if none is due; the only error is a failed lookup. |
| ForcedChanges.FindForcedOrderFree | dot/state/grandpa_changes.go:38-76 | With one change per fork the answer is the same for every ordering of the list. |
| GrandpaState.ImportRoots | dot/state/grandpa_changes.go:192-214 | The loop over the roots computes the first-taker import. |
| GrandpaState.State.AddScheduledChange | dot/state/grandpa.go:137-156 | The new state is the import of the change, or the old state with the error; AddScheduledMeaning says which. |
| GrandpaState.AddScheduledMeaning | dot/state/grandpa.go:137-156 | An announcement succeeds if and only if its block is not held and no lookup fails; then the very change is added as a leaf, the order of the others and the rest of the state stay; a refused one changes nothing. |
| GrandpaState.State.AddForcedChange | dot/state/grandpa.go:115-135 | The new state is the forced import, or the old state with the error. |
| GrandpaState.AddForcedMeaning | dot/state/grandpa.go:115-135 | A forced announcement is inserted if and only if nothing held is at or above its block and no lookup fails; each refusal has its reason and changes nothing. |
| GrandpaState.State.PruneForcedChanges | dot/state/grandpa_changes.go:117-133 | The loop computes the pruned list, or leaves it on an error. |
| GrandpaState.State.PruneScheduledChanges | dot/state/grandpa_changes.go:302-320 | The loop computes the pruned roots, or leaves them on an error. |
| GrandpaState.State.ApplyScheduledChanges | dot/state/grandpa.go:160-209 | Runs the two prunings, the search and the writes in place; what the new state is, ApplyScheduledMeaning says. |
| GrandpaState.ApplyScheduledMeaning | dot/state/grandpa.go:160-209 | A finalisation keeps exactly the forced changes at or below the block; it enacts the first root on the chain whose number plus delay is reached, as the next set with that number and the change's authorities and its children as roots, unless one of them is finalised too, which is an error; with no such root it keeps exactly the roots at or below the block. |
| GrandpaState.State.ApplyForcedChanges | dot/state/grandpa.go:213-277 | Runs the two lookups and the writes in place; an error changes nothing and an enactment empties both collections. What the new state means is ApplyForcedMeaning. |
| GrandpaState.DependantMeaning | dot/state/grandpa.go:225-237 | The lookup is true if and only if some root is announced at or above the forced block with an effective number not above the finalised number it names; roots only. |
| GrandpaState.ApplyForcedMeaning | dot/state/grandpa.go:213-277 | The first forced change due decides: it is enacted if no root blocks it, which empties both collections, ends the current set at the finalised number it names and begins the next at its number plus delay; blocked it is an error; with none due, or on an error, nothing changes, and the only other error is a failed lookup. |
| GrandpaState.ApplyForcedIff | dot/state/grandpa.go:213-277 | With one forced change per fork the due one alone decides: enacted if and only if no root blocks it. |
| GrandpaState.LookupForced | dot/state/grandpa_changes.go:38-76 | The loop finds the first change due at the imported block, or the first failed ancestry lookup. |
| GrandpaState.LookupDependant | dot/state/grandpa.go:225-237 | The loop over the roots answers the same question as the lookup on values. |
| GrandpaState.State.GetSetIDByBlockNumber | dot/state/grandpa.go:455-497 | With strictly increasing change numbers the backward search ends despite the unsigned wrap at 0 and returns the set whose half-open interval holds the block number. |
| GrandpaState.InSetUnique | dot/state/grandpa.go:455-497 | The intervals of the sets do not overlap, so that set is unique. |
| GrandpaState.State.Truncate | dot/state/service.go:222-244 | The end of a rewind makes the set of the height current and keeps exactly the change rows up to it. |
| GrandpaState.WithoutRows | dot/state/service.go:238-244 | The deletion loop removes exactly the rows of the range. |
| GrandpaState.TruncateKeepsAnswers | dot/state/service.go:222-244 | After the truncation the set of every block number up to the rewound height is what it was. |
| GrandpaRuns.PendingShapeOverRuns | dot/state/grandpa.go:92-277 | Over every run of announcements, finalisations and imports in which ancestors announce first, the forest has the shape of the ancestry, forced changes are one per fork, and all are from the run. |
| GrandpaRuns.ForestIsAncestryOverRuns | dot/state/grandpa_changes.go:38-214 | After every such run: forest order is ancestry, no block is held twice, a further announcement is refused if and only if its block is held (or a lookup fails) and then changes nothing, and at most one forced change is due at any block. |
| GrandpaRuns.AnyOrderOverRuns | dot/state/grandpa_changes.go:147-214 | Over every run, with announcements in any order: everything pending was announced just so, and a further announcement is refused if and only if its block is held (or a lookup fails). |
| GrandpaRuns.SetHistoryOverRuns | dot/state/grandpa.go:160-209 | Over every run of scheduled changes and finalisations along one chain: set IDs are contiguous from 0, their change numbers strictly increase, and no finalised height enacts two changes. |
| GrandpaRuns.EnactedIffRipeOverRuns | dot/state/grandpa.go:160-209 | After every such run, a finalisation whose lookups are answered enacts exactly the first root on its chain whose number plus delay is reached, if none of that root's children is finalised, and nothing otherwise. |
| GrandpaRuns.SetOfBlockOverRuns | dot/state/grandpa.go:160-497 | End to end: after every such run the set of a block number is the number of changes enacted below it. |
| GrandpaRuns.CountIsBoundary | dot/state/grandpa.go:455-497 | The changes below a block number are a prefix of the enacted ones. |
| GrandpaRuns.ForcedKeepsIncreasingIff | dot/state/grandpa.go:213-277 | A block import keeps the change numbers strictly increasing if and only if it enacts nothing, or the enacted change names a finalised number above the previous set's and below its own effective number; the source checks neither. |
| GrandpaRuns.ForcedCanUnorder | dot/state/grandpa.go:213-277 | A two-event run after which set 0 is said to begin at 5 and set 1 at 2. |
| GrandpaRuns.OverwriteIncreasing | dot/state/grandpa.go:246-270 | The same condition for any overwrite of the top row followed by a new one. |
| BlockTreeNode.Node.constructor | lib/blocktree/blocktree.go:107-114 | A new node is childless and points to its parent. |
| BlockTreeNode.Node.AddChild | lib/blocktree/node.go:25-27 | The child is listed last. |
| BlockTreeNode.Node.GetNode | lib/blocktree/node.go:44-60 | Finds a hash whenever every link on the way down to it is in place, and only nodes below the start. |
| BlockTreeNode.Node.IsDescendantOf | lib/blocktree/node.go:85-103 | True only for a descendant; true whenever every link down to it is in place, also while other links are being cut. |
| BlockTreeNode.Node.GetLeaves | lib/blocktree/node.go:106-124 | Collects exactly the childless nodes at or below the node. |
| BlockTreeNode.Node.DeleteChild | lib/blocktree/node.go:194-201 | The first child with the hash leaves the slice, the rest shift left in the shared array, and the last slot keeps its old content. |
| BlockTreeNode.Node.Cut | lib/blocktree/node.go:163-201 | Cutting a node of another fork deletes it from its parent's slice and from no other, and leaves every link of the finalised chain and its subtree in place. |
| BlockTreeNode.Node.Prune | lib/blocktree/node.go:163-192 | What is reported and every slice of children afterwards are exactly those of the walk on values, although the loop reads an array that shrinks under it; parent links and the finalised chain stay linked. |
| BlockTreeNode.Node.PruneChildren | lib/blocktree/node.go:185-190 | The loop over the shrinking children does exactly the turns of the walk. |
| BlockTreeNode.ChainReaches | lib/blocktree/node.go:163-201 | Both descendant searches of pruning answer exactly the ancestry, whatever has been cut elsewhere. |
| PruneWalk.WalkPrunes | lib/blocktree/node.go:163-192 | Every part of the walk: each reported block is of the tree, neither ancestor nor descendant of the finalised one, and no longer among its parent's children; no block gains a child; at and below the finalised block nothing changes. |
| PruneWalk.WalkReports | lib/blocktree/node.go:163-192 | A block of another fork is reported when the walk reaches it. |
| PruneWalk.FirstForkReported | lib/blocktree/node.go:163-192 | The first child of the root is reported whenever it is on another fork. |
| PruneWalk.SiblingSkipped | lib/blocktree/node.go:163-192 | With children 1, 2, 3 of the root and 3 finalised, only 1 is reported: 2 is on another fork and is never reached. |
| PruneWalk.DeletedMeans | lib/blocktree/node.go:194-201 | One deletion removes exactly that child, keeps the others and the length of the array, and puts nothing new into it. |
| PruneComplete.NarrowReportsAll | lib/blocktree/node.go:163-192 | If no block of the tree has more than two children, every block of the other forks is reported. |
| PruneComplete.SecondForkSkipped | lib/blocktree/node.go:163-192 | If the first two children of the root are both on other forks, the second is never reported, whatever the tree. |
| PruneComplete.WalkLocal | lib/blocktree/node.go:163-192 | Besides the slices at and below a block the walk changes only its parent's, by deleting the block if it is on another fork. |
| PruneComplete.ReportsBelow | lib/blocktree/node.go:163-192 | What the walk from a block reports is at or below it. |
| BlockTrees.BlockTree.constructor | lib/blocktree/blocktree.go:61-75 | A tree of one block, its root and only leaf. |
| BlockTrees.BlockTree.GetNode | lib/blocktree/blocktree.go:240-258 | Finds exactly the hashes of the tree. |
| BlockTrees.BlockTree.AddBlock | lib/blocktree/blocktree.go:79-121 | The four checks in order give the error; otherwise the block is in the history and last among its parent's children, and on an error nothing changes. |
| BlockTrees.BlockTree.Insert | lib/blocktree/blocktree.go:93-120 | Inserting a block keeps hashes unique, numbers consecutive, links mutually inverse and the leaf map equal to the childless nodes. |
| BlockTrees.InsertLinks | lib/blocktree/blocktree.go:93-120 | The list of children of every block of the tree after an insertion is exactly the blocks whose parent it is, once each. |
| BlockTrees.BlockTree.Prune | lib/blocktree/blocktree.go:263-307 | Afterwards the tree is exactly the finalised block and its former descendants, rooted there; the reported hashes are exactly those of the walk on the old lists of children, all on other forks; the runtimes are re-keyed. |
| BlockTrees.BlockTree.CanonicalSegment | lib/blocktree/blocktree.go:281-293 | Walking back from the finalised block collects exactly the newly finalised path, the root included only if it is number 0. |
| BlockTrees.RerootLinks | lib/blocktree/blocktree.go:295-304 | Cutting a tree down to one of its subtrees leaves a tree. |
| BlockTrees.LeavesBelow | lib/blocktree/blocktree.go:299-303 | The leaf map is rebuilt as exactly the childless blocks of the new tree. |
| BlockTrees.BlockTree.LeavesAreLeaves | lib/blocktree/leaves.go:15-58 | The leaf map holds exactly the leaves of the block history below the root. |
| ForkChoice.PrimaryAncestorCount | lib/blocktree/node.go:203-215 | Adds to the running count the primary blocks from the node up to, but not including, the root. |
| ForkChoice.HighestLeaf | lib/blocktree/leaves.go:60-92 | Of leaves above number 0 returns the highest, then earliest, then lowest-hash one for every iteration order, never nil. |
| ForkChoice.CountLeaves | lib/blocktree/leaves.go:125-148 | Groups the leaves by primary count for every iteration order and finds the highest count. |
| ForkChoice.BestBlock | lib/blocktree/leaves.go:125-163 | Returns the maximum leaf of the fork choice, without a nil dereference. |
| BlockTreeSpec.BetterTotal | lib/blocktree/leaves.go:60-163 | The fork choice is total and asymmetric. |
| BlockTreeSpec.BestUnique | lib/blocktree/leaves.go:60-163 | There is only one best leaf. |
| ForkChoice.GetHashByNumber | lib/blocktree/blocktree.go:461-494 | Returns the best leaf's ancestor with the number for every number from the root to it; the two errors exactly outside. |
| TreeQueries.IsDescendantOf | lib/blocktree/blocktree.go:364-381 | Answers ancestry exactly for two blocks of the tree; equal hashes are true even if unknown; the missing end is named. |
| TreeQueries.LowestCommonAncestor | lib/blocktree/blocktree.go:393-407 | The ancestors of the answer are exactly the common ancestors of both blocks. |
| TreeQueries.CommonAncestor | lib/blocktree/blocktree.go:408-436 | The two walks end before running past the root, so the panics are unreachable. |
| TreeQueries.AccumulateHashes | lib/blocktree/blocktree.go:209-237 | Collects the start and then the end's ancestors above its number; the missing-parent error cannot occur. |
| TreeQueries.CollectedIsPathIff | lib/blocktree/blocktree.go:209-237 | What is collected is the path between the two if and only if the start is an ancestor of the end, which the source does not check. |
| TreeQueries.RangeCanJump | lib/blocktree/blocktree.go:209-237 | An example: from a block on another fork the collected range jumps to a block that is not its child. |
| TreeQueries.RangeInMemory | lib/blocktree/blocktree.go:183-207 | Every error case, and the collected range otherwise. |
| TreeQueries.GetBlockRuntime | lib/blocktree/blocktree.go:541-569 | The entry of the block or of its nearest ancestor in the tree; an unknown block without an entry is an error. |
| Runtimes.RuntimeMeaning | lib/blocktree/blocktree.go:541-569 | A lookup finds the entry nearest to the block, or there is none between it and the root. |
| Runtimes.OnFinalisation | lib/blocktree/hashtoruntime.go:55-108 | The new mapping, and exactly the other instances are stopped, each once. |
| Runtimes.StopOthers | lib/blocktree/hashtoruntime.go:92-101 | Every instance but the kept one is stopped exactly once for every iteration order. |
| Runtimes.ClosestIsRuntime | lib/blocktree/hashtoruntime.go:84-107 | The entry found on the newly finalised segment is the one the finalised block used. |
| Runtimes.FinalisationKeepsLookupsIff | lib/blocktree/blocktree.go:276-297 | Finalising a block leaves every survivor's runtime unchanged if and only if: there is no entry; or the only entry is between the root and the block; or there are several and either some newly finalised block has one and every entry below the block equals the runtime it uses, or none has one and neither has the root. |
| Runtimes.FinalisationCanLoseRuntime | lib/blocktree/hashtoruntime.go:55-108 | An example: an entry of the old root and one on another fork, and the finalised block loses its runtime. |
| FinalisedChain.BlockState.constructor | dot/state/block.go:115-161 | A new state is consistent: one row, no unfinalised block, genesis finalised in round 0 of set 0. |
| FinalisedChain.BlockState.AddBlock | dot/state/block.go:532-545 | Adds to the tree and to the unfinalised blocks, or changes nothing; consistency is kept. |
| FinalisedChain.BlockState.StoreSteps | dot/state/block_finalisation.go:221-283 | Moves the path's blocks from memory to the store, with one row each, exactly when all are in memory and block 1 has a slot. |
| FinalisedChain.BlockState.HandleFinalisedBlock | dot/state/block_finalisation.go:211-284 | Succeeds if and only if the block is the last finalised one, or in the tree with a storable path; then path, headers and rows have moved; a first block without a slot stops it after its header is stored. |
| FinalisedChain.WrittenFrom | dot/state/block_finalisation.go:211-284 | What the attempt leaves when every block of the tree is in memory: exactly the headers stored, the rows, and why it was refused. |
| FinalisedChain.BlockState.RecordRound | dot/state/block_finalisation.go:75-86 | The highest set ID is never lowered, but the round's hash has been written by then. |
| FinalisedChain.BlockState.SetFinalisedHash | dot/state/block_finalisation.go:126-195 | Succeeds exactly for ready blocks of the tree with a set ID not below the highest; keeps the state consistent if and only if it is not a call that stores the path and then refuses the set ID, after which nothing at or below that block can be finalised. The whole new state: which blocks leave the unfinalised ones, which headers are stored, the record of the round, and on success the re-keyed runtimes, under which every surviving block's lookup is unchanged if and only if KeepsLookups held before; every refusal has its reason. |
| FinalisedChain.RowsExtend | dot/state/block_finalisation.go:226-283 | Writing the rows of the path makes the rows one parent-linked chain from genesis to the new block. |
| FinalisedChain.MovedConsistent | dot/state/block_finalisation.go:211-283 | After the path is moved the state is consistent for the new finalised block, and for the old one nothing below is ready any more. |
| FinalisedChain.RowIsAncestor | dot/state/block_finalisation.go:226-283 | Every row is an ancestor of every higher row. |
| FinalisedRuns.Run | dot/state/block_finalisation.go:126-195 | Over every run of additions and finalisations, failed calls included, up to the first call that strands blocks: the root is the last finalised block and descends from every earlier one, rows only grow, the highest set ID never falls. After a stranding call nothing at or below the refused block can be finalised. |
| FinalisedRuns.Step | dot/state/block_finalisation.go:126-195 | One call: what it does to the history and to the last finalised block, and whether it strands blocks. |
| FinalisedRuns.StrandingExample | dot/state/block_finalisation.go:126-195 | A run that ends stranded: block 1 is finalised by set 1, then block 2 is asked for by set 0. |
| FinalisedRuns.HeaderIsHistory | dot/state/block.go:234-265 | The header answered for a block, from memory or from the store, carries the number and the parent of that block. |
| FinalisedRuns.IsDescendantOf | dot/state/block.go:782-813 | Every answer, from the tree or from stored headers, is the ancestry; there is an answer whenever both blocks are on the finalised chain or in the tree. |
| FinalisedRuns.WalkHeaders | dot/state/block.go:789-810 | The walk over stored headers ends and is right. |
| FinalisedRuns.GetHashByNumber | dot/state/block.go:268-283 | Succeeds exactly from genesis to the best leaf, with the best leaf's ancestor of that number, whether it is in the tree or in a row. |
| FinalisedRuns.RowOfAncestor | dot/state/block.go:276-283 | The row of every block of the finalised chain is that block. |
| Fragments.ConcatChain | dot/sync/unready_blocks.go:84-88 | Joining two chains at parent and child gives a chain. |
| Fragments.Filter | dot/sync/unready_blocks.go:25-33 | Computes the blocks above a number. |
| Fragments.AboveIsSuffix | dot/sync/unready_blocks.go:25-33 | Of a chain the blocks above a number are a suffix. |
| Fragments.SortFragments | dot/sync/fullsync.go:507-526 | A permutation of the fragments; if none is empty, ordered by their first number. |
| Fragments.MergeFragments | dot/sync/fullsync.go:536-557 | Fails exactly for an empty fragment among several; otherwise the flattened block order stays, every piece is linked, and no two neighbours could still be joined. |
| SyncResults.ValidateFields | dot/sync/fullsync.go:560-572 | Names the first missing field in the source's order. |
| SyncResults.FieldsErrorMeaning | dot/sync/fullsync.go:560-572 | No error if and only if every block has what was asked for; otherwise the first block that lacks something decides, its header before its body. |
| SyncResults.IsResponseAChain | dot/sync/fullsync.go:574-589 | True exactly when each block is the parent of the next. |
| SyncResults.ValidateResults | dot/sync/fullsync.go:416-495 | Fails exactly for a crash, and otherwise sorts every result into blame, bans and responses to use, as the lemmas below say. |
| SyncResults.JudgeMeaning | dot/sync/fullsync.go:423-492 | One result, its blocks the oldest first: accepted if and only if completed, with every part asked for, a chain if headers were, and without a bad block; blamed for an incomplete header if and only if the first missing part is a header or it is no chain; banned if and only if it is sound and its first bad block has a header, a crash if that has none. |
| SyncResults.AcceptedExactly | dot/sync/fullsync.go:416-495 | The responses to use come, in order and with their blocks the oldest first, from exactly the sound results without a bad block. |
| SyncResults.BlamedExactly | dot/sync/fullsync.go:416-495 | The blame falls, in order and with its reason, on the peers of exactly the faulty results and those with a bad block. |
| SyncResults.BannedExactly | dot/sync/fullsync.go:416-495 | Banned, in order, are the peers of exactly the results with a bad block. |
| SyncResults.CrashesExactly | dot/sync/fullsync.go:470-474 | The call crashes if and only if in some result, sound otherwise, the first bad block came without a header. |
| SyncResults.CollectedAt | dot/sync/fullsync.go:423-492 | What a loop appends at most one thing per element comes in order from exactly the elements that append. |
| SyncResults.EmptyResponsePasses | dot/sync/fullsync.go:416-495 | An empty response is accepted by the checks. |
| FullSync.Strategy.NewIncompleteBlock | dot/sync/unready_blocks.go:103-112 | The announced block is remembered with its header only. |
| FullSync.Strategy.UpdateDisjointFragments | dot/sync/unready_blocks.go:122-143 | Joins with the first parked fragment that fits, which leaves the list, into a chain; otherwise no parked fragment fits and nothing changes; fails exactly for an empty chain when something is parked. |
| FullSync.Strategy.UpdateIncompleteBlocks | dot/sync/unready_blocks.go:148-168 | Each announced block that arrives becomes a fragment of its own and is no longer incomplete. |
| SyncGather.CompletedMeans | dot/sync/unready_blocks.go:148-168 | A response completes exactly the announced blocks it names, each with its announced header and a body that came with the response. |
| SyncGather.CompletedExactly | dot/sync/unready_blocks.go:148-168 | The completed blocks come, in order, from the first part that arrived for each announced block: its header with that body and justification. |
| SyncGather.AllCompletedMeans | dot/sync/fullsync.go:159-186 | Over several responses: exactly the announced blocks that some response without headers names are completed. |
| SyncGather.RemainingMeans | dot/sync/fullsync.go:159-186 | Exactly the others stay incomplete, unchanged. |
| FullSync.Strategy.Collect | dot/sync/fullsync.go:159-186 | Response by response: with headers, joined with the first parked fragment it fits and cut off at the finalised height, or taken as it is; without, completing announced blocks. |
| SyncGather.GathersConserves | dot/sync/fullsync.go:159-186 | One response: nothing above the finalised height is lost, nothing comes from elsewhere, parked fragments only go. |
| SyncGather.GatherNext | dot/sync/fullsync.go:159-186 | Over several responses: everything parked or sent with headers is ready, still parked, or at or below the finalised height, and everything ready has such a source. |
| FullSync.Strategy.Prepare | dot/sync/fullsync.go:157-191 | The ready fragments are ordered by the number of their first block and merged: the same blocks in that order, in pieces as long as can be. |
| SyncImport.Admit | dot/sync/fullsync.go:193-208 | Fails exactly for an empty fragment; otherwise the fragments whose first parent is known, joined, and the rest. |
| SyncImport.RootedExactly | dot/sync/fullsync.go:193-208 | Both lists keep the order and hold exactly the fragments whose parent is known, and is not. |
| SyncImport.RootedMeaning | dot/sync/fullsync.go:193-208 | Each block joined for import has its parent known or right before it, and no block is lost. |
| SyncImport.ImportAll | dot/sync/fullsync.go:212-221 | Blocks are handed over in order until one fails; a known one changes nothing, another is processed in the world left by the one before, and exactly the processed ones are counted. |
| SyncImport.EachProcessedOnce | dot/sync/fullsync.go:212-221 | If processing makes a block known, a pass that goes through makes all of them known, and each one that was not is processed once, however often it is listed. |
| FullSync.Strategy.Triage | dot/sync/fullsync.go:232-271 | Runs the pass over fragments whose parent was unknown: what it admits, and what it parks with one request each for the parent. |
| SyncImport.TriageExactly | dot/sync/fullsync.go:232-271 | Cut off at the finalised height, exactly the fragments whose parent is known now are admitted and exactly those whose missing parent is above the height are parked, both in order. |
| SyncImport.TriageMeaning | dot/sync/fullsync.go:232-271 | Every block is admitted, parked, at or below the height, or in a fragment dropped for a parent that low; no block that low is admitted. |
| FullSync.Strategy.PruneUnready | dot/sync/fullsync.go:275-279 | Keeps, in order, exactly the fragments, and exactly the announced blocks, entirely above the finalised height. |
| FullSync.HigherExactly | dot/sync/fullsync.go:275-279 | Which fragments these are. |
| FullSync.Strategy.Process | dot/sync/fullsync.go:148-282 | One call, for every list of results: it fails on a missing block or header if and only if a bad block came without a header or some usable response with headers is empty, and then imports nothing. Otherwise the responses are gathered one by one, merged, and imported in two rounds as TwoRounds says; every ready block meets one of the fates; the queue grows by one request per parked fragment; what stays parked and announced is what lies above the new height. Blame and bans are passed on only on success, and the counter of synced blocks moves even if a later import fails. |
| FullSync.Strategy.ImportRounds | dot/sync/fullsync.go:210-273 | The loop ends after at most two rounds: the blocks admitted first, then those freed by the pass over fragments with unknown parents; the first failed import ends it there. |
| FullSync.LowerThanOrEq | dot/sync/unready_blocks.go:215-221 | Finds out whether a fragment reaches down to a number. |
| SyncGather.JoinKeeps | dot/sync/fullsync.go:167-179 | Joining and filtering lose no block above the finalised height. |
| WorkerPool.StepInv | dot/sync/worker_pool.go:80-168 | Every step keeps each task in exactly one place, each worker accounted for and the request count right; no send on a closed channel. |
| WorkerPool.StepWeight | dot/sync/worker_pool.go:80-168 | Every step lowers a measure, so every run ends. |
| WorkerPool.SafeOverRuns | dot/sync/worker_pool.go:80-168 | In every interleaving: each task in exactly one place, no channel over its capacity, no send blocked or panicking, at most tasks + workers requests, a bounded number of steps. |
| WorkerPool.StuckMeans | dot/sync/worker_pool.go:80-168 | A state without a next step is finished, or every worker has failed while a task still waits for one. |
| WorkerPool.DoomedForever | dot/sync/worker_pool.go:150-152 | That deadlock is permanent: no continuation finishes. |
| WorkerPool.SurvivorMeansProgress | dot/sync/worker_pool.go:80-168 | While some worker has not failed, an unfinished run can go on. |
| WorkerPool.CanDeadlockIff | dot/sync/worker_pool.go:78-147 | A deadlock is reachable if and only if there is no worker or there are at least two tasks; the source's comment promises that submission ends when no workers are left. |
| WorkerPool.OneTaskRun | dot/sync/worker_pool.go:104-120 | With a single task a goroutine waits only while there is a worker to take. |
| WorkerCredits.StepFits | dot/sync/worker_pool.go:149-169 | Every step keeps goroutines, queues and results where the log of requests and failures says their tasks are. |
| WorkerCredits.CreditsOverRuns | dot/sync/worker_pool.go:149-169 | In every interleaving a completed result names a submitted worker, the one taken last for its task, whose request did not fail; a result without a worker is for a task that was tried and whose every request failed. |
| WorkerCredits.FinishedRun | dot/sync/worker_pool.go:117-147 | A finished run returns exactly one result per task, which names the worker that served it; every worker that did not fail is back, and requests are results plus failures. |
| EquivocationWindow.SlotState.CheckEquivocation | dot/state/slot.go:48-187 | One check: the answer and the whole new window. |
| EquivocationWindow.PrunesOnlyOld | dot/state/slot.go:130-140 | Pruning deletes only slots more than 1000 old. |
| EquivocationWindow.StoringBound | dot/state/slot.go:127-187 | A storing check leaves the window shorter than 2000 slots, with the new header in it. |
| EquivocationWindow.CheckRefines | dot/state/slot.go:48-187 | A timely check answers like a memory that never forgets and keeps the window in step with it, whatever the times of other checks. |
| EquivocationWindow.CheckAgreesIff | dot/state/slot.go:48-187 | A check answers like that memory if and only if there is nothing to find, or it is timely: out of capacity, or not before the start of the window and not for a slot pruned since the first one saved. |
| EquivocationWindow.TimelyLosesNothing | dot/state/slot.go:48-187 | Over every run of timely checks all answers are those of the memory that never forgets. |
| EquivocationWindow.FirstUntimelyIff | dot/state/slot.go:48-187 | The first check of a run that is not timely is answered alike if and only if there is nothing to find. |
| EquivocationWindow.MovingOnIsTimely | dot/state/slot.go:48-187 | If time does not go back, every check is timely. |
| EquivocationWindow.PruningLosesNothing | dot/state/slot.go:48-187 | Over every run in which time does not go back, all answers are those of the memory that never forgets. |
| EquivocationWindow.ProofIsSound | dot/state/slot.go:106-125 | In every run, whatever the times, a proof names two different headers, both seen for its slot and signer. |
| EquivocationWindow.EquivocationIsCaught | dot/state/slot.go:106-125 | In every run of timely checks: once a header is accepted, any later different one for its slot and signer within capacity gives a proof naming both. |
| EquivocationWindow.TimeBackLosesEvidence | dot/state/slot.go:130-140 | A three-call example in which time goes back and an equivocation is missed. |
| PeersState.Add | dot/peerset/peerset.go:132-141 | Saturating 32-bit addition, without an intermediate overflow. |
| PeersState.Sub | dot/peerset/peerset.go:144-153 | Saturating 32-bit subtraction, without an intermediate overflow. |
| PeersState.Tick | dot/peerset/peerset.go:262-270 | One second takes away a fiftieth, rounded down but at least 1, strictly towards 0 and never past it. |
| PeersState.DecaysToZero | dot/peerset/peerset.go:262-270 | No reputation changes sign by decay, and every one is gone after as many seconds as it has points. |
| PeersState.ChangeCounted | dot/peerset/peerstate.go:41-59 | After a change of one peer in one set all counters of all sets are right if and only if the counters of that set followed it. |
| PeersState.CountedPositive | dot/peerset/peerstate.go:290-373 | A peer that occupies a slot is counted, so no unsigned decrement wraps. |
| PeersState.AddNoSlotKeeps | dot/peerset/peerstate.go:290-315 | Reserving a peer keeps the counters right. |
| PeersState.RemoveNoSlotKeeps | dot/peerset/peerstate.go:317-341 | Releasing a peer keeps the counters right, and the excess over the outgoing limit is at most the connected outgoing peers released. |
| PeersState.DisconnectKeeps | dot/peerset/peerstate.go:345-373 | Disconnecting a peer that is connected or needs no slot keeps the counters right and changes only its state. |
| PeersState.ForgetKeeps | dot/peerset/peerstate.go:406-437 | Forgetting a peer keeps the counters right if and only if it holds no slot. |
| PeersState.ForgottenMeaning | dot/peerset/peerstate.go:406-437 | The peer has left the set, and its record is removed if and only if it has no reputation and is in no other set; nobody else changes. |
| PeersState.DialKeeps | dot/peerset/peerstate.go:443-465 | Dialling within the limit keeps the counters right if and only if the peer holds no slot yet. |
| PeersState.AdmitKeeps | dot/peerset/peerstate.go:471-495 | Accepting a peer keeps the counters right if and only if it holds no slot yet. |
| PeersState.InsertKeeps | dot/peerset/peerstate.go:377-387 | A new peer is idle in the one set, in no other, without reputation; a known one stays as it is; nobody is connected and the counts stay right. |
| PeersState.Peers.InsertPeer | dot/peerset/peerstate.go:377-387 | A known peer is left alone; a new one is idle in its set. |
| PeersState.Peers.AddNoSlotNode | dot/peerset/peerstate.go:290-315 | The reservation is recorded even when the peer turns out to be unknown. |
| PeersState.Peers.RemoveNoSlotNode | dot/peerset/peerstate.go:317-341 | The reservation is removed even when the peer turns out to be unknown. |
| PeersState.Peers.Disconnect | dot/peerset/peerstate.go:345-373 | Result, new state and right counters for every peer: unknown, connected, and one that needs no slot, which ends up idle even if it was not connected. |
| PeersState.Peers.ForgetPeer | dot/peerset/peerstate.go:406-437 | The peer leaves the set, and the list if it is in no set and has no reputation; the counters stay right exactly if it held no slot. |
| PeersState.Peers.TryOutgoing | dot/peerset/peerstate.go:443-465 | Refused exactly without a free slot and reservation, or for an unknown peer; the counters stay right exactly if the peer held no slot. |
| PeersState.Peers.TryAcceptIncoming | dot/peerset/peerstate.go:471-495 | Refused exactly without a free slot and reservation, or for an unknown peer; the counters stay right exactly if the peer held no slot. |
| PeersState.Peers.UpdateReputationByTick | dot/peerset/peerstate.go:219-234 | Only the reputation changes, by one tick. |
| PeersState.Peers.HighestNotConnectedPeer | dot/peerset/peerstate.go:255-273 | The idle peer with the best reputation for every iteration order; none exactly when nobody is idle. |
| PeersState.Peers.AddReputation | dot/peerset/peerstate.go:236-252 | The saturated sum; an unknown peer starts at 0 and is inserted in set 0; nothing else changes. |
| PeersState.NewPeerState | dot/peerset/peerstate.go:121-145 | An error exactly for an empty configuration; otherwise empty sets with their limits. |
| PeerSetSpec.LogStep | dot/peerset/peerset.go:331-454 | One message that matches one change of state keeps the log telling who is connected. |
| PeerSetSpec.HistoryNext | dot/peerset/peerset.go:331-671 | A message sent from a state that allows it extends the history: each state had right counters, the connections logged so far, and for a Connect or Accept a known peer that was neither banned nor connected. |
| PeerSetSpec.LeavingIsLogged | dot/peerset/peerset.go:331-732 | Nobody leaves without a Drop message. |
| PeerSets.NewPeerSet | dot/peerset/peerset.go:231-255 | An error exactly for an empty configuration; otherwise an empty peer set whose mode is that of the first set. |
| PeerSets.PeerSet.Dial | dot/peerset/peerset.go:403-412 | Dials a peer that is neither banned nor connected, exactly if a slot is free or not needed; the message is logged with the state it was sent from. |
| PeerSets.PeerSet.Hangup | dot/peerset/peerset.go:352-364 | Ends a connection; the message is logged with the state it was sent from. |
| PeerSets.PeerSet.UpdateTime | dot/peerset/peerset.go:274-326 | Every reputation has decayed for the same number of seconds; nobody is new, no connection changes, and who is missing from a set has been forgotten without any reputation left. |
| PeerSetSpec.TickPasses | dot/peerset/peerset.go:262-270 | One tick of one peer is part of that. |
| PeerSetSpec.ForgetPasses | dot/peerset/peerset.go:301-325 | So is forgetting an idle peer without reputation. |
| PeerSets.PeerSet.AllocSlots | dot/peerset/peerset.go:376-454 | Ends; only Connect messages of the set are sent, first to reserved peers, then each to the idle peer with the best reputation of its moment, none of them banned; nobody is dropped and reputations only fade; on success every reserved peer is connected or one is banned, and outside reserved-only mode no slot is free or every idle peer is banned; it fails only for a reserved peer that needs a slot in this set. |
| PeerSets.PeerSet.AllocReserved | dot/peerset/peerset.go:382-412 | The round over the reserved peers: on success every one is connected or one is banned; it fails only for a reserved peer that needs a slot in this set. |
| PeerSets.PeerSet.FillSlots | dot/peerset/peerset.go:419-452 | Dials the best idle peer of the moment again and again until no slot is free or every idle peer is banned. |
| PeerSetSpec.DialledIdle | dot/peerset/peerset.go:419-452 | Dialling an idle peer leaves fewer idle. |
| PeerSetSpec.AllocDial | dot/peerset/peerset.go:403-452 | One more dial keeps what allocation promises. |
| PeerSets.PeerSet.ReportPeer | dot/peerset/peerset.go:331-372 | Reports are made up to the first peer that is not banned, or to a failed refill; each finds a reputation that has only faded since the call unless the peer was reported before, and a peer it bans has been dropped from every set in which it was connected at the call; nobody else is dropped. |
| PeerSets.PeerSet.ReportOne | dot/peerset/peerset.go:338-371 | The new reputation is the saturated sum; at or above the threshold nothing else happens, below it a drop is sent for every set in which the peer was connected. |
| PeerSetSpec.DroppedFromEarlier | dot/peerset/peerset.go:338-371 | Dropped from a later state means dropped from an earlier one. |
| PeerSets.PeerSet.AddReservedPeers | dot/peerset/peerset.go:456-477 | On success exactly the listed peers before the first one already reserved, repeats included, have become reserved and need no slot in the set, and all reserved peers are connected or one is banned; on a failure a prefix has. |
| PeerSetSpec.AdditionsStop | dot/peerset/peerset.go:456-477 | Where the list is left: at its end or at a peer that was reserved or has just been. |
| PeerSets.PeerSet.RemoveReservedPeers | dot/peerset/peerset.go:479-517 | The listed peers up to the first one not reserved are released, outside reserved-only mode only the first; in reserved-only mode they are dropped, otherwise nothing is sent; nobody else changes; it fails only for a peer that is not known. |
| PeerSets.PeerSet.SetReservedPeers | dot/peerset/peerset.go:519-551 | On success the reserved peers are exactly the listed ones if and only if every peer to be added is listed before the first repetition among them, and, outside reserved-only mode, at most one peer has to be released. |
| PeerSetSpec.ReservationIff | dot/peerset/peerset.go:519-551 | The same for any numbers of peers added and released. |
| PeerSetSpec.DistinctReachesAll | dot/peerset/peerset.go:519-551 | A list without repetition is added to its end. |
| PeerSets.PeerSet.AddPeer | dot/peerset/peerset.go:556-568 | Every listed peer before the first one known in the set is known there afterwards, or has been forgotten again by time, or was known to another set only; the slots are filled. |
| PeerSetSpec.AccountedAlloc | dot/peerset/peerset.go:556-568 | Allocation keeps everybody accounted for. |
| PeerSets.PeerSet.RemovePeer | dot/peerset/peerset.go:570-600 | Exactly the listed peers before the first reserved one leave the set; no other state and no reputation changes, and only Drop messages for them are sent. |
| PeerSetSpec.Removed1Means | dot/peerset/peerset.go:577-597 | One removed peer: it has left the set, and its record goes with it unless it has a reputation or is in another set. |
| PeerSets.PeerSet.IncomingOne | dot/peerset/peerset.go:611-671 | No answer if already connected, otherwise exactly one; the new state and the answer are those of AnswerOneMeans. |
| PeerSets.PeerSet.Answer | dot/peerset/peerset.go:633-671 | Accepted exactly when not banned and a slot is free or not needed; the message is logged with the state it was sent from. |
| PeerSetSpec.AnswerOneMeans | dot/peerset/peerset.go:611-671 | One incoming connection: no answer if connected, otherwise accepted exactly if not turned away, not banned and a slot is free or not needed; reputations stay, only an accepted peer changes its connection, and the incoming limit is not passed. |
| PeerSets.PeerSet.Incoming | dot/peerset/peerset.go:605-671 | The state and the answers are those of the listed connections answered in order, once time has passed. |
| PeerSetSpec.AnswerNext | dot/peerset/peerset.go:611-671 | After any number of answers, the next peer gets none if connected, and is otherwise accepted exactly if it is not turned away, not banned, and a slot is free or not needed. |
| PeerSetSpec.AnswersMean | dot/peerset/peerset.go:605-671 | Every listed peer that is turned away or not connected is answered; exactly the accepted ones become connected; nobody accepted is turned away or banned; the incoming limit is not passed. |
| PeerSets.PeerSet.Disconnect | dot/peerset/peerset.go:687-723 | Once time has passed, exactly the listed peers before the first one not connected lose their connection and 256 points each, and stay idle or leave the set; one Drop each is sent in order. If all are done the slots are refilled; otherwise it is an error and nothing else happens. |
| PeerSets.PeerSet.DisconnectOne | dot/peerset/peerset.go:694-718 | Exactly one drop is sent, and the new state is that of Lost1Means. |
| PeerSetSpec.Lost1Means | dot/peerset/peerset.go:694-718 | The reputation falls by 256 and the peer is idle, or has left the set if it leaves; nothing else changes. |
| PeerSets.Run | dot/peerset/peerset.go:741-788 | After any actions, failed ones included: numIn and numOut count exactly the slot-occupying members, replaying Connect, Accept and Drop gives exactly the connected peers, and every message was sent from a state that allowed it, so nobody was connected while banned; the log and its history only grow. |
| CommitsTracker.Tracker.constructor | lib/grandpa/commits_tracker.go:29-35 | An empty tracker, for every capacity. |
| CommitsTracker.Tracker.Add | lib/grandpa/commits_tracker.go:40-61 | Re-adding replaces the message in place; a new hash goes to the front after the oldest made room; it fails, and changes nothing, exactly without a positive capacity. |
| CommitsTracker.Tracker.Cleanup | lib/grandpa/commits_tracker.go:67-78 | Drops exactly the last element, and only when full; there is none to drop exactly without a positive capacity. |
| CommitsTracker.Tracker.Delete | lib/grandpa/commits_tracker.go:82-93 | Removes exactly that hash and keeps the order of the rest. |
| CommitsTracker.Tracker.Get | lib/grandpa/commits_tracker.go:99-110 | The tracked message, if any. |
| CommitsTracker.FitsPosition | lib/grandpa/commits_tracker.go:17-25 | Map and list are in bijection: the map finds exactly the listed hashes at their place. |
| CommitsTracker.AddRefines | lib/grandpa/commits_tracker.go:40-61 | The queue forgets exactly what a record with birthdays forgets: the oldest-added hash, only when full; a re-added hash keeps its birthday. |
| CommitsTracker.RunRefines | lib/grandpa/commits_tracker.go:40-93 | Over every run the queue lists what the record with birthdays holds, youngest first, never more than the capacity. |
| CommitsTracker.LookupRefines | lib/grandpa/commits_tracker.go:99-110 | Lookups agree with the record. |

## Left out

- BlockTreeNode.Node.Prune: what is reported is exact, but between NarrowReportsAll and SecondForkSkipped the trees in which it is every block of the other forks are not characterised, since a block reached twice can make up for skipped ones below it.
- FullSync.Strategy.Process: the ready blocks of a call whose import failed are gone; the model says so by saying what is kept.
- PeersState.Peers.AddReputation: the source takes its lock a second time to insert an unknown peer and so never returns; locks are not modelled, and the model goes on.
- PeersState.Peers: node records are values in a map, so sharing of node records is not modelled; slot counters are not bounded above by 32 bits.
- PeerSets.PeerSet.RemovePeer: sends the drop message after the disconnection instead of before it, which no sequential observer sees.
- WorkerPool.SafeOverRuns: requests and workers are opaque, and the pool's own maps of known and ignored peers are not modelled.
- Runtime execution, SCALE encoding, hashing, cryptography, tries and storage state are not modelled.
- Database failures other than failed ancestry lookups and a refused set ID, and partial writes at process exit, are not modelled.
- Mutexes and data races outside the worker pool are not modelled; actions are sequential.
- `GetHashesAtNumber`, `Range` with a start outside the tree, `GetAllDescendants`, `DeepCopy` and tree printing are left out: they read the tree without changing it, and nothing modelled here calls them.
- The rest of `Rewind`, `NextGrandpaAuthorityChange`, pause and resume digests, votes and rounds are left out.
- `dot/state/epoch.go` and the BABE threshold computation are left out.
- Block announcements enter full sync only as a remembered header; peer targets and request batching are left out.
- Notifications, telemetry, metrics and logging are left out.
